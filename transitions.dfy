/** Each Cypher query of src/neo4j.rs as one atomic step from a store value to the next
    store value and the HTTP response the handler builds from the query's rows. Store and
    driver failures (the 500 replies) are not part of this model. */
module Transitions {
  import opened Models
  import opened Graph
  import opened Decisions

  datatype Outcome = Outcome(store: Store, response: Response)

  /** `send_friend_request`: MERGE both users, evaluate the CASE chain, and create a
      PENDING relationship from initiator to recipient only when the message is "OK". */
  function Initiate(s: Store, initiator: UserId, recipient: UserId): (o: Outcome)
    ensures o.store.users == s.users + {initiator, recipient}
    ensures o.store.edges == s.edges || o.store.edges == s.edges + [Edge(initiator, recipient, Pending)]
    ensures o.response.code == 200 || o.response.code == 400
  {
    var message := InitiateMessage(s.edges, initiator, recipient);
    var edges := if message == OkMessage then s.edges + [Edge(initiator, recipient, Pending)]
                 else s.edges;
    Outcome(Store(s.users + {initiator, recipient}, edges), InitiateResponse(message))
  }

  function Max(a: nat, b: nat): nat {
    if a < b then b else a
  }

  /** The BLOCKED query: when both users exist, one row per relationship from `u1` to
      `u2` (or a single row with a null relationship when there is none); each row deletes
      its relationship and creates a BLOCKED one. Returns the new relationships and the
      number of rows. */
  function BlockRewrite(s: Store, u1: UserId, u2: UserId): (r: (seq<Edge>, nat))
    ensures r.1 == 0 <==> !(u1 in s.users && u2 in s.users)
    ensures r.1 == 0 ==> r.0 == s.edges
    ensures r.1 > 0 ==> Edge(u1, u2, Blocked) in r.0
    ensures forall e | e in r.0 && Links(e, u1, u2) :: r.1 == 0 || e.kind == Blocked
  {
    if u1 in s.users && u2 in s.users then
      var rows := Max(1, Linking(s.edges, u1, u2));
      (Unlink(s.edges, u1, u2) + Copies(Edge(u1, u2, Blocked), rows), rows)
    else (s.edges, 0)
  }

  /** `respond_to_friend_request`: reject an unknown status before touching the store;
      otherwise run the BLOCKED query or the ACCEPTED/DECLINED query and answer 404 when
      it produced no row. */
  function Respond(s: Store, initiator: UserId, recipient: UserId, status: string): (o: Outcome)
    ensures o.store.users == s.users
    ensures o.response.code == 200 || o.response.code == 400 || o.response.code == 404
    ensures o.response.code != 200 ==> o.store == s
  {
    match ParseStatus(status)
    case None => Outcome(s, Response(400, Text(InvalidStatus)))
    case Some(kind) =>
      if kind == Blocked then
        var (edges, rows) := BlockRewrite(s, initiator, recipient);
        Outcome(Store(s.users, edges), RespondResponse(kind, rows))
      else
        var rows := multiset(s.edges)[Edge(initiator, recipient, Pending)];
        var edges := Retype(s.edges, initiator, recipient, kind);
        assert rows == 0 ==> edges == s.edges by {
          if rows == 0 { RetypeWithoutPending(s.edges, initiator, recipient, kind); }
        }
        Outcome(Store(s.users, edges), RespondResponse(kind, rows))
  }

  /** Are `u` and `x` joined by an ACCEPTED relationship, in either direction? */
  predicate Friends(edges: seq<Edge>, u: UserId, x: UserId) {
    Edge(u, x, Accepted) in edges || Edge(x, u, Accepted) in edges
  }

  /** The `result` column of the row a relationship yields for the undirected pattern
      `(u)-[:ACCEPTED]-(result)`, if it yields one. */
  function MatchRow(e: Edge, u: UserId): Option<UserId> {
    if e.kind == Accepted && e.from == u then Some(e.to)
    else if e.kind == Accepted && e.to == u then Some(e.from)
    else None
  }

  /** The ids the list query returns, one per matching relationship, in store order. */
  function FriendRows(edges: seq<Edge>, u: UserId): (r: seq<UserId>)
    ensures |r| <= |edges|
    ensures forall x | x in r :: Friends(edges, u, x)
  {
    if edges == [] then []
    else
      var last := edges[|edges| - 1];
      FriendRows(edges[..|edges| - 1], u) + (match MatchRow(last, u) case Some(x) => [x] case None => [])
  }

  /** `get_friendships_by_user_id`. */
  function ListFriends(s: Store, u: UserId): (r: Response)
    ensures r.code == 200 || r.code == 404
    ensures r.code == 200 ==> r.body.Json? && r.body.ids != []
    ensures r.code == 200 ==> forall x | x in r.body.ids :: Friends(s.edges, u, x)
  {
    FriendsResponse(FriendRows(s.edges, u))
  }

  /** One request of any of the three kinds, as the HTTP surface accepts them. */
  datatype Request =
    | InitiateCall(initiator: UserId, recipient: UserId)
    | RespondCall(initiator: UserId, recipient: UserId, status: string)
    | ListCall(user: UserId)

  function Step(s: Store, req: Request): Store {
    match req
    case InitiateCall(a, b) => Initiate(s, a, b).store
    case RespondCall(a, b, status) => Respond(s, a, b, status).store
    case ListCall(_) => s
  }

  /** The store after serving `reqs` one after another, each as one atomic step. */
  function Run(s: Store, reqs: seq<Request>): Store
    decreases |reqs|
  {
    if reqs == [] then s else Run(Step(s, reqs[0]), reqs[1..])
  }
}
