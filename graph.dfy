/** The graph store as a value: the ids of the `User` nodes and the directed, typed
    relationships between them. Each Cypher query of the service reads and rewrites
    one such value atomically. */
module Graph {
  import opened Models

  type UserId = string

  /** A relationship `(from)-[:kind]->(to)`. Its `datetime` property is not modelled. */
  datatype Edge = Edge(from: UserId, to: UserId, kind: FriendshipStatus)

  /** `edges` is a sequence, not a set: two relationships with the same ends and the
      same type are distinct in the store, and each one yields its own query row. */
  datatype Store = Store(users: set<UserId>, edges: seq<Edge>)

  const Empty: Store := Store({}, [])

  /** Does `e` go from `u1` to `u2`, whatever its type? */
  predicate Links(e: Edge, u1: UserId, u2: UserId) {
    e.from == u1 && e.to == u2
  }

  /** Every relationship joins two existing `User` nodes. */
  ghost predicate WellFormed(s: Store) {
    forall e | e in s.edges :: e.from in s.users && e.to in s.users
  }

  /** The only relationship a user may have with itself is BLOCKED. */
  ghost predicate SelfEdgesBlocked(edges: seq<Edge>) {
    forall e | e in edges && e.from == e.to :: e.kind == Blocked
  }

  /** No ordered pair carries two PENDING relationships, and no two users have a PENDING
      relationship in both directions. */
  ghost predicate PendingUnique(edges: seq<Edge>) {
    forall a, b ::
      && multiset(edges)[Edge(a, b, Pending)] <= 1
      && (a != b && Edge(a, b, Pending) in edges ==> Edge(b, a, Pending) !in edges)
  }

  /** A PENDING relationship never stands beside an ACCEPTED one between the same two
      users, in either direction. */
  ghost predicate PendingNotFriends(edges: seq<Edge>) {
    forall a, b | Edge(a, b, Pending) in edges ::
      Edge(a, b, Accepted) !in edges && Edge(b, a, Accepted) !in edges
  }

  ghost predicate Invariant(s: Store) {
    && WellFormed(s)
    && SelfEdgesBlocked(s.edges)
    && PendingUnique(s.edges)
    && PendingNotFriends(s.edges)
  }

  /** The number of relationships from `u1` to `u2`, of any type. */
  function Linking(edges: seq<Edge>, u1: UserId, u2: UserId): nat {
    if edges == [] then 0
    else (if Links(edges[0], u1, u2) then 1 else 0) + Linking(edges[1..], u1, u2)
  }

  /** What `DELETE r` leaves after `OPTIONAL MATCH (u1)-[r]->(u2)`. */
  function Unlink(edges: seq<Edge>, u1: UserId, u2: UserId): (r: seq<Edge>)
    ensures |r| <= |edges|
    ensures forall e | e in r :: e in edges && !Links(e, u1, u2)
  {
    if edges == [] then []
    else (if Links(edges[0], u1, u2) then [] else [edges[0]]) + Unlink(edges[1..], u1, u2)
  }

  /** `n` relationships equal to `e`, one per row that creates one. */
  function Copies(e: Edge, n: nat): (r: seq<Edge>)
    ensures |r| == n
    ensures forall x | x in r :: x == e
  {
    if n == 0 then [] else [e] + Copies(e, n - 1)
  }

  /** Every PENDING relationship from `u1` to `u2` replaced, where it stands, by one of
      type `kind` between the same users. */
  function Retype(edges: seq<Edge>, u1: UserId, u2: UserId, kind: FriendshipStatus): (r: seq<Edge>)
    ensures |r| == |edges|
    ensures forall e | e in r :: (e in edges && e != Edge(u1, u2, Pending)) || e == Edge(u1, u2, kind)
  {
    if edges == [] then []
    else [if edges[0] == Edge(u1, u2, Pending) then Edge(u1, u2, kind) else edges[0]]
         + Retype(edges[1..], u1, u2, kind)
  }

  /** Unlink removes exactly the relationships from `u1` to `u2`, all of them, and keeps
      every other relationship with its multiplicity. */
  lemma {:induction false} UnlinkCount(edges: seq<Edge>, u1: UserId, u2: UserId, e: Edge)
    ensures multiset(Unlink(edges, u1, u2))[e] == if Links(e, u1, u2) then 0 else multiset(edges)[e]
    ensures |Unlink(edges, u1, u2)| + Linking(edges, u1, u2) == |edges|
  {
    if edges != [] {
      var rest := edges[1..];
      UnlinkCount(rest, u1, u2, e);
      assert edges == [edges[0]] + rest;
      var kept := if Links(edges[0], u1, u2) then [] else [edges[0]];
      assert Unlink(edges, u1, u2) == kept + Unlink(rest, u1, u2);
      assert multiset(edges)[e] == multiset([edges[0]])[e] + multiset(rest)[e];
      assert multiset(Unlink(edges, u1, u2))[e] == multiset(kept)[e] + multiset(Unlink(rest, u1, u2))[e];
    }
  }

  lemma UnlinkCounts(edges: seq<Edge>, u1: UserId, u2: UserId)
    ensures forall e :: multiset(Unlink(edges, u1, u2))[e]
                        == if Links(e, u1, u2) then 0 else multiset(edges)[e]
    ensures |Unlink(edges, u1, u2)| + Linking(edges, u1, u2) == |edges|
  {
    forall e
      ensures multiset(Unlink(edges, u1, u2))[e] == if Links(e, u1, u2) then 0 else multiset(edges)[e]
    {
      UnlinkCount(edges, u1, u2, e);
    }
    if edges != [] {
      UnlinkCount(edges, u1, u2, edges[0]);
    }
  }

  lemma {:induction false} CopiesCounts(e: Edge, n: nat)
    ensures |Copies(e, n)| == n
    ensures forall x :: multiset(Copies(e, n))[x] == if x == e then n else 0
  {
    if n > 0 {
      CopiesCounts(e, n - 1);
      assert multiset(Copies(e, n)) == multiset{e} + multiset(Copies(e, n - 1));
    }
  }

  /** Retype turns every PENDING relationship from `u1` to `u2` into one of type `kind`
      and leaves every other relationship, with its multiplicity, alone. */
  lemma {:induction false} RetypeCount(edges: seq<Edge>, u1: UserId, u2: UserId, kind: FriendshipStatus, e: Edge)
    requires kind != Pending
    ensures |Retype(edges, u1, u2, kind)| == |edges|
    ensures multiset(Retype(edges, u1, u2, kind))[e]
            == if e == Edge(u1, u2, Pending) then 0
               else if e == Edge(u1, u2, kind)
                 then multiset(edges)[e] + multiset(edges)[Edge(u1, u2, Pending)]
               else multiset(edges)[e]
  {
    if edges != [] {
      var rest := edges[1..];
      RetypeCount(rest, u1, u2, kind, e);
      RetypeCount(rest, u1, u2, kind, Edge(u1, u2, Pending));
      assert edges == [edges[0]] + rest;
      var head := if edges[0] == Edge(u1, u2, Pending) then Edge(u1, u2, kind) else edges[0];
      assert Retype(edges, u1, u2, kind) == [head] + Retype(rest, u1, u2, kind);
      assert multiset(edges)[e] == multiset([edges[0]])[e] + multiset(rest)[e];
      assert multiset(edges)[Edge(u1, u2, Pending)]
          == multiset([edges[0]])[Edge(u1, u2, Pending)] + multiset(rest)[Edge(u1, u2, Pending)];
      assert multiset(Retype(edges, u1, u2, kind))[e]
          == multiset([head])[e] + multiset(Retype(rest, u1, u2, kind))[e];
    }
  }

  lemma RetypeCounts(edges: seq<Edge>, u1: UserId, u2: UserId, kind: FriendshipStatus)
    requires kind != Pending
    ensures |Retype(edges, u1, u2, kind)| == |edges|
    ensures forall e :: multiset(Retype(edges, u1, u2, kind))[e]
                        == if e == Edge(u1, u2, Pending) then 0
                           else if e == Edge(u1, u2, kind)
                             then multiset(edges)[e] + multiset(edges)[Edge(u1, u2, Pending)]
                           else multiset(edges)[e]
  {
    forall e
      ensures multiset(Retype(edges, u1, u2, kind))[e]
              == if e == Edge(u1, u2, Pending) then 0
                 else if e == Edge(u1, u2, kind)
                   then multiset(edges)[e] + multiset(edges)[Edge(u1, u2, Pending)]
                 else multiset(edges)[e]
    {
      RetypeCount(edges, u1, u2, kind, e);
    }
    RetypeCount(edges, u1, u2, kind, Edge(u1, u2, Pending));
  }

  lemma {:induction false} RetypeWithoutPending(edges: seq<Edge>, u1: UserId, u2: UserId, kind: FriendshipStatus)
    requires Edge(u1, u2, Pending) !in edges
    ensures Retype(edges, u1, u2, kind) == edges
  {
    if edges != [] {
      assert edges == [edges[0]] + edges[1..];
      RetypeWithoutPending(edges[1..], u1, u2, kind);
    }
  }
}
