/** What the three queries promise, one call at a time and over any sequence of calls. */
module Properties {
  import opened Models
  import opened Graph
  import opened Decisions
  import opened Transitions

  /** An edge of type other than DECLINED between the two users, in the given direction. */
  predicate Active(edges: seq<Edge>, u1: UserId, u2: UserId) {
    Edge(u1, u2, Pending) in edges || Edge(u1, u2, Accepted) in edges || Edge(u1, u2, Blocked) in edges
  }

  // ---------------------------------------------------------------- initiate

  /** Initiate always creates both users; it succeeds exactly when the users differ and
      no PENDING, ACCEPTED or BLOCKED relationship joins them in either direction, and
      then adds one PENDING relationship from initiator to recipient; otherwise it changes
      no relationship and answers 400 with the message of the first reason that applies. */
  lemma InitiateSpec(s: Store, a: UserId, b: UserId)
    ensures Initiate(s, a, b).store.users == s.users + {a, b}
    ensures Initiate(s, a, b).response.code == 200
            <==> a != b && !Active(s.edges, a, b) && !Active(s.edges, b, a)
    ensures Initiate(s, a, b).response.code == 200 ==>
              && Initiate(s, a, b).response.body == Text("Follow request sent")
              && Initiate(s, a, b).store.edges == s.edges + [Edge(a, b, Pending)]
    ensures Initiate(s, a, b).response.code != 200 ==>
              && Initiate(s, a, b).store.edges == s.edges
              && Decide(s.edges, a, b).Some?
              && Initiate(s, a, b).response == Response(400, Text(Message(Decide(s.edges, a, b).value)))
  {
  }

  /** A request that was just sent blocks a second one in either direction, and the
      second attempt leaves the relationships as they were. */
  lemma InitiateTwice(s: Store, a: UserId, b: UserId)
    requires Initiate(s, a, b).response.code == 200
    ensures Initiate(Initiate(s, a, b).store, a, b)
            == Outcome(Initiate(s, a, b).store, Response(400, Text(Message(YouPending))))
    ensures Initiate(Initiate(s, a, b).store, b, a).store.edges == Initiate(s, a, b).store.edges
    ensures Initiate(Initiate(s, a, b).store, b, a).response == Response(400, Text(Message(TheyPending)))
  {
    InitiateSpec(s, a, b);
    var t := Initiate(s, a, b).store;
    assert Edge(a, b, Pending) in t.edges;
    assert Edge(b, a, Pending) !in t.edges;
    assert t.users + {a, b} == t.users && t.users + {b, a} == t.users;
  }

  // ---------------------------------------------------------------- respond

  /** A status that is none of "accepted", "declined", "blocked" in any letter case is
      refused with 400 before the store is touched. */
  lemma RespondInvalid(s: Store, a: UserId, b: UserId, status: string)
    requires forall k | k != Pending :: ToLowercase(status) != StatusName(k)
    ensures Respond(s, a, b, status) == Outcome(s, Response(400, Text(InvalidStatus)))
  {
  }

  /** Accepting or declining replaces every PENDING relationship from initiator to
      recipient by one of the chosen type, keeps every other relationship and answers 200;
      with no such PENDING relationship nothing changes and the answer is 404. */
  lemma RespondAnswer(s: Store, a: UserId, b: UserId, status: string, kind: FriendshipStatus)
    requires kind == Accepted || kind == Declined
    requires ToLowercase(status) == StatusName(kind)
    ensures Respond(s, a, b, status).store.users == s.users
    ensures Edge(a, b, Pending) in s.edges ==>
              && Respond(s, a, b, status).response == Response(200, Text("Friendship " + StatusName(kind)))
              && Edge(a, b, Pending) !in Respond(s, a, b, status).store.edges
              && Edge(a, b, kind) in Respond(s, a, b, status).store.edges
              && forall e :: multiset(Respond(s, a, b, status).store.edges)[e]
                             == if e == Edge(a, b, Pending) then 0
                                else if e == Edge(a, b, kind)
                                  then multiset(s.edges)[e] + multiset(s.edges)[Edge(a, b, Pending)]
                                else multiset(s.edges)[e]
    ensures Edge(a, b, Pending) !in s.edges ==>
              Respond(s, a, b, status) == Outcome(s, Response(404, Text("Friendship request not found")))
  {
    assert ParseStatus(status) == Some(kind);
    RetypeCounts(s.edges, a, b, kind);
    if Edge(a, b, Pending) !in s.edges {
      RetypeWithoutPending(s.edges, a, b, kind);
    } else {
      assert multiset(Respond(s, a, b, status).store.edges)[Edge(a, b, kind)] > 0;
    }
  }

  /** Blocking, when both users exist, deletes every relationship from initiator to
      recipient, creates BLOCKED ones in their place (one per deleted relationship, and
      one if there was none), leaves every other relationship, those from recipient to
      initiator included, as it was, and answers 200. When a user does not exist the query
      matches nothing: 404 and no change. */
  lemma RespondBlock(s: Store, a: UserId, b: UserId, status: string)
    requires ToLowercase(status) == "blocked"
    ensures Respond(s, a, b, status).store.users == s.users
    ensures a in s.users && b in s.users ==>
              && Respond(s, a, b, status).response == Response(200, Text("Friendship blocked"))
              && Edge(a, b, Blocked) in Respond(s, a, b, status).store.edges
              && forall e :: multiset(Respond(s, a, b, status).store.edges)[e]
                             == if !Links(e, a, b) then multiset(s.edges)[e]
                                else if e.kind == Blocked then Max(1, Linking(s.edges, a, b))
                                else 0
    ensures !(a in s.users && b in s.users) ==>
              Respond(s, a, b, status) == Outcome(s, Response(404, Text("Friendship request not found")))
  {
    assert ParseStatus(status) == Some(Blocked);
    assert "Friendship " + StatusName(Blocked) == "Friendship blocked";
    if a in s.users && b in s.users {
      var n := Max(1, Linking(s.edges, a, b));
      UnlinkCounts(s.edges, a, b);
      CopiesCounts(Edge(a, b, Blocked), n);
      var after := Respond(s, a, b, status).store.edges;
      assert after == Unlink(s.edges, a, b) + Copies(Edge(a, b, Blocked), n);
      assert multiset(after)[Edge(a, b, Blocked)] > 0;
    }
  }

  // ---------------------------------------------------------------- list friends

  /** The list query returns exactly the users joined to `u` by an ACCEPTED relationship,
      in either direction. */
  lemma {:induction false} FriendRowsMembers(edges: seq<Edge>, u: UserId, x: UserId)
    ensures x in FriendRows(edges, u) <==> Friends(edges, u, x)
  {
    if edges != [] {
      var init, last := edges[..|edges| - 1], edges[|edges| - 1];
      FriendRowsMembers(init, u, x);
      assert edges == init + [last];
    }
  }

  /** The list handler answers 404 exactly when the user has no friend, and otherwise 200
      with a JSON array holding exactly the user's friends. */
  lemma ListFriendsSpec(s: Store, u: UserId)
    ensures ListFriends(s, u).code == 404 <==> forall x :: !Friends(s.edges, u, x)
    ensures (exists x :: Friends(s.edges, u, x)) ==> ListFriends(s, u).code == 200
    ensures ListFriends(s, u).code == 200 ==>
              && ListFriends(s, u).body.Json?
              && forall x :: x in ListFriends(s, u).body.ids <==> Friends(s.edges, u, x)
  {
    var rows := FriendRows(s.edges, u);
    forall x ensures x in rows <==> Friends(s.edges, u, x) {
      FriendRowsMembers(s.edges, u, x);
    }
    if rows != [] {
      assert Friends(s.edges, u, rows[0]);
    }
  }

  /** Accepting a pending request makes the two users appear in each other's lists. */
  lemma AcceptMakesFriends(s: Store, a: UserId, b: UserId, status: string)
    requires Edge(a, b, Pending) in s.edges
    requires ToLowercase(status) == "accepted"
    ensures b in FriendRows(Respond(s, a, b, status).store.edges, a)
    ensures a in FriendRows(Respond(s, a, b, status).store.edges, b)
  {
    RespondAnswer(s, a, b, status, Accepted);
    var after := Respond(s, a, b, status).store.edges;
    FriendRowsMembers(after, a, b);
    FriendRowsMembers(after, b, a);
  }

  // ---------------------------------------------------------------- reachable stores

  lemma InitiatePreserves(s: Store, a: UserId, b: UserId)
    requires Invariant(s)
    ensures Invariant(Initiate(s, a, b).store)
  {
  }

  /** Every relationship after a step is one from before or the one the step creates,
      and no pair has more PENDING relationships than before: the invariant carries over. */
  lemma GrowsOnly(s: Store, t: Store, created: Edge)
    requires Invariant(s)
    requires t.users == s.users
    requires created.from in s.users && created.to in s.users
    requires created.kind != Pending && (created.from == created.to ==> created.kind == Blocked)
    requires created.kind == Accepted ==>
               Edge(created.from, created.to, Pending) !in t.edges && Edge(created.to, created.from, Pending) !in t.edges
    requires forall e | e != created :: multiset(t.edges)[e] <= multiset(s.edges)[e]
    ensures Invariant(t)
  {
    forall e | e in t.edges
      ensures e in s.edges || e == created
    {
      assert multiset(t.edges)[e] > 0;
    }
    forall x, y
      ensures multiset(t.edges)[Edge(x, y, Pending)] <= multiset(s.edges)[Edge(x, y, Pending)]
    {
      assert Edge(x, y, Pending) != created;
    }
    forall x, y | Edge(x, y, Pending) in t.edges
      ensures Edge(x, y, Accepted) !in t.edges && Edge(y, x, Accepted) !in t.edges
    {
      assert Edge(x, y, Pending) in s.edges;
    }
  }

  lemma RespondPreserves(s: Store, a: UserId, b: UserId, status: string)
    requires Invariant(s)
    ensures Invariant(Respond(s, a, b, status).store)
  {
    match ParseStatus(status)
    case None =>
    case Some(kind) =>
      if kind == Blocked {
        BlockPreserves(s, a, b, status);
      } else {
        AnswerPreserves(s, a, b, status, kind);
      }
  }

  /** A block keeps the store invariant. */
  lemma BlockPreserves(s: Store, a: UserId, b: UserId, status: string)
    requires Invariant(s)
    requires ParseStatus(status) == Some(Blocked)
    ensures Invariant(Respond(s, a, b, status).store)
  {
    RespondBlock(s, a, b, status);
    if a in s.users && b in s.users {
      GrowsOnly(s, Respond(s, a, b, status).store, Edge(a, b, Blocked));
    }
  }

  /** Accepting or declining keeps the store invariant. */
  lemma AnswerPreserves(s: Store, a: UserId, b: UserId, status: string, kind: FriendshipStatus)
    requires Invariant(s)
    requires ParseStatus(status) == Some(kind) && kind != Blocked
    ensures Invariant(Respond(s, a, b, status).store)
  {
    RespondAnswer(s, a, b, status, kind);
    var t := Respond(s, a, b, status).store;
    if Edge(a, b, Pending) in s.edges {
      assert a != b;
      assert Edge(b, a, Pending) !in s.edges;
      assert multiset(t.edges)[Edge(b, a, Pending)] <= multiset(s.edges)[Edge(b, a, Pending)];
      GrowsOnly(s, t, Edge(a, b, kind));
    }
  }

  /** On a reachable store, accepting a pending request leaves exactly one ACCEPTED
      relationship between the two users, and no PENDING one in either direction. */
  lemma AcceptExactlyOnce(s: Store, a: UserId, b: UserId, status: string)
    requires Invariant(s)
    requires Edge(a, b, Pending) in s.edges
    requires ToLowercase(status) == "accepted"
    ensures multiset(Respond(s, a, b, status).store.edges)[Edge(a, b, Accepted)] == 1
    ensures Edge(b, a, Accepted) !in Respond(s, a, b, status).store.edges
    ensures Edge(a, b, Pending) !in Respond(s, a, b, status).store.edges
    ensures Edge(b, a, Pending) !in Respond(s, a, b, status).store.edges
  {
    RespondAnswer(s, a, b, status, Accepted);
    var t := Respond(s, a, b, status).store.edges;
    assert a != b;
    assert Edge(a, b, Accepted) !in s.edges && Edge(b, a, Accepted) !in s.edges;
    assert multiset(s.edges)[Edge(a, b, Pending)] == 1;
    assert Edge(b, a, Pending) !in s.edges;
    assert multiset(t)[Edge(b, a, Pending)] == 0;
    assert multiset(t)[Edge(b, a, Accepted)] == 0;
  }

  lemma StepPreserves(s: Store, req: Request)
    requires Invariant(s)
    ensures Invariant(Step(s, req))
  {
    match req
    case InitiateCall(a, b) => InitiatePreserves(s, a, b);
    case RespondCall(a, b, status) => RespondPreserves(s, a, b, status);
    case ListCall(_) =>
  }

  /** Every store reached from an empty one keeps the invariant: relationships join
      existing users, a user's only relationship with itself is BLOCKED, and a pair of
      users has at most one PENDING relationship. */
  lemma {:induction false} RunPreserves(s: Store, reqs: seq<Request>)
    requires Invariant(s)
    ensures Invariant(Run(s, reqs))
    decreases |reqs|
  {
    if reqs != [] {
      StepPreserves(s, reqs[0]);
      RunPreserves(Step(s, reqs[0]), reqs[1..]);
    }
  }

  /** Starting from an empty store, no user ever appears in their own friend list. */
  lemma NeverOwnFriend(reqs: seq<Request>, u: UserId)
    ensures u !in FriendRows(Run(Empty, reqs).edges, u)
  {
    RunPreserves(Empty, reqs);
    var edges := Run(Empty, reqs).edges;
    FriendRowsMembers(edges, u, u);
    assert Edge(u, u, Accepted) !in edges;
  }

  // ---------------------------------------------------------------- two consequences of blocking

  /** The three steps of BlockKeepsReverseFriendship, one store at a time. */
  lemma ReverseFriendshipSteps(a: UserId, b: UserId)
    requires a != b
    ensures var s1 := Initiate(Empty, b, a).store;
            var s2 := Respond(s1, b, a, "accepted").store;
            && s2 == Store({b, a}, [Edge(b, a, Accepted)])
            && Respond(s2, a, b, "blocked").store.edges == [Edge(b, a, Accepted), Edge(a, b, Blocked)]
  {
    InitiateSpec(Empty, b, a);
    var s1 := Initiate(Empty, b, a).store;
    assert s1 == Store({b, a}, [Edge(b, a, Pending)]);
    assert ParseStatus("accepted") == Some(Accepted);
    assert s1.edges[1..] == [];
    assert Retype(s1.edges, b, a, Accepted) == [Edge(b, a, Accepted)];
    var s2 := Respond(s1, b, a, "accepted").store;
    assert s2 == Store({b, a}, [Edge(b, a, Accepted)]);
    assert ParseStatus("blocked") == Some(Blocked);
    assert s2.edges[1..] == [];
    assert Linking(s2.edges, a, b) == 0;
    assert Unlink(s2.edges, a, b) == s2.edges;
    assert Copies(Edge(a, b, Blocked), 1) == [Edge(a, b, Blocked)];
  }

  /** Blocking deletes only the relationships from initiator to recipient: a friendship
      accepted in the other direction survives, and the blocker still lists the blocked
      user as a friend. */
  lemma BlockKeepsReverseFriendship(a: UserId, b: UserId)
    requires a != b
    ensures Run(Empty, [InitiateCall(b, a), RespondCall(b, a, "accepted"), RespondCall(a, b, "blocked")]).edges
            == [Edge(b, a, Accepted), Edge(a, b, Blocked)]
    ensures ListFriends(Run(Empty, [InitiateCall(b, a), RespondCall(b, a, "accepted"), RespondCall(a, b, "blocked")]), a)
            == Response(200, Json([b]))
  {
    var reqs := [InitiateCall(b, a), RespondCall(b, a, "accepted"), RespondCall(a, b, "blocked")];
    ReverseFriendshipSteps(a, b);
    var s1 := Initiate(Empty, b, a).store;
    var s2 := Respond(s1, b, a, "accepted").store;
    var s3 := Respond(s2, a, b, "blocked").store;
    var r1, r2, r3 := reqs[0], reqs[1], reqs[2];
    assert [r3][1..] == [];
    assert Run(s2, [r3]) == s3;
    assert [r2, r3][1..] == [r3];
    assert Run(s1, [r2, r3]) == s3;
    assert reqs[1..] == [r2, r3];
    assert s3.edges[..1] == [Edge(b, a, Accepted)] && s3.edges[..1][..0] == [];
    assert MatchRow(Edge(a, b, Blocked), a) == None;
    assert FriendRows(s3.edges[..1], a) == [b];
    assert FriendRows(s3.edges, a) == [b];
  }

  /** The four steps of BlockAfterRerequest, one store at a time. */
  lemma RerequestSteps(a: UserId, b: UserId)
    requires a != b
    ensures var s1 := Initiate(Empty, a, b).store;
            var s2 := Respond(s1, a, b, "declined").store;
            var s3 := Initiate(s2, a, b).store;
            && s2 == Store({a, b}, [Edge(a, b, Declined)])
            && s3 == Store({a, b}, [Edge(a, b, Declined), Edge(a, b, Pending)])
            && Respond(s3, a, b, "blocked").store.edges == [Edge(a, b, Blocked), Edge(a, b, Blocked)]
  {
    InitiateSpec(Empty, a, b);
    var s1 := Initiate(Empty, a, b).store;
    assert s1 == Store({a, b}, [Edge(a, b, Pending)]);
    assert ToLowercase("declined") == "declined";
    assert "declined" != "accepted" by { assert "declined"[0] != "accepted"[0]; }
    assert ParseStatus("declined") == Some(Declined);
    assert s1.edges[1..] == [];
    assert Retype(s1.edges, a, b, Declined) == [Edge(a, b, Declined)];
    var s2 := Respond(s1, a, b, "declined").store;
    assert s2 == Store({a, b}, [Edge(a, b, Declined)]);
    InitiateSpec(s2, a, b);
    var s3 := Initiate(s2, a, b).store;
    assert s3 == Store({a, b}, [Edge(a, b, Declined), Edge(a, b, Pending)]);
    assert ParseStatus("blocked") == Some(Blocked);
    assert s3.edges[1..] == [Edge(a, b, Pending)] && s3.edges[1..][1..] == [];
    assert Linking(s3.edges[1..], a, b) == 1;
    assert Linking(s3.edges, a, b) == 2;
    assert Unlink(s3.edges[1..], a, b) == [];
    assert Unlink(s3.edges, a, b) == [];
    assert Copies(Edge(a, b, Blocked), 1) == [Edge(a, b, Blocked)];
  }

  /** A declined request does not stop a new one, so two relationships can go from one
      user to another; blocking then creates one BLOCKED relationship per deleted one. */
  lemma BlockAfterRerequest(a: UserId, b: UserId)
    requires a != b
    ensures Run(Empty, [InitiateCall(a, b), RespondCall(a, b, "declined"),
                        InitiateCall(a, b), RespondCall(a, b, "blocked")]).edges
            == [Edge(a, b, Blocked), Edge(a, b, Blocked)]
  {
    var reqs := [InitiateCall(a, b), RespondCall(a, b, "declined"),
                 InitiateCall(a, b), RespondCall(a, b, "blocked")];
    RerequestSteps(a, b);
    var s1 := Initiate(Empty, a, b).store;
    var s2 := Respond(s1, a, b, "declined").store;
    var s3 := Initiate(s2, a, b).store;
    var s4 := Respond(s3, a, b, "blocked").store;
    var r1, r2, r3, r4 := reqs[0], reqs[1], reqs[2], reqs[3];
    assert [r4][1..] == [];
    assert Run(s3, [r4]) == s4;
    assert [r3, r4][1..] == [r4];
    assert Run(s2, [r3, r4]) == s4;
    assert [r2, r3, r4][1..] == [r3, r4];
    assert Run(s1, [r2, r3, r4]) == s4;
    assert reqs[1..] == [r2, r3, r4];
  }

  /** A self-request is refused but still creates the user, so blocking oneself then
      finds both ends and creates a BLOCKED relationship from the user to itself. */
  lemma SelfBlockReachable(a: UserId)
    ensures Run(Empty, [InitiateCall(a, a), RespondCall(a, a, "blocked")])
            == Store({a}, [Edge(a, a, Blocked)])
  {
    var reqs := [InitiateCall(a, a), RespondCall(a, a, "blocked")];
    InitiateSpec(Empty, a, a);
    var s1 := Initiate(Empty, a, a).store;
    assert s1 == Store({a}, []);
    assert ParseStatus("blocked") == Some(Blocked);
    assert Copies(Edge(a, a, Blocked), 1) == [Edge(a, a, Blocked)];
    var s2 := Respond(s1, a, a, "blocked").store;
    assert s2 == Store({a}, [Edge(a, a, Blocked)]);
    var r1, r2 := reqs[0], reqs[1];
    assert [r2][1..] == [];
    assert Run(s1, [r2]) == s2;
    assert reqs[1..] == [r2];
  }
}
