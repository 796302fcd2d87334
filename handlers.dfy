/** The three HTTP handlers of src/neo4j.rs over one shared graph store. The store is an
    object whose users and relationships each query rewrites in one atomic step. */
module Handlers {
  import opened Models
  import opened Graph
  import opened Decisions
  import opened Transitions
  import Properties

  class FriendshipStore {
    var users: set<UserId>
    var edges: seq<Edge>

    function Snapshot(): Store
      reads this
    {
      Store(users, edges)
    }

    ghost predicate Valid()
      reads this
    {
      Invariant(Snapshot())
    }

    /** A store with no user and no relationship. */
    constructor ()
      ensures Valid() && Snapshot() == Empty
    {
      users := {};
      edges := [];
    }

    /** `send_friend_request`: both users are merged whatever the outcome; a PENDING
        relationship from initiator to recipient is created only when the CASE chain
        yields "OK". */
    method SendFriendRequest(friendship: Friendship) returns (response: Response)
      requires Valid()
      modifies this
      ensures Valid()
      ensures Snapshot() == Initiate(old(Snapshot()), friendship.initiatorId, friendship.recipientId).store
      ensures response == Initiate(old(Snapshot()), friendship.initiatorId, friendship.recipientId).response
    {
      var u1, u2 := friendship.initiatorId, friendship.recipientId;
      Properties.InitiatePreserves(Snapshot(), u1, u2);
      users := users + {u1, u2};
      var message := InitiateMessage(edges, u1, u2);
      if message == OkMessage {
        edges := edges + [Edge(u1, u2, Pending)];
      }
      response := InitiateResponse(message);
    }

    /** `respond_to_friend_request`: an unknown status is refused before the store is
        read; BLOCKED replaces every relationship from initiator to recipient when both
        users exist; ACCEPTED and DECLINED retype the PENDING relationship from initiator
        to recipient. No row means 404. */
    method RespondToFriendRequest(friendship: Friendship) returns (response: Response)
      requires Valid()
      modifies this
      ensures Valid()
      ensures Snapshot() == Respond(old(Snapshot()), friendship.initiatorId, friendship.recipientId, friendship.status).store
      ensures response == Respond(old(Snapshot()), friendship.initiatorId, friendship.recipientId, friendship.status).response
    {
      var u1, u2 := friendship.initiatorId, friendship.recipientId;
      var parsed := ParseStatus(friendship.status);
      if parsed.None? {
        return Response(400, Text(InvalidStatus));
      }
      Properties.RespondPreserves(Snapshot(), u1, u2, friendship.status);
      var kind := parsed.value;
      var rows: nat;
      if kind == Blocked {
        if u1 in users && u2 in users {
          rows := Max(1, Linking(edges, u1, u2));
          edges := Unlink(edges, u1, u2) + Copies(Edge(u1, u2, Blocked), rows);
        } else {
          rows := 0;
        }
      } else {
        rows := multiset(edges)[Edge(u1, u2, Pending)];
        edges := Retype(edges, u1, u2, kind);
      }
      response := RespondResponse(kind, rows);
    }

    /** `get_friendships_by_user_id`: one id per ACCEPTED relationship touching the user,
        collected row by row; 404 when there is none. */
    method GetFriendships(userId: UserId) returns (response: Response)
      ensures response == ListFriends(Snapshot(), userId)
      ensures response.code == 404 <==> forall x :: !Friends(edges, userId, x)
      ensures (exists x :: Friends(edges, userId, x)) ==> response.code == 200
      ensures response.code == 200 ==> forall x :: x in response.body.ids <==> Friends(edges, userId, x)
    {
      var ids: seq<UserId> := [];
      var i := 0;
      while i < |edges|
        invariant 0 <= i <= |edges|
        invariant ids == FriendRows(edges[..i], userId)
      {
        assert edges[..i + 1][..i] == edges[..i];
        match MatchRow(edges[i], userId) {
          case Some(id) => ids := ids + [id];
          case None =>
        }
        i := i + 1;
      }
      assert edges[..i] == edges;
      Properties.ListFriendsSpec(Snapshot(), userId);
      response := FriendsResponse(ids);
    }
  }
}
