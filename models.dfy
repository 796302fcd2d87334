/** The record and enum declared in src/models/friendship.rs, plus the Option type the
    rest of the model uses for "no value". */
module Models {

  datatype Option<+T> = None | Some(value: T)

  /** The four relationship types. The service never uses the enum itself; its queries
      spell the same four names as relationship types (PENDING, ACCEPTED, DECLINED,
      BLOCKED), so the model uses it as the type of an edge. */
  datatype FriendshipStatus = Pending | Accepted | Declined | Blocked

  /** The JSON body of the initiate and respond requests. `friendshipId` is never read. */
  datatype Friendship = Friendship(
    friendshipId: string,
    initiatorId: string,
    recipientId: string,
    status: string)
}
