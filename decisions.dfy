/** The pure decision logic of src/neo4j.rs: the CASE chain of the initiate query, the
    parsing of the respond status, and the mapping of query results to HTTP responses. */
module Decisions {
  import opened Models
  import opened Graph

  /** The reasons the initiate query gives for not creating a request, in the order of
      its CASE branches. Both ACCEPTED branches give the same message, so they are one
      reason here. */
  datatype Rejection =
    | SelfRequest
    | YouBlocked
    | TheyBlocked
    | YouPending
    | TheyPending
    | AlreadyFriends

  /** Position of the reason in the CASE chain; a lower rank is tested first. */
  function Rank(r: Rejection): nat {
    match r
    case SelfRequest => 0
    case YouBlocked => 1
    case TheyBlocked => 2
    case YouPending => 3
    case TheyPending => 4
    case AlreadyFriends => 5
  }

  /** Does the condition of reason `r` hold for a request from `u1` to `u2`? */
  predicate Applies(r: Rejection, edges: seq<Edge>, u1: UserId, u2: UserId) {
    match r
    case SelfRequest => u1 == u2
    case YouBlocked => Edge(u1, u2, Blocked) in edges
    case TheyBlocked => Edge(u2, u1, Blocked) in edges
    case YouPending => Edge(u1, u2, Pending) in edges
    case TheyPending => Edge(u2, u1, Pending) in edges
    case AlreadyFriends => Edge(u1, u2, Accepted) in edges || Edge(u2, u1, Accepted) in edges
  }

  function Message(r: Rejection): string {
    match r
    case SelfRequest => "You cannot send a follow request to yourself"
    case YouBlocked => "You have blocked this user"
    case TheyBlocked => "This user has blocked you"
    case YouPending => "You have already sent a follow request to this user"
    case TheyPending => "This user has already sent you a follow request"
    case AlreadyFriends => "You are already friends with this user"
  }

  const OkMessage: string := "OK"

  /** The CASE chain: the first reason, in rank order, whose condition holds, or None
      when no condition holds. */
  function Decide(edges: seq<Edge>, u1: UserId, u2: UserId): (d: Option<Rejection>)
    ensures d.Some? ==> Applies(d.value, edges, u1, u2)
    ensures d.None? <==> forall r :: !Applies(r, edges, u1, u2)
    ensures d.Some? ==> forall r :: Rank(r) < Rank(d.value) ==> !Applies(r, edges, u1, u2)
  {
    var d :=
      if u1 == u2 then Some(SelfRequest)
      else if Edge(u1, u2, Blocked) in edges then Some(YouBlocked)
      else if Edge(u2, u1, Blocked) in edges then Some(TheyBlocked)
      else if Edge(u1, u2, Pending) in edges then Some(YouPending)
      else if Edge(u2, u1, Pending) in edges then Some(TheyPending)
      else if Edge(u1, u2, Accepted) in edges || Edge(u2, u1, Accepted) in edges then Some(AlreadyFriends)
      else None;
    assert d.Some? ==> Applies(d.value, edges, u1, u2);
    d
  }

  /** The `message` column the initiate query returns. */
  function InitiateMessage(edges: seq<Edge>, u1: UserId, u2: UserId): (m: string)
    ensures m == OkMessage <==> Decide(edges, u1, u2).None?
  {
    match Decide(edges, u1, u2)
    case None => OkMessage
    case Some(r) => Message(r)
  }

  /** DECLINED relationships never decide an initiate: two stores that agree on every
      relationship of another type give the same decision. */
  lemma DeclinedIgnored(a: seq<Edge>, b: seq<Edge>, u1: UserId, u2: UserId)
    requires forall e :: (e in a && e.kind != Declined) <==> (e in b && e.kind != Declined)
    ensures Decide(a, u1, u2) == Decide(b, u1, u2)
  {
  }

  /** `char::to_lowercase` restricted to what can make a string equal one of the three
      status keywords: ASCII capitals, and the KELVIN SIGN U+212A, whose lowercase is 'k'.
      Any other character is left unchanged; where its real lowercase form differs, that
      form cannot spell a keyword. */
  function Lower(c: char): char {
    if 'A' <= c <= 'Z' then (c as int + 32) as char
    else if c == '\U{212A}' then 'k'
    else c
  }

  function ToLowercase(s: string): string {
    seq(|s|, i requires 0 <= i < |s| => Lower(s[i]))
  }

  /** The lower-case keyword of a status, as the respond request spells it and as the
      success message repeats it. */
  function StatusName(k: FriendshipStatus): string {
    match k
    case Pending => "pending"
    case Accepted => "accepted"
    case Declined => "declined"
    case Blocked => "blocked"
  }

  /** The `match status.to_lowercase()` of the respond handler. */
  function ParseStatus(status: string): (k: Option<FriendshipStatus>)
    ensures k.Some? ==> k.value != Pending && ToLowercase(status) == StatusName(k.value)
    ensures k.None? ==> forall s | s != Pending :: ToLowercase(status) != StatusName(s)
  {
    var lowered := ToLowercase(status);
    if lowered == "accepted" then Some(Accepted)
    else if lowered == "declined" then Some(Declined)
    else if lowered == "blocked" then Some(Blocked)
    else None
  }

  /** Parsing is case-insensitive: a status parses as its own lower-case form does. */
  lemma ParseIgnoresCase(status: string)
    ensures ParseStatus(ToLowercase(status)) == ParseStatus(status)
  {
  }

  datatype Body = Text(text: string) | Json(ids: seq<UserId>)

  datatype Response = Response(code: nat, body: Body)

  const InvalidStatus: string := "Invalid friendship status"

  /** The initiate handler's reply to the query's message. */
  function InitiateResponse(message: string): (resp: Response)
    ensures resp.code == 200 <==> message == OkMessage
    ensures resp.code != 200 ==> resp == Response(400, Text(message))
  {
    if message == OkMessage then Response(200, Text("Follow request sent"))
    else Response(400, Text(message))
  }

  /** The respond handler's reply once the query has produced `rows` rows. */
  function RespondResponse(k: FriendshipStatus, rows: nat): (resp: Response)
    ensures resp.code == 404 <==> rows == 0
  {
    if rows == 0 then Response(404, Text("Friendship request not found"))
    else Response(200, Text("Friendship " + StatusName(k)))
  }

  /** The list handler's reply to the collected ids. */
  function FriendsResponse(ids: seq<UserId>): (resp: Response)
    ensures resp.code == 404 <==> ids == []
    ensures ids != [] ==> resp == Response(200, Json(ids))
  {
    if ids == [] then Response(404, Text("No friendships found"))
    else Response(200, Json(ids))
  }
}
