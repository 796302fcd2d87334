# Friendship service: the relationship state machine

This project models the core of a small friendship service, a Rust/actix web service
backed by a Neo4j graph database. Users are `User` nodes identified by an id string.
A directed relationship between two users has one of four types: `PENDING`,
`ACCEPTED`, `DECLINED` or `BLOCKED`. The service offers three operations, and each one
runs a single Cypher query:

- **initiate** (`POST /friendships/initiate`) creates both users if they are missing.
  It then checks an ordered chain of reasons to refuse. When none applies, it creates a
  `PENDING` relationship from the initiator to the recipient.
- **respond** (`PUT /friendships/respond`) reads a status case-insensitively.
  - `blocked` replaces every relationship from the initiator to the recipient with
    `BLOCKED` ones.
  - `accepted` and `declined` retype the `PENDING` relationship from the initiator to
    the recipient.
- **list friends** (`GET /friendships/{user_id}`) returns the users joined to the given
  user by an `ACCEPTED` relationship in either direction.

The database is modelled as a value `Graph.Store`. It holds a set of user ids and a
sequence of typed, directed edges. The edges form a sequence, not a set: two
relationships with the same ends and type are distinct in Neo4j, and each one yields its
own query row. Every query is one atomic step from one store value to the next, paired
with the HTTP response the handler builds (`Transitions`). The handlers themselves are
methods of the class `Handlers.FriendshipStore`. The class holds the users and edges as
fields that each method rewrites. Each method is proved equal to its step function, and
each method keeps the store invariant (`Graph.Invariant`). The invariant has four
parts:

- every relationship joins existing users;
- a user's only possible relationship with itself is `BLOCKED`;
- a pair of users has at most one `PENDING` relationship;
- a `PENDING` relationship never stands beside an `ACCEPTED` one between the same two
  users, in either direction.

The friend list is built by a loop over the store's relationships. The loop collects one
id per matching row, as the handler's `while let` loop does.

Modules:

- `Models` holds the request record and the status enum of `src/models/friendship.rs`.
  The enum is unused in the service, but it names the four relationship types, so the
  model uses it as the edge type.
- `Graph` holds the store value, the edge rewrites the queries perform, and their
  counting lemmas.
- `Decisions` holds the pure decision logic: the `CASE` chain, the status `match`, and
  the mapping from query results to HTTP responses.
- `Transitions` models one query per function, plus `Run`, which serves a sequence of
  requests.
- `Properties` holds the lemmas about single calls and about every store reachable from
  an empty database.
- `Handlers` holds the store class and the three handler methods.

## Where the code departs from the intended behaviour

The model follows the code. The intended behaviour is that a block always succeeds,
removes every relationship between the two users and leaves one `BLOCKED` relationship,
and that no relationship goes from a user to itself. The code differs as follows:

- Blocking deletes only the relationships from the initiator to the recipient. A
  friendship accepted in the other direction survives the block, so the blocker still
  lists the blocked user as a friend. `Properties.BlockKeepsReverseFriendship` exhibits
  this.
- Blocking creates one `BLOCKED` relationship per deleted relationship. Re-requesting
  after a decline leaves two relationships between the same users, so a later block
  leaves two `BLOCKED` relationships (`Properties.BlockAfterRerequest`).
- Blocking matches both users first. When either user has never been seen, the query
  yields no row, the answer is 404, and nothing changes.
- A refused initiate still creates both users. After a refused self-request, a user can
  block themselves, which creates a `BLOCKED` relationship from the user to itself
  (`Properties.SelfBlockReachable`). No `PENDING`, `ACCEPTED` or `DECLINED` self-edge is
  ever reachable (`Properties.RunPreserves`).
- `DECLINED` relationships are never checked by initiate, so a declined request can be
  sent again (`Decisions.DeclinedIgnored`).

## Model

| member | source | states |
|---|---|---|
| Decisions.Decide | src/neo4j.rs:30-40 | The rejection chosen is one whose condition holds, and no condition of lower rank holds. No rejection is chosen exactly when no condition holds. The order is self, you blocked, they blocked, you pending, they pending, already friends. |
| Decisions.InitiateMessage | src/neo4j.rs:31-40 | The message is "OK" exactly when no rejection condition holds. |
| Decisions.DeclinedIgnored | src/neo4j.rs:31-40 | Two stores that agree on every non-DECLINED relationship get the same initiate decision, so DECLINED relationships never cause a refusal. |
| Decisions.ParseStatus | src/neo4j.rs:83-88 | A parsed status is never PENDING, and its lowercase form is the keyword of the parsed status. When parsing fails, the lowercase form is none of "accepted", "declined", "blocked". |
| Decisions.ParseIgnoresCase | src/neo4j.rs:83 | A status parses the same way as its lowercase form. |
| Decisions.InitiateResponse | src/neo4j.rs:61-65 | The answer is 200 exactly when the message is "OK"; otherwise it is 400 carrying that message. |
| Decisions.RespondResponse | src/neo4j.rs:116-119 | The answer is 404 exactly when the query produced no row. |
| Decisions.FriendsResponse | src/neo4j.rs:157-161 | The answer is 404 "No friendships found" exactly when the collected list is empty; a non-empty list is answered 200 with that list as JSON. |
| Graph.Unlink | src/neo4j.rs:92-93 | The result is no longer than the input, and every relationship left is one of the input's that does not go from u1 to u2 (counts in Graph.UnlinkCounts). |
| Graph.Copies | src/neo4j.rs:94-95 | The result has the requested length and holds only the given relationship (counts in Graph.CopiesCounts). |
| Graph.Retype | src/neo4j.rs:99-102 | The length is unchanged, and every relationship of the result is an input one other than PENDING u1 to u2, or the new one of the target type (counts in Graph.RetypeCounts). |
| Graph.UnlinkCounts | src/neo4j.rs:92-93 | Deleting the matched relationships removes every relationship from u1 to u2 and keeps every other relationship with its multiplicity. The number removed is the number of matched rows. |
| Graph.UnlinkCount | src/neo4j.rs:92-93 | The same as UnlinkCounts, for one given relationship. |
| Graph.CopiesCounts | src/neo4j.rs:94-95 | One BLOCKED relationship is created per row and nothing else. |
| Graph.RetypeCounts | src/neo4j.rs:99-102 | Every PENDING relationship from u1 to u2 becomes one of the target type. All other relationships keep their multiplicity, and the length is unchanged. |
| Graph.RetypeCount | src/neo4j.rs:99-102 | The same as RetypeCounts, for one given relationship. |
| Graph.RetypeWithoutPending | src/neo4j.rs:99 | With no PENDING relationship from u1 to u2 the retype changes nothing. |
| Transitions.Initiate | src/neo4j.rs:26-65 | Both users are added; the relationships are unchanged or gain exactly one PENDING from initiator to recipient; the answer is 200 or 400 (the exact conditions in Properties.InitiateSpec). |
| Transitions.BlockRewrite | src/neo4j.rs:91-96 | The query yields no row exactly when a user is missing, and then changes nothing. Otherwise a BLOCKED relationship from u1 to u2 exists afterwards and every relationship from u1 to u2 is BLOCKED (counts in Properties.RespondBlock). |
| Transitions.Respond | src/neo4j.rs:83-119 | Users are unchanged; the answer is 200, 400 or 404, and any answer other than 200 leaves the store unchanged (per status in Properties.RespondInvalid, RespondAnswer, RespondBlock). |
| Transitions.FriendRows | src/neo4j.rs:136-140 | Every id the query returns is a friend of the user, one row at most per relationship (the converse in Properties.FriendRowsMembers). |
| Transitions.ListFriends | src/neo4j.rs:147-161 | The answer is 200 or 404; a 200 answer is a non-empty JSON list of the user's friends (completeness in Properties.ListFriendsSpec). |
| Properties.InitiateSpec | src/neo4j.rs:26-65 | Both users are always created. The answer is 200 exactly when the users differ and no PENDING, ACCEPTED or BLOCKED relationship joins them in either direction. On 200, exactly one PENDING relationship from initiator to recipient is added and the body is "Follow request sent". Otherwise relationships are unchanged and the answer is 400 with the first applicable message. |
| Properties.InitiateTwice | src/neo4j.rs:35-45 | After a successful request, repeating it is refused as "already sent" and changes nothing. Requesting in the reverse direction is refused as "they already sent" and adds no relationship. |
| Properties.RespondInvalid | src/neo4j.rs:83-88 | A status that is not one of the three keywords in any letter case gives 400 "Invalid friendship status", and the store is unchanged. |
| Properties.RespondAnswer | src/neo4j.rs:99-119 | Accepting or declining with a PENDING relationship from initiator to recipient answers 200 "Friendship accepted"/"Friendship declined". The PENDING relationship is gone and one of the target type stands in its place; every other relationship and the users are unchanged. Without such a relationship the answer is 404 and the store is unchanged. |
| Properties.RespondBlock | src/neo4j.rs:90-119 | When both users exist, the answer is 200 "Friendship blocked". Every relationship from initiator to recipient is replaced by max(1, their number) BLOCKED ones. Every other relationship, including those from recipient to initiator, is unchanged. When a user is missing, the answer is 404 and the store is unchanged. |
| Properties.FriendRowsMembers | src/neo4j.rs:136-140 | An id is in the query result exactly when an ACCEPTED relationship joins it to the user in either direction. |
| Properties.ListFriendsSpec | src/neo4j.rs:147-161 | The answer is 404 exactly when the user has no friend, and 200 whenever the user has one. A 200 answer carries a JSON list that contains exactly the user's friends. |
| Properties.AcceptMakesFriends | src/neo4j.rs:99-102 | After a pending request is accepted, each of the two users is in the other's friend list. |
| Properties.AcceptExactlyOnce | src/neo4j.rs:99-102 | On a store satisfying the invariant, accepting a PENDING request from a to b leaves exactly one ACCEPTED relationship from a to b, none from b to a, and no PENDING relationship in either direction. |
| Properties.InitiatePreserves | src/neo4j.rs:26-45 | An initiate keeps the store invariant. |
| Properties.RespondPreserves | src/neo4j.rs:90-103 | A respond keeps the store invariant. |
| Properties.BlockPreserves | src/neo4j.rs:91-96 | A block keeps the store invariant. |
| Properties.AnswerPreserves | src/neo4j.rs:99-102 | Accepting or declining keeps the store invariant; in particular an accepted pair keeps no PENDING relationship either way. |
| Properties.StepPreserves | src/neo4j.rs:15-168 | Any single request keeps the store invariant. |
| Properties.RunPreserves | src/neo4j.rs:15-168 | Every store reachable by any sequence of requests from an invariant store keeps the invariant: relationships join existing users, self-relationships are only BLOCKED, each pair has at most one PENDING relationship, and no PENDING relationship stands beside an ACCEPTED one between the same users. |
| Properties.NeverOwnFriend | src/neo4j.rs:32-44 | Starting from an empty database, no user is ever in their own friend list. |
| Properties.ReverseFriendshipSteps | src/neo4j.rs:91-102 | If b requests a and b's request is accepted, the store is [b→a ACCEPTED]. If a then blocks b, the store is [b→a ACCEPTED, a→b BLOCKED]. |
| Properties.BlockKeepsReverseFriendship | src/neo4j.rs:91-95 | After b's request to a is accepted and a blocks b, the store is [b→a ACCEPTED, a→b BLOCKED], and a's friend list is [b]. |
| Properties.RerequestSteps | src/neo4j.rs:31-102 | A declined request leaves [a→b DECLINED], and a new request then adds a→b PENDING beside it. Blocking turns both into BLOCKED. |
| Properties.BlockAfterRerequest | src/neo4j.rs:31-45 | Request, decline, request again, then block leaves two BLOCKED relationships from a to b. |
| Properties.SelfBlockReachable | src/neo4j.rs:27-28 | A refused self-request still creates the user, and a self-block then creates a BLOCKED relationship from the user to itself. |
| Handlers.FriendshipStore.SendFriendRequest | src/neo4j.rs:15-70 | The handler's new store and response are those of one initiate step, and the store invariant is kept. |
| Handlers.FriendshipStore.RespondToFriendRequest | src/neo4j.rs:72-127 | The handler's new store and response are those of one respond step, and the store invariant is kept. |
| Handlers.FriendshipStore.GetFriendships | src/neo4j.rs:129-168 | The loop collects the query's rows. The answer is 404 exactly when the user has no friend, and 200 whenever the user has one. A 200 answer lists exactly the user's friends. |

## Left out

- `create_connection` (src/neo4j.rs:7-13) and src/main.rs read environment variables,
  open the database connection and register the routes. These are I/O and plumbing.
- The 500 answers are not modelled: a failed query (src/neo4j.rs:68, 122-125, 163-166)
  and an initiate query that returns no row (src/neo4j.rs:67). These are failures of the
  database library, not of the service's rules.
- The `.unwrap()` calls (src/neo4j.rs:56, 59, 116, 153) panic on a driver error or a
  missing field. A panic aborts the handler and sends no response of the service's own;
  the model has no such outcome.
- Handlers.FriendshipStore.GetFriendships: a driver error while reading the row stream
  (src/neo4j.rs:151) ends the loop silently, so the handler answers 200 with the rows
  read so far, or 404 when there were none. A row whose `result` is not a node is skipped
  (src/neo4j.rs:152). The model's row stream never fails, so it has neither behaviour.
- JSON deserialization of the request body and the path parameter are not modelled. The
  handlers take the decoded `Friendship` record or id directly.
- The `datetime()` property of a new `PENDING` relationship depends on the clock and is
  not modelled.
- Concurrent requests are not modelled. Each query is taken as one atomic step, and
  transaction isolation between simultaneous queries is out of scope.
- The error logging (`eprintln!`) is I/O and is not modelled.
- Decisions.Lower: models only the case mappings that can make a status equal one of the
  three keywords. These are the ASCII capitals and the KELVIN SIGN (U+212A), whose
  lowercase is `k`. Any other character is left as it is. Its real lowercase form can
  never match a keyword, so the parse result is the same. The lowercase string itself
  is not modelled for other characters.
- Handlers.FriendshipStore.GetFriendships: the query's row stream and the handler's
  collecting loop are one loop over the stored relationships. Rows come in store order;
  Neo4j promises no order.
- A relationship from a user to itself would yield one row for the undirected friend
  pattern. Such an `ACCEPTED` relationship is never reachable, so this choice does not
  affect any property.
