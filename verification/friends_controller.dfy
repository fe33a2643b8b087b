/** The friend relation: three id lists per user, changed only by
    `$addToSet` and `$pull`, one document at a time. */
module FriendsController {
  import opened Base
  import opened Users

  /** The fields the friend handlers never touch. */
  predicate SameAccount(a: User, b: User) {
    a.username == b.username && a.gamesPlayed == b.gamesPlayed && a.wins == b.wins
  }

  /** Friendship is mutual among existing users. */
  predicate FriendsSymmetric(users: UserTable) {
    forall a, b :: a in users && b in users ==>
      (b in users[a].friends <==> a in users[b].friends)
  }

  /** Every pending request is recorded on both ends, among existing users. */
  predicate RequestsConsistent(users: UserTable) {
    forall a, b :: a in users && b in users ==>
      (b in users[a].sentFriendRequests <==> a in users[b].receivedFriendRequests)
  }

  function AddSent(users: UserTable, id: UserId, x: UserId): (r: UserTable)
    ensures r.Keys == users.Keys
    ensures forall u :: u in users && u != id ==> r[u] == users[u]
    ensures forall u :: u in users ==>
      && SameAccount(r[u], users[u])
      && r[u].friends == users[u].friends
      && r[u].receivedFriendRequests == users[u].receivedFriendRequests
    ensures forall u, y :: u in users ==>
      (y in r[u].sentFriendRequests <==> y in users[u].sentFriendRequests || (u == id && y == x))
  {
    if id in users then users[id := users[id].(sentFriendRequests := AddToSet(users[id].sentFriendRequests, x))]
    else users
  }

  function AddReceived(users: UserTable, id: UserId, x: UserId): (r: UserTable)
    ensures r.Keys == users.Keys
    ensures forall u :: u in users && u != id ==> r[u] == users[u]
    ensures forall u :: u in users ==>
      && SameAccount(r[u], users[u])
      && r[u].friends == users[u].friends
      && r[u].sentFriendRequests == users[u].sentFriendRequests
    ensures forall u, y :: u in users ==>
      (y in r[u].receivedFriendRequests <==> y in users[u].receivedFriendRequests || (u == id && y == x))
  {
    if id in users then users[id := users[id].(receivedFriendRequests := AddToSet(users[id].receivedFriendRequests, x))]
    else users
  }

  function AddFriend(users: UserTable, id: UserId, x: UserId): (r: UserTable)
    ensures r.Keys == users.Keys
    ensures forall u :: u in users && u != id ==> r[u] == users[u]
    ensures forall u :: u in users ==>
      && SameAccount(r[u], users[u])
      && r[u].sentFriendRequests == users[u].sentFriendRequests
      && r[u].receivedFriendRequests == users[u].receivedFriendRequests
    ensures forall u, y :: u in users ==>
      (y in r[u].friends <==> y in users[u].friends || (u == id && y == x))
  {
    if id in users then users[id := users[id].(friends := AddToSet(users[id].friends, x))]
    else users
  }

  function PullSent(users: UserTable, id: UserId, x: UserId): (r: UserTable)
    ensures r.Keys == users.Keys
    ensures forall u :: u in users && u != id ==> r[u] == users[u]
    ensures forall u :: u in users ==>
      && SameAccount(r[u], users[u])
      && r[u].friends == users[u].friends
      && r[u].receivedFriendRequests == users[u].receivedFriendRequests
    ensures forall u, y :: u in users ==>
      (y in r[u].sentFriendRequests <==> y in users[u].sentFriendRequests && !(u == id && y == x))
  {
    if id in users then users[id := users[id].(sentFriendRequests := Pull(users[id].sentFriendRequests, x))]
    else users
  }

  function PullReceived(users: UserTable, id: UserId, x: UserId): (r: UserTable)
    ensures r.Keys == users.Keys
    ensures forall u :: u in users && u != id ==> r[u] == users[u]
    ensures forall u :: u in users ==>
      && SameAccount(r[u], users[u])
      && r[u].friends == users[u].friends
      && r[u].sentFriendRequests == users[u].sentFriendRequests
    ensures forall u, y :: u in users ==>
      (y in r[u].receivedFriendRequests <==> y in users[u].receivedFriendRequests && !(u == id && y == x))
  {
    if id in users then users[id := users[id].(receivedFriendRequests := Pull(users[id].receivedFriendRequests, x))]
    else users
  }

  /** `POST /api/friends/request` by `me` to `recipient`. */
  function SendFriendRequest(users: UserTable, me: UserId, recipient: UserId): (r: UserTable)
    ensures r.Keys == users.Keys
    ensures forall u :: u in users ==> SameAccount(r[u], users[u]) && r[u].friends == users[u].friends
    ensures forall u, x :: u in users ==>
      (x in r[u].sentFriendRequests <==> x in users[u].sentFriendRequests || (u == me && x == recipient))
    ensures forall u, x :: u in users ==>
      (x in r[u].receivedFriendRequests <==> x in users[u].receivedFriendRequests || (u == recipient && x == me))
    ensures forall u :: u in users && u != me && u != recipient ==> r[u] == users[u]
    ensures me in users ==>
      r[me].sentFriendRequests == AddToSet(users[me].sentFriendRequests, recipient)
    ensures recipient in users ==>
      r[recipient].receivedFriendRequests == AddToSet(users[recipient].receivedFriendRequests, me)
  {
    AddReceived(AddSent(users, me, recipient), recipient, me)
  }

  /** `POST /api/friends/accept`: `me` accepts the request of `requester`.
      A pending request is not required. */
  function AcceptFriendRequest(users: UserTable, me: UserId, requester: UserId): (r: UserTable)
    ensures r.Keys == users.Keys
    ensures forall u :: u in users ==> SameAccount(r[u], users[u])
    ensures forall u, x :: u in users ==>
      (x in r[u].friends <==>
         x in users[u].friends || (u == me && x == requester) || (u == requester && x == me))
    ensures forall u, x :: u in users ==>
      (x in r[u].receivedFriendRequests <==>
         x in users[u].receivedFriendRequests && !(u == me && x == requester))
    ensures forall u, x :: u in users ==>
      (x in r[u].sentFriendRequests <==>
         x in users[u].sentFriendRequests && !(u == requester && x == me))
    ensures forall u :: u in users && u != me && u != requester ==> r[u] == users[u]
    ensures me in users ==> r[me].friends == AddToSet(users[me].friends, requester)
    ensures requester in users ==> r[requester].friends == AddToSet(users[requester].friends, me)
    ensures me in users ==>
      r[me].receivedFriendRequests == Pull(users[me].receivedFriendRequests, requester)
    ensures requester in users ==>
      r[requester].sentFriendRequests == Pull(users[requester].sentFriendRequests, me)
  {
    var befriended := AddFriend(AddFriend(users, me, requester), requester, me);
    PullSent(PullReceived(befriended, me, requester), requester, me)
  }

  /** `POST /api/friends/reject`: drops every pending request between `me`
      and `other`, in both directions. The "remove friend" button of the
      friends page posts here too. */
  function RejectFriendRequest(users: UserTable, me: UserId, other: UserId): (r: UserTable)
    ensures r.Keys == users.Keys
    ensures forall u :: u in users ==> SameAccount(r[u], users[u]) && r[u].friends == users[u].friends
    ensures forall u, x :: u in users ==>
      (x in r[u].receivedFriendRequests <==>
         x in users[u].receivedFriendRequests && !(u == me && x == other) && !(u == other && x == me))
    ensures forall u, x :: u in users ==>
      (x in r[u].sentFriendRequests <==>
         x in users[u].sentFriendRequests && !(u == me && x == other) && !(u == other && x == me))
    ensures forall u :: u in users && u != me && u != other ==> r[u] == users[u]
    ensures me in users ==>
      && r[me].receivedFriendRequests == Pull(users[me].receivedFriendRequests, other)
      && r[me].sentFriendRequests == Pull(users[me].sentFriendRequests, other)
    ensures other in users ==>
      && r[other].receivedFriendRequests == Pull(users[other].receivedFriendRequests, me)
      && r[other].sentFriendRequests == Pull(users[other].sentFriendRequests, me)
  {
    var mine := PullSent(PullReceived(users, me, other), me, other);
    PullSent(PullReceived(mine, other, me), other, me)
  }

  /** `GET /api/users/search`: a missing or empty query answers with an
      empty list; any other query becomes a case-insensitive regular
      expression search that excludes the caller. */
  datatype Search = EmptyAnswer | RegexSearch(pattern: string, excluding: UserId)

  function SearchUsers(query: Option<string>, me: UserId): (r: Search)
    ensures r.EmptyAnswer? <==> query.None? || query.value == ""
    ensures r.RegexSearch? ==> r.pattern == query.value && r.excluding == me
  {
    if query.None? || query.value == "" then EmptyAnswer else RegexSearch(query.value, me)
  }

  /** Sending the same request twice is the same as sending it once. */
  lemma SendFriendRequestIdempotent(users: UserTable, me: UserId, recipient: UserId)
    ensures SendFriendRequest(SendFriendRequest(users, me, recipient), me, recipient)
         == SendFriendRequest(users, me, recipient)
  {
  }

  /** After an accept, each of the two users (when both exist) lists the other as a friend,
      and the accepted request is gone from both ends. */
  lemma AcceptMakesFriends(users: UserTable, me: UserId, requester: UserId)
    requires me in users && requester in users
    ensures var r := AcceptFriendRequest(users, me, requester);
      && requester in r[me].friends && me in r[requester].friends
      && requester !in r[me].receivedFriendRequests && me !in r[requester].sentFriendRequests
  {
  }

  /** After a reject, no request is pending between the two users in
      either direction, and no friendship has ended. */
  lemma RejectClearsRequests(users: UserTable, me: UserId, other: UserId)
    requires me in users && other in users
    ensures var r := RejectFriendRequest(users, me, other);
      && other !in r[me].sentFriendRequests && other !in r[me].receivedFriendRequests
      && me !in r[other].sentFriendRequests && me !in r[other].receivedFriendRequests
      && r[me].friends == users[me].friends && r[other].friends == users[other].friends
  {
  }

  /** The three handlers keep friendship mutual. */
  lemma FriendHandlersKeepSymmetry(users: UserTable, a: UserId, b: UserId)
    requires FriendsSymmetric(users)
    ensures FriendsSymmetric(SendFriendRequest(users, a, b))
    ensures FriendsSymmetric(AcceptFriendRequest(users, a, b))
    ensures FriendsSymmetric(RejectFriendRequest(users, a, b))
  {
  }

  /** The three handlers keep both ends of every pending request in step. */
  lemma FriendHandlersKeepRequestsConsistent(users: UserTable, a: UserId, b: UserId)
    requires RequestsConsistent(users)
    ensures RequestsConsistent(SendFriendRequest(users, a, b))
    ensures RequestsConsistent(AcceptFriendRequest(users, a, b))
    ensures RequestsConsistent(RejectFriendRequest(users, a, b))
  {
  }
}
