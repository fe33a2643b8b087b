/** The parts of the User document the game and the friend relation touch:
    the name, the two counters, and the three id lists. The password and its
    hashing are not part of this model. */
module Users {
  import opened Base

  datatype User = User(
    username: string,
    gamesPlayed: int,
    wins: int,
    friends: seq<UserId>,
    sentFriendRequests: seq<UserId>,
    receivedFriendRequests: seq<UserId>)

  /** The users collection, indexed by document id. */
  type UserTable = map<UserId, User>

  /** The populated `username` of a player; a dangling reference has none. */
  function UsernameOf(users: UserTable, id: UserId): string {
    if id in users then users[id].username else ""
  }

  /** `$inc` of the result counters when a bingo is won: one win for the
      claimant and one game played for every player of the room. A missing
      document is skipped, as `findByIdAndUpdate` and `updateMany` skip it. */
  function RecordResult(users: UserTable, winner: UserId, players: seq<UserId>): (r: UserTable)
    ensures r.Keys == users.Keys
    ensures forall u :: u in users ==>
      && r[u].wins == users[u].wins + (if u == winner then 1 else 0)
      && r[u].gamesPlayed == users[u].gamesPlayed + (if u in players then 1 else 0)
      && r[u].username == users[u].username
      && r[u].friends == users[u].friends
      && r[u].sentFriendRequests == users[u].sentFriendRequests
      && r[u].receivedFriendRequests == users[u].receivedFriendRequests
  {
    map u | u in users ::
      users[u].(wins := users[u].wins + (if u == winner then 1 else 0),
                gamesPlayed := users[u].gamesPlayed + (if u in players then 1 else 0))
  }
}
