/** The whole back end as one state machine: every HTTP route and every
    socket event is a command, and a command applied to the server state
    gives the next state. Each handler runs to completion before the next
    starts, so the properties here hold across any interleaving of clients. */
module Engine {
  import opened Base
  import opened GameRoom
  import opened Users
  import opened LiveState
  import opened Presence
  import RoomController
  import FriendsController
  import SH = SocketHandler

  /** The HTTP routes that change state. */
  datatype Request =
    | CreateRoom(code: string, user: UserId)
    | JoinRoom(key: Option<string>, user: UserId)
    | LeaveRoom(code: string, user: UserId)
    | DeleteRoom(code: string, user: UserId)
    | SendFriendRequest(me: UserId, other: UserId)
    | AcceptFriendRequest(me: UserId, other: UserId)
    | RejectFriendRequest(me: UserId, other: UserId)

  /** The socket events, plus the expiry timer a bingo sets off. */
  datatype SocketEvent =
    | Connect(socket: SocketId, code: string, user: UserId)
    | AddEventIdea(code: string, text: string, author: string)
    | StartGame(code: string, user: UserId, draws: seq<seq<nat>>)
    | MarkEvent(code: string, text: string, client: SH.ClientUser, now: int)
    | UpdateMyCheckedCount(code: string, user: UserId, count: int)
    | IGotLine(code: string, client: SH.ClientUser)
    | IGotBingo(code: string, client: SH.ClientUser)
    | ExpireRoom(code: string)
    | SendChatMessage(code: string, message: string, client: SH.ClientUser)
    | Disconnect(socket: SocketId)

  datatype Command = Http(request: Request) | Socket(event: SocketEvent)

  /** The random oracle of a start supplies a valid draw sequence per player. */
  predicate Allowed(s: SH.Server, c: Command) {
    c.Socket? && c.event.StartGame? ==> SH.DrawsFor(s.rooms, c.event.code, c.event.draws)
  }

  function HttpNext(s: SH.Server, r: Request): SH.Server {
    match r
    case CreateRoom(code, user) => s.(rooms := RoomController.CreateRoom(s.rooms, code, user).rooms)
    case JoinRoom(key, user) => s.(rooms := RoomController.JoinRoom(s.rooms, key, user).rooms)
    case LeaveRoom(code, user) => s.(rooms := RoomController.LeaveRoom(s.rooms, code, user).rooms)
    case DeleteRoom(code, user) => s.(rooms := RoomController.DeleteRoom(s.rooms, code, user).rooms)
    case SendFriendRequest(me, other) => s.(users := FriendsController.SendFriendRequest(s.users, me, other))
    case AcceptFriendRequest(me, other) => s.(users := FriendsController.AcceptFriendRequest(s.users, me, other))
    case RejectFriendRequest(me, other) => s.(users := FriendsController.RejectFriendRequest(s.users, me, other))
  }

  function SocketNext(s: SH.Server, e: SocketEvent): SH.Server
    requires e.StartGame? ==> SH.DrawsFor(s.rooms, e.code, e.draws)
  {
    match e
    case Connect(socket, code, user) => SH.JoinRoom(s, socket, code, user).server
    case AddEventIdea(code, text, author) => SH.AddEventIdea(s, code, text, author).server
    case StartGame(code, user, draws) => SH.StartGame(s, code, user, draws).server
    case MarkEvent(code, text, client, now) => SH.MarkEvent(s, code, text, client, now).server
    case UpdateMyCheckedCount(code, user, count) => SH.UpdateMyCheckedCount(s, code, user, count).server
    case IGotLine(code, client) => SH.IGotLine(s, code, client).server
    case IGotBingo(code, client) => SH.IGotBingo(s, code, client).server
    case ExpireRoom(code) => SH.ExpireRoom(s, code).server
    case SendChatMessage(code, message, client) => SH.SendChatMessage(s, code, message, client).server
    case Disconnect(socket) => SH.Disconnect(s, socket).server
  }

  /** The state after one handler has run to completion. */
  function Next(s: SH.Server, c: Command): SH.Server
    requires Allowed(s, c)
  {
    match c
    case Http(r) => HttpNext(s, r)
    case Socket(e) => SocketNext(s, e)
  }

  /** The invariant of the whole server between two handler steps. */
  predicate Wf(s: SH.Server) {
    && TableWf(s.rooms)
    && (forall c :: c in s.live ==> LiveWf(s.live[c]))
    && UniqueUsers(s.sockets)
    && FriendsController.FriendsSymmetric(s.users)
    && FriendsController.RequestsConsistent(s.users)
  }

  /** The server at (re)start: the stored room and user documents persist
      in the database, while the in-memory live states and the socket
      directory start empty. Any well-formed database gives a well-formed
      server, including one with active rooms that have no live state. */
  function Boot(rooms: RoomTable, users: UserTable): (s: SH.Server)
    requires TableWf(rooms)
    requires FriendsController.FriendsSymmetric(users) && FriendsController.RequestsConsistent(users)
    ensures Wf(s)
    ensures s.rooms == rooms && s.users == users && s.live == map[] && s.sockets == []
  {
    SH.Server(rooms, users, map[], [])
  }

  /** Changing one stored room keeps the invariant when the new room is
      well formed and nothing but the room table changed. */
  lemma StoreKeepsWf(s: SH.Server, code: string, room: Room)
    requires Wf(s) && RoomWf(room) && room.roomCode == code
    ensures Wf(s.(rooms := s.rooms[code := room]))
  {
    StoreKeepsTableWf(s.rooms, code, room);
  }

  lemma AddEventIdeaKeepsWf(s: SH.Server, code: string, text: string, author: string)
    requires Wf(s)
    ensures Wf(SH.AddEventIdea(s, code, text, author).server)
  {
    if code in s.rooms && s.rooms[code].status == Waiting {
      var room := s.rooms[code];
      assert RoomWf(room);
      StoreKeepsWf(s, code, room.(eventList := room.eventList + [Event(text, author)]));
    }
  }

  lemma StartGameKeepsWf(s: SH.Server, code: string, user: UserId, draws: seq<seq<nat>>)
    requires Wf(s) && SH.DrawsFor(s.rooms, code, draws)
    ensures Wf(SH.StartGame(s, code, user, draws).server)
  {
    if SH.CanStart(s, code, user) {
      var n := SH.StartGame(s, code, user, draws).server;
      var room := n.rooms[code];
      assert RoomWf(s.rooms[code]);
      assert RoomWf(room);
      StoreKeepsWf(s, code, room);
      var mid := s.(rooms := s.rooms[code := room]);
      assert LiveWf(n.live[code]);
      assert n == mid.(live := mid.live[code := n.live[code]]);
    }
  }

  lemma MarkEventKeepsWf(s: SH.Server, code: string, text: string, client: SH.ClientUser, now: int)
    requires Wf(s)
    ensures Wf(SH.MarkEvent(s, code, text, client, now).server)
  {
    var n := SH.MarkEvent(s, code, text, client, now).server;
    if code in s.rooms {
      assert RoomWf(s.rooms[code]);
      assert RoomWf(n.rooms[code]);
      StoreKeepsTableWf(s.rooms, code, n.rooms[code]);
    }
    if code in s.live {
      assert LiveWf(s.live[code]);
      assert LiveWf(n.live[code]);
    }
  }

  lemma StatHandlersKeepWf(s: SH.Server, code: string, client: SH.ClientUser, count: int)
    requires Wf(s)
    ensures Wf(SH.UpdateMyCheckedCount(s, code, client.id, count).server)
    ensures Wf(SH.IGotLine(s, code, client).server)
  {
    if code in s.live {
      assert LiveWf(s.live[code]);
    }
  }

  /** Counting a result touches no friend list. */
  lemma RecordResultKeepsFriends(users: UserTable, winner: UserId, players: seq<UserId>)
    requires FriendsController.FriendsSymmetric(users) && FriendsController.RequestsConsistent(users)
    ensures FriendsController.FriendsSymmetric(RecordResult(users, winner, players))
    ensures FriendsController.RequestsConsistent(RecordResult(users, winner, players))
  {
  }

  lemma IGotBingoKeepsWf(s: SH.Server, code: string, client: SH.ClientUser)
    requires Wf(s)
    ensures Wf(SH.IGotBingo(s, code, client).server)
  {
    if code in s.rooms && s.rooms[code].status != Finished {
      var n := SH.IGotBingo(s, code, client).server;
      assert RoomWf(s.rooms[code]);
      assert RoomWf(n.rooms[code]);
      StoreKeepsTableWf(s.rooms, code, n.rooms[code]);
      RecordResultKeepsFriends(s.users, client.id, s.rooms[code].players);
    }
  }

  lemma SocketNextKeepsWf(s: SH.Server, e: SocketEvent)
    requires Wf(s)
    requires e.StartGame? ==> SH.DrawsFor(s.rooms, e.code, e.draws)
    ensures Wf(SocketNext(s, e))
  {
    match e
    case Connect(socket, code, user) =>
    case AddEventIdea(code, text, author) => AddEventIdeaKeepsWf(s, code, text, author);
    case StartGame(code, user, draws) => StartGameKeepsWf(s, code, user, draws);
    case MarkEvent(code, text, client, now) => MarkEventKeepsWf(s, code, text, client, now);
    case UpdateMyCheckedCount(code, user, count) => StatHandlersKeepWf(s, code, SH.ClientUser(user, ""), count);
    case IGotLine(code, client) => StatHandlersKeepWf(s, code, client, 0);
    case IGotBingo(code, client) => IGotBingoKeepsWf(s, code, client);
    case ExpireRoom(code) =>
    case SendChatMessage(code, message, client) =>
    case Disconnect(socket) => DisconnectKeepsUnique(s.sockets, socket);
  }

  lemma HttpNextKeepsWf(s: SH.Server, r: Request)
    requires Wf(s)
    ensures Wf(HttpNext(s, r))
  {
    match r
    case CreateRoom(code, user) => RoomController.HandlersKeepTableWf(s.rooms, code, None, user);
    case JoinRoom(key, user) => RoomController.HandlersKeepTableWf(s.rooms, "", key, user);
    case LeaveRoom(code, user) => RoomController.HandlersKeepTableWf(s.rooms, code, None, user);
    case DeleteRoom(code, user) => RoomController.HandlersKeepTableWf(s.rooms, code, None, user);
    case SendFriendRequest(me, other) =>
      FriendsController.FriendHandlersKeepSymmetry(s.users, me, other);
      FriendsController.FriendHandlersKeepRequestsConsistent(s.users, me, other);
    case AcceptFriendRequest(me, other) =>
      FriendsController.FriendHandlersKeepSymmetry(s.users, me, other);
      FriendsController.FriendHandlersKeepRequestsConsistent(s.users, me, other);
    case RejectFriendRequest(me, other) =>
      FriendsController.FriendHandlersKeepSymmetry(s.users, me, other);
      FriendsController.FriendHandlersKeepRequestsConsistent(s.users, me, other);
  }

  /** Every handler keeps the invariant. */
  lemma NextKeepsWf(s: SH.Server, c: Command)
    requires Wf(s) && Allowed(s, c)
    ensures Wf(Next(s, c))
  {
    match c
    case Http(r) => HttpNextKeepsWf(s, r);
    case Socket(e) => SocketNextKeepsWf(s, e);
  }

  /** A room only moves forward: waiting, then active, then finished. */
  function Rank(st: Status): nat {
    match st
    case Waiting => 0
    case Active => 1
    case Finished => 2
  }

  /** How a stored room may change from one state to the next. */
  predicate RoomProgress(before: Room, after: Room) {
    && Rank(before.status) <= Rank(after.status)
    && (before.status == Finished ==> after.status == Finished && after.winner == before.winner)
    && (before.status != Waiting ==>
          after.playerCards == before.playerCards && after.eventList == before.eventList)
    && (forall e :: e in before.markedEvents ==> e in after.markedEvents)
  }

  lemma HttpNextProgress(s: SH.Server, r: Request, code: string)
    requires code in s.rooms && code in HttpNext(s, r).rooms
    ensures RoomProgress(s.rooms[code], HttpNext(s, r).rooms[code])
  {
  }

  lemma SocketNextProgress(s: SH.Server, e: SocketEvent, code: string)
    requires e.StartGame? ==> SH.DrawsFor(s.rooms, e.code, e.draws)
    requires code in s.rooms && code in SocketNext(s, e).rooms
    ensures RoomProgress(s.rooms[code], SocketNext(s, e).rooms[code])
  {
    match e
    case MarkEvent(c, text, client, now) => MarkEventProgress(s, c, text, client, now, code);
    case StartGame(c, user, draws) => StartGameProgress(s, c, user, draws, code);
    case IGotBingo(c, client) => IGotBingoProgress(s, c, client, code);
    case AddEventIdea(c, text, author) => AddEventIdeaProgress(s, c, text, author, code);
    case _ => assert SocketNext(s, e).rooms[code] == s.rooms[code];
  }

  lemma StartGameProgress(s: SH.Server, c: string, user: UserId, draws: seq<seq<nat>>, code: string)
    requires SH.DrawsFor(s.rooms, c, draws)
    requires code in s.rooms
    ensures code in SH.StartGame(s, c, user, draws).server.rooms
    ensures RoomProgress(s.rooms[code], SH.StartGame(s, c, user, draws).server.rooms[code])
  {
  }

  lemma IGotBingoProgress(s: SH.Server, c: string, client: SH.ClientUser, code: string)
    requires code in s.rooms
    ensures code in SH.IGotBingo(s, c, client).server.rooms
    ensures RoomProgress(s.rooms[code], SH.IGotBingo(s, c, client).server.rooms[code])
  {
  }

  lemma AddEventIdeaProgress(s: SH.Server, c: string, text: string, author: string, code: string)
    requires code in s.rooms
    ensures code in SH.AddEventIdea(s, c, text, author).server.rooms
    ensures RoomProgress(s.rooms[code], SH.AddEventIdea(s, c, text, author).server.rooms[code])
  {
  }

  lemma MarkEventProgress(s: SH.Server, c: string, text: string, client: SH.ClientUser, now: int, code: string)
    requires code in s.rooms
    ensures code in SH.MarkEvent(s, c, text, client, now).server.rooms
    ensures RoomProgress(s.rooms[code], SH.MarkEvent(s, c, text, client, now).server.rooms[code])
  {
    var after := SH.MarkEvent(s, c, text, client, now).server.rooms[code];
    assert forall m :: m in s.rooms[code].markedEvents ==> m in after.markedEvents;
  }

  /** What one step can do to a room that is stored before and after it:
      the status never goes back; a finished room keeps its winner; the
      pool and the dealt cards are frozen once the game has started, so a
      rejoining player always gets back the card first dealt; a marked
      event stays marked. */
  lemma NextRoomHistory(s: SH.Server, c: Command, code: string)
    requires Allowed(s, c)
    requires code in s.rooms && code in Next(s, c).rooms
    ensures var before := s.rooms[code];
      var after := Next(s, c).rooms[code];
      && Rank(before.status) <= Rank(after.status)
      && (before.status == Finished ==> after.status == Finished && after.winner == before.winner)
      && (before.status != Waiting ==>
            after.playerCards == before.playerCards && after.eventList == before.eventList)
      && (forall e :: e in before.markedEvents ==> e in after.markedEvents)
  {
    match c
    case Http(r) => HttpNextProgress(s, r, code);
    case Socket(e) => SocketNextProgress(s, e, code);
  }

  /** A sequence of commands each allowed in the state it meets. */
  predicate RunAllowed(s: SH.Server, cmds: seq<Command>)
    decreases |cmds|
  {
    |cmds| == 0 || (Allowed(s, cmds[0]) && RunAllowed(Next(s, cmds[0]), cmds[1..]))
  }

  function Run(s: SH.Server, cmds: seq<Command>): SH.Server
    requires RunAllowed(s, cmds)
    decreases |cmds|
  {
    if |cmds| == 0 then s else Run(Next(s, cmds[0]), cmds[1..])
  }

  /** Every state reachable from a well-formed one is well formed: no room
      is ever stored without players or with a host outside them, a winner
      exists exactly when a room is finished, every card is dealt from its
      room's pool, every log is at most 20 entries, no bingo flag is ever
      set, the socket directory holds each user once, and friendship stays
      mutual. */
  lemma {:induction false} RunKeepsWf(s: SH.Server, cmds: seq<Command>)
    requires Wf(s) && RunAllowed(s, cmds)
    ensures Wf(Run(s, cmds))
    decreases |cmds|
  {
    if |cmds| > 0 {
      NextKeepsWf(s, cmds[0]);
      RunKeepsWf(Next(s, cmds[0]), cmds[1..]);
    }
  }
}
