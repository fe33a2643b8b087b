/** The Socket.IO session engine: one function per event handler, each an
    atomic step from one server state to the next, together with the
    messages it emits. */
module SocketHandler {
  import opened Base
  import opened GameRoom
  import opened Users
  import opened LiveState
  import opened Presence
  import opened Shuffle

  /** The `user` object a client sends with its events. */
  datatype ClientUser = ClientUser(id: UserId, username: string)

  /** The game-event notices shown in the chat column; the handler renders
      them as Spanish sentences around these fields. */
  datatype Notice = IdeaAdded(text: string, author: string) | LineSung(username: string) | BingoWon(username: string)

  datatype Body =
    | UpdatePlayerList(players: seq<UserId>)
    | RoomStateUpdated(room: Room)
    | RejoinState(myCard: seq<CardEntry>, controlPanelEvents: seq<Event>, markedEvents: seq<Event>, gameState: Live)
    | NewGameEventMessage(notice: Notice)
    | GameStarted(controlPanelEvents: seq<Event>, initialStats: Live)
    | YourCard(card: seq<CardEntry>)
    | EventWasMarked(eventText: string, author: string)
    | StatsUpdated(gameState: Live)
    | PlayerGotLine(user: ClientUser)
    | GameOver(winner: ClientUser)
    | NewChatMessage(message: string, user: ClientUser)

  /** `io.to(roomCode).emit(...)` or an emit to one connection. */
  datatype Msg = ToRoom(code: string, body: Body) | ToSocket(socket: SocketId, body: Body)

  /** The room and user collections, `liveGameStates` and `userSocketMap`. */
  datatype Server = Server(rooms: RoomTable, users: UserTable, live: map<string, Live>, sockets: Directory)

  datatype Step = Step(server: Server, out: seq<Msg>)

  /** The private snapshot a (re)joining player gets: only in an active
      room that has a live state and a stored card for that player. */
  function Rejoin(s: Server, code: string, userId: UserId): Option<Body> {
    if code in s.rooms && s.rooms[code].status == Active && code in s.live then
      match FindCard(s.rooms[code].playerCards, userId)
      case Some(card) => Some(RejoinState(card, s.rooms[code].eventList, s.rooms[code].markedEvents, s.live[code]))
      case None => None
    else None
  }

  /** `joinRoom`: registers the socket for the user, refreshes the room's
      player list and state, and replays the game to a returning player.
      It never changes a room. */
  function JoinRoom(s: Server, socket: SocketId, code: string, userId: UserId): (r: Step)
    ensures r.server == s.(sockets := Register(s.sockets, userId, socket))
    ensures code !in s.rooms ==> r.out == []
    ensures code in s.rooms ==>
      && |r.out| == 2 + (if s.rooms[code].status == Active && code in s.live
                             && FindCard(s.rooms[code].playerCards, userId).Some? then 1 else 0)
      && r.out[0] == ToRoom(code, UpdatePlayerList(s.rooms[code].players))
      && r.out[1] == ToRoom(code, RoomStateUpdated(s.rooms[code]))
    ensures (exists m :: m in r.out && m.ToSocket?) <==>
      && code in s.rooms && s.rooms[code].status == Active && code in s.live
      && FindCard(s.rooms[code].playerCards, userId).Some?
    ensures forall m :: m in r.out && m.ToSocket? ==>
      m == ToSocket(socket, RejoinState(FindCard(s.rooms[code].playerCards, userId).value,
                                        s.rooms[code].eventList, s.rooms[code].markedEvents, s.live[code]))
  {
    var s' := s.(sockets := Register(s.sockets, userId, socket));
    if code !in s.rooms then Step(s', [])
    else
      var room := s.rooms[code];
      var refresh := [ToRoom(code, UpdatePlayerList(room.players)), ToRoom(code, RoomStateUpdated(room))];
      match Rejoin(s, code, userId)
      case Some(snapshot) =>
        var out := refresh + [ToSocket(socket, snapshot)];
        assert out[2] == ToSocket(socket, snapshot);
        Step(s', out)
      case None => Step(s', refresh)
  }

  /** `addEventIdea`: appends `{text, author}` to the pool of a waiting room. */
  function AddEventIdea(s: Server, code: string, text: string, author: string): (r: Step)
    ensures !(code in s.rooms && s.rooms[code].status == Waiting) ==> r == Step(s, [])
    ensures code in s.rooms && s.rooms[code].status == Waiting ==>
      code in r.server.rooms &&
      var room := r.server.rooms[code];
      && r.server == s.(rooms := s.rooms[code := room])
      && room == s.rooms[code].(eventList := room.eventList)
      && room.eventList == s.rooms[code].eventList + [Event(text, author)]
      && r.out == [ToRoom(code, RoomStateUpdated(room)), ToRoom(code, NewGameEventMessage(IdeaAdded(text, author)))]
  {
    if code in s.rooms && s.rooms[code].status == Waiting then
      var room := s.rooms[code].(eventList := s.rooms[code].eventList + [Event(text, author)]);
      Step(s.(rooms := s.rooms[code := room]),
           [ToRoom(code, RoomStateUpdated(room)), ToRoom(code, NewGameEventMessage(IdeaAdded(text, author)))])
    else Step(s, [])
  }

  /** One draw sequence per player of the room, each enough for one
      shuffle of its pool. */
  predicate DrawsFor(rooms: RoomTable, code: string, draws: seq<seq<nat>>) {
    code in rooms ==>
      && |draws| >= |rooms[code].players|
      && forall p :: 0 <= p < |draws| ==> ValidDraws(draws[p], |rooms[code].eventList|)
  }

  /** The stat line of every player at the start: the free cell counts. */
  function InitialStats(players: seq<UserId>, users: UserTable): seq<PlayerStat> {
    seq(|players|, i requires 0 <= i < |players| => PlayerStat(players[i], UsernameOf(users, players[i]), 1, false, false))
  }

  /** `room.players.forEach(...)`: one freshly shuffled card per player. */
  function DealAll(players: seq<UserId>, pool: seq<Event>, draws: seq<seq<nat>>): (cards: seq<PlayerCard>)
    requires |draws| >= |players|
    requires forall p :: 0 <= p < |draws| ==> ValidDraws(draws[p], |pool|)
    ensures |cards| == |players|
    ensures forall i :: 0 <= i < |players| ==> cards[i] == PlayerCard(players[i], DealCard(pool, draws[i]))
  {
    if |players| == 0 then []
    else [PlayerCard(players[0], DealCard(pool, draws[0]))] + DealAll(players[1..], pool, draws[1..])
  }

  /** How many of the cards belong to a player with a registered socket. */
  function Connected(cards: seq<PlayerCard>, sockets: Directory): nat {
    if |cards| == 0 then 0
    else (if Lookup(sockets, cards[0].userId).Some? then 1 else 0) + Connected(cards[1..], sockets)
  }

  /** The private `yourCard` messages: one per player with a registered
      socket; players without one are skipped. */
  function CardMessages(cards: seq<PlayerCard>, sockets: Directory): (out: seq<Msg>)
    ensures forall m :: m in out ==>
      exists k :: 0 <= k < |cards| && Lookup(sockets, cards[k].userId).Some?
               && m == ToSocket(Lookup(sockets, cards[k].userId).value, YourCard(cards[k].card))
    ensures forall k :: 0 <= k < |cards| && Lookup(sockets, cards[k].userId).Some? ==>
      ToSocket(Lookup(sockets, cards[k].userId).value, YourCard(cards[k].card)) in out
    ensures |out| == Connected(cards, sockets) <= |cards|
    ensures (forall k :: 0 <= k < |cards| ==> Lookup(sockets, cards[k].userId).Some?) ==> |out| == |cards|
    ensures (forall k :: 0 <= k < |cards| ==> Lookup(sockets, cards[k].userId).None?) ==> out == []
  {
    if |cards| == 0 then []
    else
      var rest := CardMessages(cards[1..], sockets);
      assert forall k :: 1 <= k < |cards| ==> cards[k] == cards[1..][k - 1];
      match Lookup(sockets, cards[0].userId)
      case Some(sock) => [ToSocket(sock, YourCard(cards[0].card))] + rest
      case None => rest
  }

  /** Whether `startGame` by `userId` goes ahead: only the host of a waiting
      room may start it. The pool size is not checked. */
  predicate CanStart(s: Server, code: string, userId: UserId) {
    code in s.rooms && s.rooms[code].host == userId && s.rooms[code].status == Waiting
  }

  /** `startGame`. */
  function StartGame(s: Server, code: string, userId: UserId, draws: seq<seq<nat>>): (r: Step)
    requires DrawsFor(s.rooms, code, draws)
    ensures !CanStart(s, code, userId) ==> r == Step(s, [])
    ensures CanStart(s, code, userId) ==>
      code in r.server.rooms && code in r.server.live &&
      var before := s.rooms[code];
      var after := r.server.rooms[code];
      var g := r.server.live[code];
      // the room: active, with fresh cards, nothing else changed
      && r.server == s.(rooms := s.rooms[code := after], live := s.live[code := g])
      && after == before.(status := Active, playerCards := after.playerCards)
      // the live state: an empty log and one untouched stat line per player
      && g.eventLog == []
      && |g.playerStats| == |before.players|
      && (forall i :: 0 <= i < |before.players| ==>
            g.playerStats[i] == PlayerStat(before.players[i], UsernameOf(s.users, before.players[i]), 1, false, false))
      // the cards: one per player, in player order, each dealt from the pool
      && |after.playerCards| == |before.players|
      && (forall i :: 0 <= i < |before.players| ==>
            && after.playerCards[i].userId == before.players[i]
            && after.playerCards[i].card == DealCard(before.eventList, draws[i])
            && DealtFrom(after.playerCards[i].card, before.eventList))
      // the messages: the private cards, then the announcement
      && |r.out| >= 1
      && r.out[|r.out| - 1] == ToRoom(code, GameStarted(before.eventList, g))
      && r.out[..|r.out| - 1] == CardMessages(after.playerCards, s.sockets)
  {
    if !CanStart(s, code, userId) then Step(s, [])
    else
      var room := s.rooms[code];
      var g := Live([], InitialStats(room.players, s.users));
      var cards := DealAll(room.players, room.eventList, draws);
      var started := room.(status := Active, playerCards := cards);
      var out := CardMessages(cards, s.sockets) + [ToRoom(code, GameStarted(room.eventList, g))];
      assert out[..|out| - 1] == CardMessages(cards, s.sockets);
      Step(s.(rooms := s.rooms[code := started], live := s.live[code := g]), out)
  }

  /** `markEvent`: records `{text, author}` in the room's marked set (in any
      status), logs the mark newest-first in the live state, and always
      broadcasts it. */
  function MarkEvent(s: Server, code: string, text: string, user: ClientUser, now: int): (r: Step)
    ensures r.server.users == s.users && r.server.sockets == s.sockets
    ensures r.server.rooms.Keys == s.rooms.Keys && r.server.live.Keys == s.live.Keys
    ensures forall c :: c in s.rooms && c != code ==> r.server.rooms[c] == s.rooms[c]
    ensures forall c :: c in s.live && c != code ==> r.server.live[c] == s.live[c]
    ensures code in s.rooms ==>
      var before := s.rooms[code];
      var after := r.server.rooms[code];
      && after == before.(markedEvents := after.markedEvents)
      && (forall e :: e in after.markedEvents <==> e in before.markedEvents || e == Event(text, user.username))
      && (Event(text, user.username) in before.markedEvents ==> after.markedEvents == before.markedEvents)
      && (NoDup(before.markedEvents) ==> NoDup(after.markedEvents))
    ensures code in s.live ==>
      var log := r.server.live[code].eventLog;
      && r.server.live[code].playerStats == s.live[code].playerStats
      && log == PushLog(s.live[code].eventLog, LogEntry(user.username, text, now))
      && 1 <= |log| <= |s.live[code].eventLog| + 1 && log[0] == LogEntry(user.username, text, now)
      && log[1..] == s.live[code].eventLog[..|log| - 1]
      && (|s.live[code].eventLog| <= LogCap ==> |log| <= LogCap)
    ensures r.out == [ToRoom(code, EventWasMarked(text, user.username))]
  {
    var e := Event(text, user.username);
    var rooms := if code in s.rooms then s.rooms[code := s.rooms[code].(markedEvents := AddToSet(s.rooms[code].markedEvents, e))] else s.rooms;
    var live := if code in s.live then
                  s.live[code := s.live[code].(eventLog := PushLog(s.live[code].eventLog, LogEntry(user.username, text, now)))]
                else s.live;
    Step(s.(rooms := rooms, live := live), [ToRoom(code, EventWasMarked(text, user.username))])
  }

  /** `updateMyCheckedCount`: overwrites the reported count of the player's
      stat line; nothing happens without a live state or a stat line. */
  function UpdateMyCheckedCount(s: Server, code: string, userId: UserId, count: int): (r: Step)
    ensures code !in s.live || FirstStat(s.live[code].playerStats, userId).None? ==> r == Step(s, [])
    ensures code in s.live && FirstStat(s.live[code].playerStats, userId).Some? ==>
      var stats := s.live[code].playerStats;
      var k := FirstStat(stats, userId).value;
      code in r.server.live &&
      var g := r.server.live[code];
      && r.server == s.(live := s.live[code := g])
      && g.eventLog == s.live[code].eventLog
      && ChangedOnlyAt(stats, g.playerStats, k, stats[k].(checkedCount := count))
      && r.out == [ToRoom(code, StatsUpdated(g))]
  {
    if code in s.live && FirstStat(s.live[code].playerStats, userId).Some? then
      var g := s.live[code].(playerStats := SetCheckedCount(s.live[code].playerStats, userId, count));
      Step(s.(live := s.live[code := g]), [ToRoom(code, StatsUpdated(g))])
    else Step(s, [])
  }

  /** `iGotLine`: trusts the claim, sets the claimant's line flag when it
      has a stat line, and announces the line in every case. */
  function IGotLine(s: Server, code: string, user: ClientUser): (r: Step)
    ensures code !in s.live ==> r.server == s
    ensures code in s.live ==>
      var stats := s.live[code].playerStats;
      code in r.server.live &&
      var g := r.server.live[code];
      && r.server == s.(live := s.live[code := g])
      && g.eventLog == s.live[code].eventLog
      && (FirstStat(stats, user.id).None? ==> g.playerStats == stats)
      && (FirstStat(stats, user.id).Some? ==>
            var k := FirstStat(stats, user.id).value;
            ChangedOnlyAt(stats, g.playerStats, k, stats[k].(hasLine := true)))
    ensures var tail := [ToRoom(code, PlayerGotLine(user)), ToRoom(code, NewGameEventMessage(LineSung(user.username)))];
      && (code !in s.live ==> r.out == tail)
      && (code in s.live ==> r.out == [ToRoom(code, StatsUpdated(r.server.live[code]))] + tail)
  {
    var tail := [ToRoom(code, PlayerGotLine(user)), ToRoom(code, NewGameEventMessage(LineSung(user.username)))];
    if code in s.live then
      var g := s.live[code].(playerStats := SetHasLine(s.live[code].playerStats, user.id));
      Step(s.(live := s.live[code := g]), [ToRoom(code, StatsUpdated(g))] + tail)
    else Step(s, tail)
  }

  /** `iGotBingo`: trusts the claim unless the room is already finished;
      finishes the room with the claimant as winner and counts the result. */
  function IGotBingo(s: Server, code: string, user: ClientUser): (r: Step)
    ensures !(code in s.rooms && s.rooms[code].status != Finished) ==> r == Step(s, [])
    ensures code in s.rooms && s.rooms[code].status != Finished ==>
      var before := s.rooms[code];
      && r.server.rooms == s.rooms[code := before.(status := Finished, winner := Some(user.id))]
      && r.server.live == s.live && r.server.sockets == s.sockets
      && r.server.users == RecordResult(s.users, user.id, before.players)
      && r.server.users.Keys == s.users.Keys
      && (forall u :: u in s.users ==>
            && r.server.users[u].wins == s.users[u].wins + (if u == user.id then 1 else 0)
            && r.server.users[u].gamesPlayed == s.users[u].gamesPlayed + (if u in before.players then 1 else 0))
      && r.out == [ToRoom(code, NewGameEventMessage(BingoWon(user.username))), ToRoom(code, GameOver(user))]
  {
    if code in s.rooms && s.rooms[code].status != Finished then
      var room := s.rooms[code];
      Step(s.(rooms := s.rooms[code := room.(status := Finished, winner := Some(user.id))],
              users := RecordResult(s.users, user.id, room.players)),
           [ToRoom(code, NewGameEventMessage(BingoWon(user.username))), ToRoom(code, GameOver(user))])
    else Step(s, [])
  }

  /** The deletion the bingo handler schedules 15 seconds later, as a step
      of its own: the room document and its live state go. */
  function ExpireRoom(s: Server, code: string): (r: Step)
    ensures code !in r.server.rooms && code !in r.server.live
    ensures r.server.rooms.Keys == s.rooms.Keys - {code} && r.server.live.Keys == s.live.Keys - {code}
    ensures forall c :: c in r.server.rooms ==> r.server.rooms[c] == s.rooms[c]
    ensures forall c :: c in r.server.live ==> r.server.live[c] == s.live[c]
    ensures r.server.users == s.users && r.server.sockets == s.sockets && r.out == []
  {
    Step(s.(rooms := s.rooms - {code}, live := s.live - {code}), [])
  }

  /** `sendChatMessage`: a relay that changes nothing. */
  function SendChatMessage(s: Server, code: string, message: string, user: ClientUser): (r: Step)
    ensures r.server == s
    ensures r.out == [ToRoom(code, NewChatMessage(message, user))]
  {
    Step(s, [ToRoom(code, NewChatMessage(message, user))])
  }

  /** `disconnect`: forgets the first user bound to this socket. */
  function Disconnect(s: Server, socket: SocketId): (r: Step)
    ensures r.server == s.(sockets := r.server.sockets) && r.out == []
    ensures FirstWithSocket(s.sockets, socket).None? ==> r.server.sockets == s.sockets
    ensures FirstWithSocket(s.sockets, socket).Some? ==>
      var k := FirstWithSocket(s.sockets, socket).value;
      r.server.sockets == s.sockets[..k] + s.sockets[k + 1..]
  {
    Step(s.(sockets := Presence.Disconnect(s.sockets, socket)), [])
  }

  /** Repeating a mark leaves the room's marked set as the first mark left it. */
  lemma MarkEventIdempotentOnRoom(s: Server, code: string, text: string, user: ClientUser, t1: int, t2: int)
    ensures var once := MarkEvent(s, code, text, user, t1).server;
      MarkEvent(once, code, text, user, t2).server.rooms == once.rooms
  {
    var once := MarkEvent(s, code, text, user, t1).server;
    if code in s.rooms {
      assert Event(text, user.username) in once.rooms[code].markedEvents;
      assert MarkEvent(once, code, text, user, t2).server.rooms[code] == once.rooms[code];
    }
  }

  /** A repeated line claim leaves the live state as the first claim left it. */
  lemma IGotLineIdempotent(s: Server, code: string, user: ClientUser)
    ensures var once := IGotLine(s, code, user).server;
      IGotLine(once, code, user).server == once
  {
    if code in s.live {
      SetHasLineIdempotent(s.live[code].playerStats, user.id);
    }
  }

  /** Once a bingo is accepted, every later claim, by anyone, is ignored:
      the winner and the counters stay as the first claim set them. */
  lemma SecondBingoIgnored(s: Server, code: string, first: ClientUser, second: ClientUser)
    requires code in s.rooms && s.rooms[code].status != Finished
    ensures var once := IGotBingo(s, code, first).server;
      && once.rooms[code].winner == Some(first.id)
      && IGotBingo(once, code, second) == Step(once, [])
  {
  }

  /** The engine does not enforce the 24-idea minimum: a host can start a
      waiting room with a pool of 23, and every card is then 23 entries. */
  lemma StartGameAcceptsShortPool(s: Server, code: string, draws: seq<seq<nat>>)
    requires code in s.rooms && s.rooms[code].status == Waiting
    requires |s.rooms[code].eventList| == 23
    requires DrawsFor(s.rooms, code, draws)
    ensures var r := StartGame(s, code, s.rooms[code].host, draws);
      && r.server.rooms[code].status == Active
      && forall i :: 0 <= i < |r.server.rooms[code].playerCards| ==> |r.server.rooms[code].playerCards[i].card| == 23
  {
  }
}
