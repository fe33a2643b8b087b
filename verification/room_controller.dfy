/** The room lifecycle behind the HTTP routes: create, join, details,
    leave and delete, as transitions of the room table. */
module RoomController {
  import opened Base
  import opened GameRoom

  /** What a handler answers on success; failures carry their status code. */
  datatype Reply =
    | Created(room: Room)        // 201 with the new room
    | Found(room: Room)          // 200 with the room
    | LeftAndDeleted             // 200, the room was emptied and deleted
    | Left                       // 200
    | Deleted                    // 200
    | Failed(error: HttpError)
  {
    function Status(): int {
      match this
      case Created(_) => 201
      case Failed(e) => e.Code()
      case _ => 200
    }
  }

  datatype Outcome = Outcome(rooms: RoomTable, reply: Reply)

  /** `POST /api/rooms`. `code` is what the random generator produced. The
      required-field validator refuses an empty code and the unique index
      refuses a code in use; both end in the handler's 500 reply. */
  function CreateRoom(rooms: RoomTable, code: string, creator: UserId): (o: Outcome)
    ensures code == "" || code in rooms <==> o.reply == Failed(ServerError)
    ensures o.reply.Created? <==> code != "" && code !in rooms
    ensures o.reply.Failed? ==> o.rooms == rooms
    ensures o.reply.Created? ==>
      && o.rooms == rooms[code := o.reply.room]
      && o.reply.room.roomCode == code
      && o.reply.room.host == creator
      && o.reply.room.players == [creator]
      && o.reply.room.status == Waiting
      && o.reply.room.winner == None
      && o.reply.room.eventList == [] && o.reply.room.markedEvents == [] && o.reply.room.playerCards == []
      && RoomWf(o.reply.room)
    ensures o.reply.Created? || o.reply.Failed?
  {
    if code == "" || code in rooms then Outcome(rooms, Failed(ServerError))
    else
      var room := NewRoom(code, creator);
      Outcome(rooms[code := room], Created(room))
  }

  /** `POST /api/rooms/join`: the body's code is optional; it is
      upper-cased before the lookup; a player already in the room is not
      added twice. */
  function JoinRoom(rooms: RoomTable, code: Option<string>, user: UserId): (o: Outcome)
    ensures code.None? || code.value == "" ==> o == Outcome(rooms, Failed(BadRequest))
    ensures code.Some? && code.value != "" && ToUpper(code.value) !in rooms ==>
      o == Outcome(rooms, Failed(NotFound))
    ensures code.Some? && code.value != "" && ToUpper(code.value) in rooms ==> o.reply.Found?
    ensures o.reply.Found? ==>
      var key := ToUpper(code.value);
      && key in rooms
      && o.rooms == rooms[key := o.reply.room]
      && o.reply.room == rooms[key].(players := o.reply.room.players)
      && (user in rooms[key].players ==> o.reply.room.players == rooms[key].players)
      && (user !in rooms[key].players ==> o.reply.room.players == rooms[key].players + [user])
    ensures o.reply.Found? || o.reply.Failed?
  {
    if code.None? || code.value == "" then Outcome(rooms, Failed(BadRequest))
    else
      var key := ToUpper(code.value);
      if key !in rooms then Outcome(rooms, Failed(NotFound))
      else
        var room := rooms[key];
        var joined := if user in room.players then room else room.(players := room.players + [user]);
        Outcome(rooms[key := joined], Found(joined))
  }

  /** `GET /api/rooms/details/:code`: a read-only, upper-cased lookup. */
  function GetRoomDetails(rooms: RoomTable, code: string): (r: Reply)
    ensures r.Found? <==> ToUpper(code) in rooms
    ensures r.Found? ==> r.room == rooms[ToUpper(code)]
    ensures !r.Found? ==> r == Failed(NotFound)
  {
    var key := ToUpper(code);
    if key in rooms then Found(rooms[key]) else Failed(NotFound)
  }

  /** `POST /api/rooms/:id/leave`: pulls the user out of the room; an
      emptied room is deleted; a leaving host hands over to the first
      remaining player. */
  function LeaveRoom(rooms: RoomTable, code: string, user: UserId): (o: Outcome)
    ensures code !in rooms ==> o == Outcome(rooms, Failed(NotFound))
    ensures code in rooms ==>
      var room := rooms[code];
      var remaining := Pull(room.players, user);
      && (remaining == [] <==> o.reply == LeftAndDeleted)
      && (remaining == [] ==> o.rooms == rooms - {code})
      && (remaining != [] ==> o.reply == Left && code in o.rooms && o.rooms.Keys == rooms.Keys)
    ensures o.reply == Left ==>
      var before := rooms[code];
      var after := o.rooms[code];
      && after.players != [] && user !in after.players
      && (forall p :: p in after.players <==> p in before.players && p != user)
      && (before.host == user ==> after.host == after.players[0])
      && (before.host == user ==>
            exists k :: 0 <= k < |before.players| && before.players[k] == after.host && after.host != user
                      && forall j :: 0 <= j < k ==> before.players[j] == user)
      && (before.host != user ==> after.host == before.host)
      && (user !in before.players ==> after.players == before.players)
      && (NoDup(before.players) && user in before.players ==>
            exists k :: 0 <= k < |before.players| && before.players[k] == user
                      && after.players == before.players[..k] + before.players[k + 1..])
      && after == before.(players := after.players, host := after.host)
      && (forall c :: c in rooms && c != code ==> o.rooms[c] == rooms[c])
  {
    if code !in rooms then Outcome(rooms, Failed(NotFound))
    else
      var room := rooms[code];
      var remaining := Pull(room.players, user);
      if remaining == [] then Outcome(rooms - {code}, LeftAndDeleted)
      else
        PullOrder(room.players, user);
        var host := if room.host == user then remaining[0] else room.host;
        Outcome(rooms[code := room.(players := remaining, host := host)], Left)
  }

  /** The order facts about `$pull` that the host handover relies on. */
  lemma PullOrder(players: seq<UserId>, user: UserId)
    requires Pull(players, user) != []
    ensures exists k :: 0 <= k < |players| && players[k] == Pull(players, user)[0] && players[k] != user
                     && forall j :: 0 <= j < k ==> players[j] == user
    ensures NoDup(players) && user in players ==>
      exists k :: 0 <= k < |players| && players[k] == user && Pull(players, user) == players[..k] + players[k + 1..]
  {
    PullFirst(players, user);
    if NoDup(players) && user in players {
      PullRemovesOne(players, user);
    }
  }

  /** `DELETE /api/rooms/:id`: only the host may delete. */
  function DeleteRoom(rooms: RoomTable, code: string, user: UserId): (o: Outcome)
    ensures code !in rooms ==> o == Outcome(rooms, Failed(NotFound))
    ensures code in rooms && rooms[code].host != user ==> o == Outcome(rooms, Failed(Forbidden))
    ensures code in rooms && rooms[code].host == user ==> o == Outcome(rooms - {code}, Deleted)
  {
    if code !in rooms then Outcome(rooms, Failed(NotFound))
    else if rooms[code].host != user then Outcome(rooms, Failed(Forbidden))
    else Outcome(rooms - {code}, Deleted)
  }

  /** Joining twice is the same as joining once. */
  lemma JoinRoomIdempotent(rooms: RoomTable, code: Option<string>, user: UserId)
    ensures var once := JoinRoom(rooms, code, user);
      JoinRoom(once.rooms, code, user) == once
  {
  }

  /** A code typed in any letter case reaches the room stored under its
      upper-case form. */
  lemma JoinIgnoresLetterCase(rooms: RoomTable, code: string, user: UserId)
    requires code != ""
    ensures JoinRoom(rooms, Some(code), user) == JoinRoom(rooms, Some(ToUpper(code)), user)
  {
    ToUpperIdempotent(code);
  }

  /** The room page asks for the details right after joining: it sees the
      room the join stored, with the joining user among its players, and a
      non-empty code is found by the one exactly when it is found by the other. */
  lemma DetailsAfterJoin(rooms: RoomTable, code: string, user: UserId)
    ensures var o := JoinRoom(rooms, Some(code), user);
      && (o.reply.Found? ==> GetRoomDetails(o.rooms, code) == o.reply && user in o.reply.room.players)
      && (code != "" ==> (o.reply.Found? <==> GetRoomDetails(rooms, code).Found?))
  {
  }

  /** Details of a code in any letter case are those of its upper-case form. */
  lemma DetailsIgnoreLetterCase(rooms: RoomTable, code: string)
    ensures GetRoomDetails(rooms, code) == GetRoomDetails(rooms, ToUpper(code))
  {
    ToUpperIdempotent(code);
  }

  /** Every handler keeps the table keyed by code and every room well formed:
      in particular no stored room is ever left without players, and the
      host is always one of the players. */
  lemma HandlersKeepTableWf(rooms: RoomTable, code: string, key: Option<string>, user: UserId)
    requires TableWf(rooms)
    ensures TableWf(CreateRoom(rooms, code, user).rooms)
    ensures TableWf(JoinRoom(rooms, key, user).rooms)
    ensures TableWf(LeaveRoom(rooms, code, user).rooms)
    ensures TableWf(DeleteRoom(rooms, code, user).rooms)
  {
    JoinKeepsTableWf(rooms, key, user);
    LeaveKeepsTableWf(rooms, code, user);
  }

  lemma JoinKeepsTableWf(rooms: RoomTable, key: Option<string>, user: UserId)
    requires TableWf(rooms)
    ensures TableWf(JoinRoom(rooms, key, user).rooms)
  {
    if key.Some? && key.value != "" && ToUpper(key.value) in rooms {
      var k := ToUpper(key.value);
      var joined := JoinRoom(rooms, key, user).reply.room;
      assert RoomWf(rooms[k]);
      assert NoDup(joined.players);
      assert RoomWf(joined);
      StoreKeepsTableWf(rooms, k, joined);
    }
  }

  lemma LeaveKeepsTableWf(rooms: RoomTable, code: string, user: UserId)
    requires TableWf(rooms)
    ensures TableWf(LeaveRoom(rooms, code, user).rooms)
  {
    if code in rooms {
      var room := rooms[code];
      var remaining := Pull(room.players, user);
      if remaining != [] {
        var after := LeaveRoom(rooms, code, user).rooms[code];
        assert after.host in remaining;
        assert RoomWf(after);
        StoreKeepsTableWf(rooms, code, after);
      }
    }
  }
}
