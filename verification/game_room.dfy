/** The persisted room document (the GameRoom schema) and the well-formedness
    every room in the table keeps. */
module GameRoom {
  import opened Base

  /** The schema's status enum; a room can hold no other value. */
  datatype Status = Waiting | Active | Finished

  /** An idea in the pool, and an entry of the room's marked-event set. */
  datatype Event = Event(text: string, author: string)

  /** A card cell as persisted: the text only, the author is dropped. */
  datatype CardEntry = CardEntry(text: string)

  datatype PlayerCard = PlayerCard(userId: UserId, card: seq<CardEntry>)

  datatype Room = Room(
    roomCode: string,
    host: UserId,
    players: seq<UserId>,
    eventList: seq<Event>,
    status: Status,
    winner: Option<UserId>,
    playerCards: seq<PlayerCard>,
    markedEvents: seq<Event>)

  /** Number of pool entries a card takes (the 25th cell is the client's free cell). */
  const CardSize: nat := 24

  /** A freshly created document: the schema's defaults for every field the
      creator does not set. */
  function NewRoom(code: string, creator: UserId): Room {
    Room(code, creator, [creator], [], Waiting, None, [], [])
  }

  /** The room collection, indexed by the unique `roomCode`. */
  type RoomTable = map<string, Room>

  /** The unique index: the key a room is stored under is its own code. */
  predicate KeyedByCode(t: RoomTable) {
    forall c :: c in t ==> t[c].roomCode == c
  }

  /** `events.map(e => ({ text: e.text }))`. */
  function ToCard(events: seq<Event>): (r: seq<CardEntry>)
    ensures |r| == |events|
    ensures forall i :: 0 <= i < |events| ==> r[i] == CardEntry(events[i].text)
  {
    seq(|events|, i requires 0 <= i < |events| => CardEntry(events[i].text))
  }

  /** A card dealt from `pool`: as many entries as the pool allows up to
      24, each pool entry used at most once. */
  predicate DealtFrom(card: seq<CardEntry>, pool: seq<Event>) {
    |card| == Min(CardSize, |pool|) && multiset(card) <= multiset(ToCard(pool))
  }

  /** What every stored room satisfies between two handler steps. */
  predicate RoomWf(r: Room) {
    && |r.players| > 0
    && NoDup(r.players)
    && r.host in r.players
    && (r.status == Waiting ==> r.playerCards == [])
    && (r.winner.Some? <==> r.status == Finished)
    && forall k :: 0 <= k < |r.playerCards| ==> DealtFrom(r.playerCards[k].card, r.eventList)
  }

  predicate TableWf(t: RoomTable) {
    KeyedByCode(t) && forall c :: c in t ==> RoomWf(t[c])
  }

  /** `player_cards.find(pc => pc.userId === u)`: the first card stored for `u`. */
  function FindCard(cards: seq<PlayerCard>, u: UserId): (r: Option<seq<CardEntry>>)
    ensures r.None? <==> forall k :: 0 <= k < |cards| ==> cards[k].userId != u
    ensures r.Some? ==>
      exists k :: 0 <= k < |cards| && cards[k].userId == u && cards[k].card == r.value
               && forall j :: 0 <= j < k ==> cards[j].userId != u
  {
    if |cards| == 0 then None
    else if cards[0].userId == u then Some(cards[0].card)
    else
      var r := FindCard(cards[1..], u);
      assert r.Some? ==> exists k :: 1 <= k < |cards| && cards[k].userId == u && cards[k].card == r.value
                                  && forall j :: 0 <= j < k ==> cards[j].userId != u by {
        if r.Some? {
          var k :| 0 <= k < |cards| - 1 && cards[1..][k].userId == u && cards[1..][k].card == r.value
                   && forall j :: 0 <= j < k ==> cards[1..][j].userId != u;
          assert cards[k + 1].userId == u && cards[k + 1].card == r.value;
          assert forall j :: 0 <= j < k + 1 ==> cards[j].userId != u by {
            forall j | 0 <= j < k + 1 ensures cards[j].userId != u {
              if j > 0 { assert cards[j] == cards[1..][j - 1]; }
            }
          }
        }
      }
      assert r.None? ==> forall k :: 0 <= k < |cards| ==> cards[k].userId != u by {
        if r.None? {
          forall k | 0 <= k < |cards| ensures cards[k].userId != u {
            if k > 0 { assert cards[k] == cards[1..][k - 1]; }
          }
        }
      }
      r
  }

  /** The schema's defaults satisfy the room invariant. */
  lemma NewRoomWf(code: string, creator: UserId)
    ensures RoomWf(NewRoom(code, creator))
    ensures NewRoom(code, creator).status == Waiting && NewRoom(code, creator).winner == None
  {
  }

  /** Storing a well-formed room under its own code keeps the table well formed. */
  lemma StoreKeepsTableWf(t: RoomTable, code: string, room: Room)
    requires TableWf(t) && RoomWf(room) && room.roomCode == code
    ensures TableWf(t[code := room])
  {
  }
}
