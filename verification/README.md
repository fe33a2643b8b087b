# Bingo Caos: a verified model of the room session engine

Bingo Caos is a multiplayer bingo game for a group of friends. Each player
proposes "ideas", which are events that might happen during a shared
activity. The host starts the game. Every player then gets a personal 5 x 5
card: 24 ideas taken from a shuffled copy of the pool, plus a free centre
cell ("COMODÍN"). Anyone can announce that an idea happened, and every card
holding that text is marked. The page itself detects a line or a full card
and claims it, and the server trusts the claim.

This project models the core of that system in Dafny as immutable data and
pure transitions:

- **`Base`**: ids, `Option`, the HTTP error codes, and MongoDB's `$addToSet`
  and `$pull` on arrays. Also the ASCII upper-casing of room codes.
- **`GameRoom`**: the room document (`GameRoom` schema), with its status
  enum and defaults. The room table is keyed by the unique `roomCode`. The
  module also defines the well-formedness every stored room keeps.
- **`Users`**: the user document fields the game and the friend relation
  touch, and the win/games-played counting that a bingo triggers.
- **`LiveState`**: the in-memory `liveGameStates` entry of a room. It holds
  the event log (newest first, at most 20 entries) and one stat line per
  player.
- **`Presence`**: the `userSocketMap`, a JavaScript `Map` kept as a sequence
  of bindings in insertion order.
- **`Shuffle`**: `shuffleArray` (Fisher–Yates) with an oracle for the random
  indices, and the dealing of one card.
- **`RoomController`**: the HTTP room routes (create, join, details, leave,
  delete) as transitions of the room table.
- **`FriendsController`**: the friend-request relation (send, accept,
  reject) and the empty-query case of user search.
- **`SocketHandler`**: every socket event handler. Each is one atomic step
  from one server state to the next, together with the messages it emits.
- **`Engine`**: all handlers as one state machine. It defines the invariant
  of the whole server, which every step keeps, and the ways a stored room
  may change from one step to the next.
- **`RoomClient`**: the game logic of the room page. This covers card
  assembly with the free cell, marking by text, the reported count, the
  twelve winning lines, the win check with its line latch, and the replay of
  marks after a reconnection.

Inputs that the code draws from the outside world are parameters:

- the random room code;
- the random indices of each shuffle (one sequence per player);
- the current time of a log entry;
- the socket id of a connection.

The 15-second deletion timer that a bingo sets off is a step of its own,
`ExpireRoom`.

## Model

| member | source | states |
|---|---|---|
| Base.AddToSet | bingo-caos-backend/socket/socketHandler.js:135-138 | `$addToSet`: the result holds exactly the old elements plus the new one. An element already present leaves the array unchanged. A new one is appended at the end. Duplicate-freedom is kept. |
| Base.Pull | bingo-caos-backend/controllers/roomController.js:81 | `$pull`: every occurrence of the value is removed and all other elements are kept. The array shrinks exactly when the value was present. Duplicate-freedom is kept. |
| Base.PullRemovesOne | bingo-caos-backend/controllers/roomController.js:81 | On a duplicate-free array holding the value, `$pull` removes exactly that one position and keeps every other element in its order. |
| Base.PullFirst | bingo-caos-backend/controllers/roomController.js:81 | The first element left after `$pull` is the first element of the array that differs from the pulled value. |
| Base.PullAppend | bingo-caos-backend/controllers/roomController.js:81 | `$pull` works element by element, order included: pulling from a concatenation is pulling from each part, and one element is dropped exactly when it equals the value. |
| Base.ToUpper | bingo-caos-backend/controllers/roomController.js:30 | Upper-casing keeps the length, maps each character on its own, and leaves no lower-case ASCII letter. |
| Base.ToUpperIdempotent | bingo-caos-backend/controllers/roomController.js:52 | Upper-casing a code twice is the same as once, so an already upper-case code is looked up unchanged. |
| GameRoom.NewRoomWf | bingo-caos-backend/models/GameRoom.js:23-32 | A fresh room takes the schema defaults (status `waiting`, winner null, no cards, no marks) and satisfies the room invariant. |
| GameRoom.ToCard | bingo-caos-backend/socket/socketHandler.js:109 | A card entry keeps the text of its pool entry, position by position, and drops the author. |
| GameRoom.FindCard | bingo-caos-backend/socket/socketHandler.js:40 | `player_cards.find`: it finds nothing exactly when no entry belongs to the user. Otherwise it returns the card of the first entry that does. |
| Users.RecordResult | bingo-caos-backend/socket/socketHandler.js:200-201 | A bingo adds one win to the winner only and one game played to every player of the room only. Missing documents are skipped and no other field changes. |
| LiveState.PushLog | bingo-caos-backend/socket/socketHandler.js:143-145 | The new entry is first, followed by the old log in order. The oldest entry is dropped only when the log would pass 20, so a log of at most 20 stays at most 20. |
| LiveState.FirstStat | bingo-caos-backend/socket/socketHandler.js:158 | `playerStats.find`: nothing exactly when no stat has the id. Otherwise it gives the first index whose stat has the id. |
| LiveState.SetCheckedCount | bingo-caos-backend/socket/socketHandler.js:158-160 | Only the first stat of the player changes, and only its count. Without such a stat nothing changes. |
| LiveState.SetHasLine | bingo-caos-backend/socket/socketHandler.js:175-178 | Only the first stat of the claimant changes, and only its line flag. Without such a stat nothing changes. |
| LiveState.SetHasLineIdempotent | bingo-caos-backend/socket/socketHandler.js:175-178 | A second line claim by the same player changes nothing. |
| Presence.Lookup | bingo-caos-backend/socket/socketHandler.js:113 | `userSocketMap.get`: nothing exactly when the user has no binding. Otherwise a socket bound to the user. |
| Presence.Register | bingo-caos-backend/socket/socketHandler.js:27 | `set` overwrites: the user now resolves to the new socket and is present afterwards. The directory grows by one exactly when the user was absent. Keys stay unique. |
| Presence.RegisterAppends | bingo-caos-backend/socket/socketHandler.js:27 | A user without a binding is appended after every existing binding, as a new `Map` key is. |
| Presence.RegisterInPlace | bingo-caos-backend/socket/socketHandler.js:27 | A user with a binding keeps its position; only the socket at that position changes. |
| Presence.RegisterKeepsOthers | bingo-caos-backend/socket/socketHandler.js:27 | Registering one user leaves every other user resolving to the socket it had before. |
| Presence.FirstWithSocket | bingo-caos-backend/socket/socketHandler.js:228-229 | The disconnect loop's search: nothing exactly when no binding has the socket. Otherwise the first binding that has it. |
| Presence.Disconnect | bingo-caos-backend/socket/socketHandler.js:228-233 | The first binding with the socket is removed and the loop stops. Every other binding survives in order, and nothing changes when no binding has the socket. |
| Presence.DisconnectUsers | bingo-caos-backend/socket/socketHandler.js:228-233 | The users still present are exactly the old ones minus the user of the removed binding. |
| Presence.DisconnectKeepsUnique | bingo-caos-backend/socket/socketHandler.js:228-233 | Disconnecting keeps the directory's keys unique and adds no user. |
| Shuffle.SwapPermutes | bingo-caos-backend/socket/socketHandler.js:12 | The destructuring swap keeps the multiset of elements. |
| Shuffle.ShuffleFromPermutes | bingo-caos-backend/socket/socketHandler.js:10-13 | Every remaining turn of the loop keeps the length and the multiset of the array. |
| Shuffle.FisherYatesPermutes | bingo-caos-backend/socket/socketHandler.js:9-15 | For any in-range random indices, the shuffle returns a permutation of its input. |
| Shuffle.ShuffleArray | bingo-caos-backend/socket/socketHandler.js:9-15 | The in-place array loop computes the Fisher–Yates result for the given draws, which has the input's length and multiset. It runs on a copy, as `[...allEvents]` does. |
| Shuffle.DealCard | bingo-caos-backend/socket/socketHandler.js:108-109 | A dealt card has min(24, pool size) entries, and its entries form a sub-multiset of the pool's texts: each pool entry is used at most once. |
| Shuffle.DealtTextsFromPool | bingo-caos-backend/socket/socketHandler.js:108-109 | Every card text is the text of some pool entry. |
| Shuffle.FullPoolGivesFullCard | bingo-caos-backend/socket/socketHandler.js:109 | With at least 24 ideas in the pool, a card has exactly 24 entries. |
| RoomController.CreateRoom | bingo-caos-backend/controllers/roomController.js:9-20 | The reply is 201 exactly when the code is non-empty and unused. The creator is then host and sole player, with status `waiting`, no winner, and the schema's empty pool, marks and cards. Otherwise the reply is 500 and nothing changes. |
| RoomController.JoinRoom | bingo-caos-backend/controllers/roomController.js:22-48 | A missing or empty code gives 400 with no change. An unknown upper-cased code gives 404 with no change. Otherwise the reply is 200 with the room, the user is appended only if absent, and nothing else in the room changes. |
| RoomController.JoinRoomIdempotent | bingo-caos-backend/controllers/roomController.js:37-40 | Joining twice leaves the same table and reply as joining once. |
| RoomController.JoinIgnoresLetterCase | bingo-caos-backend/controllers/roomController.js:30 | A code typed in any letter case joins the same room as its upper-case form. |
| RoomController.GetRoomDetails | bingo-caos-backend/controllers/roomController.js:50-62 | The room is found exactly when the upper-cased code is stored. It is returned unchanged; otherwise the reply is 404. |
| RoomController.DetailsAfterJoin | assets/js/room.js:192 | The details fetched right after a successful join are the room the join stored, with the joining user among its players. A non-empty code is found by the join exactly when the details find it. |
| RoomController.DetailsIgnoreLetterCase | bingo-caos-backend/controllers/roomController.js:52 | Details of a code in any letter case are those of its upper-case form. |
| RoomController.LeaveRoom | bingo-caos-backend/controllers/roomController.js:73-100 | The user is pulled from the players, and the room is deleted exactly when no player remains. A leaving host hands over to the first player in join order other than the leaver; otherwise the host is kept. A non-player leaves the list as it was. On a duplicate-free list the leaver's one position is removed and the others keep their order. Other fields and other rooms are unchanged. |
| RoomController.DeleteRoom | bingo-caos-backend/controllers/roomController.js:102-120 | 404 for an unknown room and 403 with no change for a non-host. The room is removed when the host asks. |
| RoomController.HandlersKeepTableWf | bingo-caos-backend/controllers/roomController.js:9-120 | The four routes keep every room keyed by its code, with a non-empty, duplicate-free player list containing the host. |
| FriendsController.SendFriendRequest | bingo-caos-backend/controllers/friendsController.js:27-40 | The sender's sent list becomes `$addToSet` of the recipient and the recipient's received list `$addToSet` of the sender: appended at the end when absent, unchanged when present. Nothing else of anyone changes. |
| FriendsController.SendFriendRequestIdempotent | bingo-caos-backend/controllers/friendsController.js:32-34 | Sending the same request twice is the same as once. |
| FriendsController.AcceptFriendRequest | bingo-caos-backend/controllers/friendsController.js:44-60 | Each friends list becomes `$addToSet` of the other user. The acceptor's received list becomes `$pull` of the requester and the requester's sent list `$pull` of the acceptor, order kept. No pending request is required, and nothing else of anyone changes. |
| FriendsController.AcceptMakesFriends | bingo-caos-backend/controllers/friendsController.js:49-54 | After an accept, both users list each other as friends and the accepted request is gone from both ends. |
| FriendsController.RejectFriendRequest | bingo-caos-backend/controllers/friendsController.js:64-80 | Both request lists of each user become `$pull` of the other user, so every request between them is dropped in both directions with the rest kept in order. No friends list changes. |
| FriendsController.RejectClearsRequests | bingo-caos-backend/controllers/friendsController.js:69-74 | After a reject, neither user has the other in a sent or received list. Friendships are untouched, so the page's "remove friend" action, which posts here, ends none (assets/js/friends.js:149-151). |
| FriendsController.FriendHandlersKeepSymmetry | bingo-caos-backend/controllers/friendsController.js:27-80 | The three handlers keep friendship mutual among existing users. |
| FriendsController.FriendHandlersKeepRequestsConsistent | bingo-caos-backend/controllers/friendsController.js:27-80 | The three handlers keep each pending request recorded on both ends. |
| FriendsController.SearchUsers | bingo-caos-backend/controllers/friendsController.js:6-23 | The search is skipped and `[]` returned exactly when the query is missing or empty. Otherwise the search is on the query and excludes the caller; it may still match nobody. |
| SocketHandler.JoinRoom | bingo-caos-backend/socket/socketHandler.js:24-56 | Only the presence directory changes; rooms are never touched. For a stored room, the player list and then the room state go to the room, and nothing else is broadcast. A single private replay is sent exactly when the room is active, has a live state and holds a card for the user. The replay carries that stored card, the pool, the marked set and the live state. |
| SocketHandler.AddEventIdea | bingo-caos-backend/socket/socketHandler.js:60-81 | Only a waiting room gains the idea, appended at the end of its pool; nothing else changes. Any other status, or an unknown room, changes nothing and emits nothing. |
| SocketHandler.CardMessages | bingo-caos-backend/socket/socketHandler.js:113-116 | Each private card goes to the socket of its owner, and every owner with a socket gets one. There are exactly as many messages as cards whose owner has a socket. |
| SocketHandler.StartGame | bingo-caos-backend/socket/socketHandler.js:84-129 | Nothing happens unless the caller is the host of a waiting room; the pool size is not checked. On success the room becomes active, and nothing else in it changes except the cards. The live state is an empty log plus one stat per player (count 1, both flags false). There is one card per player in player order, each dealt from the pool. The private cards are followed by the announcement. |
| SocketHandler.StartGameAcceptsShortPool | bingo-caos-backend/socket/socketHandler.js:87 | A host can start a waiting room whose pool has 23 ideas, and every card then has 23 entries. |
| SocketHandler.MarkEvent | bingo-caos-backend/socket/socketHandler.js:132-152 | In any status, the `{text, author}` pair joins the room's marked set with set semantics. The live log becomes exactly the old log with the mark pushed on, as `PushLog` states. The mark is always broadcast, and no other room, live state or user changes. |
| SocketHandler.MarkEventIdempotentOnRoom | bingo-caos-backend/socket/socketHandler.js:135-138 | Repeating a mark by the same author leaves the marked set as the first mark left it, for the `{text, author}` update as written; what Mongoose stores differs (see Left out). |
| SocketHandler.UpdateMyCheckedCount | bingo-caos-backend/socket/socketHandler.js:155-164 | Only the first stat of the player changes, and only its count, followed by one stats broadcast. With no live state or no stat, nothing changes and nothing is sent. |
| SocketHandler.IGotLine | bingo-caos-backend/socket/socketHandler.js:167-184 | Only the claimant's first stat gains the line flag. The stats are broadcast when a live state exists, and the line and its notice are announced in every case. |
| SocketHandler.IGotLineIdempotent | bingo-caos-backend/socket/socketHandler.js:175-178 | A second line claim leaves the server state as the first left it. |
| SocketHandler.IGotBingo | bingo-caos-backend/socket/socketHandler.js:186-217 | A stored room that is not finished (waiting included) becomes finished with the claimant as winner. The user table becomes exactly the counted result of `Users.RecordResult`, so no other user field changes. The notice and game-over are emitted. Otherwise nothing changes and nothing is sent. |
| SocketHandler.SecondBingoIgnored | bingo-caos-backend/socket/socketHandler.js:191 | After one accepted bingo, any later claim by anyone changes nothing, so the winner and counters stay. |
| SocketHandler.ExpireRoom | bingo-caos-backend/socket/socketHandler.js:208-212 | The delayed deletion removes exactly the room and its live state. Every other room and live state keeps its value, and users and sockets are untouched. |
| SocketHandler.SendChatMessage | bingo-caos-backend/socket/socketHandler.js:220-224 | Chat is a relay: the state is unchanged and one message goes to the room. |
| SocketHandler.Disconnect | bingo-caos-backend/socket/socketHandler.js:226-235 | Only the presence directory changes: its first binding with the socket is removed, or nothing when there is none. |
| Engine.NextKeepsWf | bingo-caos-backend/socket/socketHandler.js:21-236 | Every HTTP or socket step keeps the whole-server invariant: well-formed rooms keyed by code, live logs of at most 20 with no bingo flag set, unique presence keys, and a mutual, consistent friend relation. |
| Engine.RunKeepsWf | bingo-caos-backend/socket/socketHandler.js:21-236 | Every state reachable by any sequence of steps from a well-formed state is well formed. |
| Engine.NextRoomHistory | bingo-caos-backend/socket/socketHandler.js:60-217 | One step never moves a room's status backwards, never changes a finished room's winner, never changes the pool or cards once the game has started (no reshuffle on rejoin), and never unmarks an event. |
| Engine.Boot | bingo-caos-backend/socket/socketHandler.js:6-19 | At a (re)start the stored rooms and users are whatever the database holds, and the live states and socket directory start empty. Every well-formed database gives a well-formed server, even with active rooms that have no live state. |
| RoomClient.RenderCard | assets/js/room.js:263-285 | The cell list is the card with the free cell spliced in at index min(12, card size). The texts keep their order around it, and only the cell at index 12 starts marked. |
| RoomClient.FullCardLayout | assets/js/room.js:270-281 | A 24-entry card gives 25 cells whose centre is the marked free cell, with exactly one cell marked. |
| RoomClient.ShortCardHasNoMarkedCell | assets/js/room.js:270-281 | A card of fewer than 12 entries gets the free cell at its end, and then no cell is marked. |
| RoomClient.MarkText | assets/js/room.js:326-333 | A cell is marked afterwards exactly when it was marked or its text equals the event text. Texts never change. |
| RoomClient.MarkTextIdempotent | assets/js/room.js:326-333 | Marking the same text twice is the same as once. |
| RoomClient.CountMarkedBounds | assets/js/room.js:336 | The count equals the number of cells exactly when every cell is marked, and is positive exactly when some cell is. |
| RoomClient.CountMarkedMonotone | assets/js/room.js:336 | Marking more cells never lowers the count. |
| RoomClient.CountAtLeastOne | assets/js/room.js:336-337 | On a full card, the count reported after any sequence of marks is at least one. |
| RoomClient.LinesAreRowsColumnsDiagonals | assets/js/room.js:31-35 | The twelve lines are the five rows, the five columns and the two diagonals of the 5 x 5 grid, with every index inside the grid. |
| RoomClient.CheckWinConditions | assets/js/room.js:27-50 | A bingo is claimed exactly when there are 25 cells, all marked. A line is claimed exactly when there are 25 cells, not all marked, the latch is clear and some line is complete. The latch is set exactly by a line claim. |
| RoomClient.BingoHasLine | assets/js/room.js:36-48 | A full card always holds a complete line, so a bingo skips a line that is there. |
| RoomClient.OnEventMarked | assets/js/room.js:316-341 | The page marks the text, reports a count that never goes down, and then claims. On a 25-cell grid the count is 25 exactly when a bingo is claimed. |
| RoomClient.ShortPoolNeverClaims | assets/js/room.js:29 | A card of fewer than 24 entries never gives a 25-cell grid, whatever is marked, so the page claims nothing. |
| RoomClient.ShortPoolGameNeverClaims | assets/js/room.js:29 | A game started with fewer than 24 ideas can never be won by any page. |
| RoomClient.MarkAllCharacterization | assets/js/room.js:452-460 | After any sequence of marks, a cell is marked exactly when it was before or its text is among the marked texts. |
| RoomClient.Texts | assets/js/room.js:452-455 | A text is listed exactly when some marked event has it. |
| RoomClient.RejoinMarks | assets/js/room.js:432-474 | After the rejoin replay, a cell is marked exactly when it is the centre cell or its text is the text of some marked event. |
| RoomClient.RejoinMatchesLivePlay | assets/js/room.js:432-474 | A reconnecting player sees the same grid as one who saw every mark live. The replay depends only on which texts were marked, not on order, author or repetition. |

## Left out

- Transport and storage are not modelled: Socket.IO rooms and emits, Express routing and the JWT middleware. Mongoose `populate` and the HTTP reply bodies beyond their status are not modelled either. Emitted messages are an output list, replies a small datatype, and collections are maps.
- Concurrency is not modelled: each handler runs as one atomic step. Between two `await`s of one handler the real server can run another. For example, two bingo claims that both read the room before either saves could both be accepted. The model cannot show that race.
- Storage failures are not modelled: the `catch` branches and the 500 replies they send. The one exception is `createRoom`, whose required and unique `roomCode` rejections are modelled.
- `generateRoomCode` is left out because it turns a random float into base-36 text. The code is a parameter of `RoomController.CreateRoom`.
- `Math.random` in `shuffleArray` is an oracle argument (`draws`), and `new Date()` in a log entry is the `now` parameter.
- The 15-second `setTimeout` is not modelled as a timer. `SocketHandler.ExpireRoom` is a separate step that may happen at any later point.
- Ids are not modelled as ObjectIds: they are natural numbers, so the code's `toString()` comparisons between ObjectIds and client strings become equality.
- `populate` drops dangling player references; the model assumes every player's document exists. `Users.UsernameOf` gives an empty name otherwise.
- `SocketHandler.MarkEventIdempotentOnRoom` holds of the `{text, author}` update as written, not of what Mongoose stores. The `markedEvents` schema does not turn `_id` off, so every cast subdocument gets a fresh `_id`, no two are equal, and `$addToSet` stores a repeated mark again. The model compares marked events as `{text, author}` pairs only.
- `Base.ToUpper`: upper-cases ASCII letters only, because JavaScript's full Unicode case mapping is not modelled.
- `getUserRooms` is left out because it only reads and sorts by the `updatedAt` timestamp.
- User registration, login and profile are left out: `userController.js` is not part of this model.
- `FriendsController.SearchUsers`: a non-empty query is modelled as the description of the case-insensitive regular-expression search, not as its result.
- The page's rendering is not modelled: the control-panel buttons and their disabled state, the stats and log panels, alerts and chat.
- `renderGameState` (assets/js/room.js:159-187) is never called, so it is not modelled. The host-controls gate that disables the start button below 24 ideas is a display rule and is not modelled either.
- `RoomClient`: the cells are taken to be exactly the cells of the card grid that the page builds. The page selects them with `div > div` inside the game area, and room.html, which declares that area, is not part of this model.
- RoomController.LeaveRoom: the route finds the room by its document id (`findById`, roomController.js:75); the model keys rooms by their unique room code instead. A malformed id makes Mongoose throw a cast error, which the route answers with 500; the model answers 404 for every unknown key.
- RoomController.DeleteRoom: the route finds the room by its document id (`findById`, roomController.js:104); the model keys rooms by their unique room code instead. The cast-error 500 reply for a malformed id is not modelled either; the model answers 404.
- The texts of the notices are not modelled; they are Spanish sentences built around the fields that `SocketHandler.Notice` carries.

## Behaviour worth noting

- **Pool size at start.** `startGame` checks only that the caller is the host and the room is waiting (socketHandler.js:87). It accepts a pool of fewer than 24 ideas, and then deals shorter cards (`SocketHandler.StartGameAcceptsShortPool`). No page can win such a game (`RoomClient.ShortPoolGameNeverClaims`).
- **Bingo status check.** `iGotBingo` accepts any room that is not finished, including a waiting one (socketHandler.js:191).
- **Marked-event identity.** `markEvent` has no status check. Its marked set holds `{text, author}` pairs, so the same text marked by two players is stored twice.
- **Live state after HTTP removal.** The HTTP `leaveRoom` and `deleteRoom` routes delete the room document but not its live state.
- **The bingo flag.** No handler ever sets `hasBingo`. `Engine.Wf` records that it stays unset.
