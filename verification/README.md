# Rock-paper-scissors: match server and client session, modelled in Dafny

The repository is a small online rock-paper-scissors game. It has a
Flask/Socket.IO server (`backend/app.py`) and a single React component on
the client (`frontend/src/App.js`). The two do not speak the same protocol.
The client emits `set_name`, `create_room`, `join_room`, `player_ready`,
`make_move` and `quit_game`. The server handles `find_match`, `make_move`
and `cancel_find_match`. `make_move` with a room and a move is the one
message both sides share, but the client never sends `find_match`, so it
is never seated in a server room. So the two sides are modelled
separately, with no end-to-end model and no sockets.

**Server** (`backend/app.py`):

- `Referee` holds `determine_result`, with verdicts `Win`/`Lose`/`Draw` and
  their texts "You Win!", "You Lose!" and "Draw!".
- `Leaderboard` holds the name → best-score dictionary. It has:
  - the keep-best update of `submit_score`;
  - `sort_leaderboard`, a stable sort by score, highest first;
  - a `ScoreFile` class whose `SubmitScore` updates the dictionary in place
    and returns the broadcast ranking.
- `OrderedMaps` models a Python `dict`. The keys are kept in insertion
  order, reassigning a key keeps its place, and `del` removes it.
- `MatchRegistry` gives the specification functions of the room table:
  `FindMatch`, `MakeMove`, `Cancel`, `Disconnect`, and the delayed removal
  that a disconnect schedules. It also defines the table invariant:
  - a room has one or two players;
  - every player has a `step` entry;
  - a waiting room has exactly one player;
  - at most one room is open (waiting with one player).
- `MatchServer.Server` is the global `rooms` dict as an object. Its
  handlers mutate it in place, loop over the rooms in insertion order as
  the source does, and are each proved equal to the matching
  `MatchRegistry` function. Emitted socket messages go to an `outbox`. A
  scheduled delayed removal goes to `pending` and is fired by
  `FireRemoval`.

**Client** (`frontend/src/App.js`):

- `TableSort` covers `handleSort`'s column and direction toggle, and the
  comparator that `sortedLeaderboard` and `sortedRooms` pass to a stable
  `Array.prototype.sort` on a copy of the stored rows.
- `ClientSession` gives the component's React state as one `Session`
  value. Every handler is a function from the session before to the
  session after, and messages the client emits are appended to `outbox`.
- `AppComponent.App` is the component as an object with one field per
  state variable. Each handler method sets the fields in the order the
  handler calls its setters and is proved to produce the matching
  `ClientSession` transition.

Identifiers that the source draws at random are parameters: the `uuid4`
room id (`freshId`), the socket id (`sid`) and the generated player name.

## Model

| member | source | states |
|---|---|---|
| `Referee.Beats` | backend/app.py:65 | the rule table knows exactly Rock, Paper and Scissors, and each beats a different legal move |
| `Referee.DetermineResult` | backend/app.py:64-71 | the two verdicts are always opposite; a draw iff the moves are equal; otherwise the first player wins iff the table says its move beats the other; a different move outside the table loses |
| `Referee.WinningPairs` | backend/app.py:65-71 | Rock beats Scissors, Paper beats Rock, Scissors beats Paper, from either seat |
| `Referee.ExactlyOneBeats` | backend/app.py:65 | of two different legal moves exactly one beats the other |
| `Referee.SwapSeats` | backend/app.py:64-71 | for two different legal moves, swapping the arguments swaps the verdicts |
| `Referee.UnknownMoveLoses` | backend/app.py:68-71 | for every pair of different moves where the first is outside the table, the first seat loses; and a legal move in the first seat also loses to a move outside the table, so the referee is not symmetric off the table |
| `Referee.TextDistinguishes` | backend/app.py:67-71 | the texts "You Win!", "You Lose!" and "Draw!" name the verdicts one-to-one |
| `Leaderboard.Entries` | backend/app.py:61-62 | the dictionary's items in iteration order as `{name, score}` entries |
| `Leaderboard.WithScore` | backend/app.py:61 | the entries of one score are drawn from the input |
| `Leaderboard.WithScoreAppend` | backend/app.py:61 | selecting one score distributes over concatenation |
| `Leaderboard.InsertDesc` | backend/app.py:61 | one insertion step of the sort adds exactly the inserted entry |
| `Leaderboard.InsertDescBounded` | backend/app.py:61 | an insertion step never brings in a score above a bound that all inputs respect |
| `Leaderboard.InsertDescSorted` | backend/app.py:61 | an insertion step keeps scores non-increasing |
| `Leaderboard.SortDesc` | backend/app.py:61 | the sort is a permutation with non-increasing scores |
| `Leaderboard.InsertDescStable` | backend/app.py:61 | an insertion step keeps the order of the entries of each score, and the new entry goes before every entry of its own score |
| `Leaderboard.SortDescStable` | backend/app.py:61 | entries of equal score keep their relative order (stable sort with `reverse=True`) |
| `Leaderboard.SortLeaderboard` | backend/app.py:60-62 | the ranking has one entry per dictionary key, is a permutation of the dictionary's entries, and its scores never increase |
| `Leaderboard.SortLeaderboardRanks` | backend/app.py:60-62 | the ranking is a permutation of the dictionary's entries, non-increasing by score, stable on equal scores, and lists exactly the pairs the dictionary holds |
| `Leaderboard.KeepBest` | backend/app.py:84-85 | a new name gets the score, a known name the larger of old and new; every other name is unchanged; a new name goes last in dictionary order |
| `Leaderboard.KeepBestMonotone` | backend/app.py:84-85 | no stored score ever goes down |
| `Leaderboard.KeepBestIdempotent` | backend/app.py:84-85 | submitting the same score twice is submitting it once |
| `Leaderboard.ScoreFile.SubmitScore` | backend/app.py:79-90 | a missing name is "noname" and a missing score 0; the dictionary becomes `KeepBest` of the old one; the result is the ranking of the new dictionary |
| `OrderedMaps.OrderedMap.Put` | backend/app.py:115-122 | `d[k] = v` stores `v` under `k`, leaves every other key, keeps an existing key's place and puts a new key last |
| `OrderedMaps.OrderedMap.Delete` | backend/app.py:161 | `del d[k]` drops `k` from the mapping and the keys become `Without(keys, k)`; the other keys keep their values |
| `OrderedMaps.OrderedMap.DeleteKeepsOrder` | backend/app.py:161 | after `del d[k]` the keys are the slices before and after `k` joined up, so the others keep their order |
| `OrderedMaps.Without` | backend/app.py:161 | the keys left after deleting one: exactly the others, still distinct, and the list itself when the key is absent |
| `OrderedMaps.WithoutSplits` | backend/app.py:161 | in a list without repeats, taking a key out joins the slices on either side of it, so the other keys keep their order |
| `OrderedMaps.OrderedMap.PutThenDelete` | backend/app.py:136-161 | writing to a room and then deleting it is the same as deleting it |
| `OrderedMaps.OrderedMap.Items` | backend/app.py:61 | `d.items()` pairs each key, in order, with its value |
| `OrderedMaps.OrderedMap.FirstFrom` | backend/app.py:103-104 | scanning from a position, the first hit passes the test and nothing before it from there does; no hit means nothing from there on passes |
| `OrderedMaps.OrderedMap.FirstWhere` | backend/app.py:103-104 | the first value in iteration order passing the test; none before it passes; with no hit, no value passes |
| `MatchRegistry.IndexOf` | backend/app.py:179 | the position of the first occurrence of a player in the list |
| `MatchRegistry.RemoveFirst` | backend/app.py:179 | `list.remove` drops exactly the first occurrence: same multiset minus one, one shorter |
| `MatchRegistry.FindMatch` | backend/app.py:99-125 | a search keeps the table invariant: one or two players per room, a step for each, at most one open room |
| `MatchRegistry.FindMatchJoinsFirstOpen` | backend/app.py:103-112 | with an open room, the first one in table order (no earlier room is open) gets the player appended, becomes running and gets a `None` step for it; the key order and every other room are unchanged; `match_found` names that room |
| `MatchRegistry.FindMatchOpensRoom` | backend/app.py:113-125 | with no open room, exactly one waiting room holding only the player, with a `None` step, is stored under the fresh id, last in table order; no other room changes; `waiting` names it |
| `MatchRegistry.FindMatchSeats` | backend/app.py:103-125 | after a search the player sits in the room named by the emitted message, which is running with two players after a match and open after a creation |
| `MatchRegistry.SearchTwiceMatchesSelf` | backend/app.py:103-112 | with no other room open, a player who searches twice is matched with themself |
| `MatchRegistry.MakeMove` | backend/app.py:127-169 | unknown room: only the error "Invalid room ID", nothing changes; non-participant: only "You are not in this room", nothing changes; the table invariant is kept |
| `MatchRegistry.MakeMoveRecords` | backend/app.py:133-161 | a participant's move is stored in the step map and `move_received` is emitted first, and is the only message unless the round finishes; the room is deleted iff all its players moved and there are two; the outcome is `Recorded` iff someone has not moved; no other room changes; a deleted room leaves the other keys in their order |
| `MatchRegistry.MakeMoveFinishes` | backend/app.py:133-161 | a finished round is the stored room (same status and players) with this move recorded; it records the winner `determine_result` gives (or "Draw"); each player is then sent its own move, the opponent's and its own verdict; the room leaves the table with the other keys in order |
| `MatchRegistry.WinnerFollowsMoves` | backend/app.py:145-153 | the recorded winner is "Draw" for equal moves, the first player when the table says its move beats the other, and the second player otherwise |
| `MatchRegistry.Leave` | backend/app.py:179-184 | the player's first occurrence leaves the list; the room is deleted iff the list becomes empty, the other keys keeping their order; no other room changes |
| `MatchRegistry.Cancel` | backend/app.py:171-188 | an unknown room or a non-member changes nothing; otherwise the player's first occurrence leaves the list, and an emptied room is deleted with the other keys keeping their order; no other room changes |
| `MatchRegistry.Disconnect` | backend/app.py:190-212 | a disconnect keeps the table invariant |
| `MatchRegistry.DisconnectFirstRoomOnly` | backend/app.py:190-212 | only the first room in table order that lists the player is touched and no earlier room lists it; the player's first occurrence leaves it; it is deleted iff it becomes empty (the other keys keep their order), otherwise a removal naming the remaining player is scheduled; a player in no room changes nothing |
| `MatchRegistry.DelayedRemove` | backend/app.py:203-210 | after the delay the room is gone and the other keys keep their order; if it still existed the remaining player is told `opponent_left` then `return_to_menu`; no other room changes |
| `MatchServer.Server.constructor` | backend/app.py:25 | the room table starts empty |
| `MatchServer.Server.HandleFindMatch` | backend/app.py:99-125 | the loop over the rooms leaves the table and the outbox as `FindMatch` gives them |
| `MatchServer.Server.HandleMakeMove` | backend/app.py:127-169 | the in-place update of the step map, then `FinishRound` once both players moved, give `MakeMove`'s table, messages and outcome |
| `MatchServer.Server.FinishRound` | backend/app.py:141-161 | the winner is recorded from the two verdicts, the two `game_result` messages go out in seat order, and the room is deleted |
| `MatchServer.Server.RemovePlayer` | backend/app.py:194-200 | remove-then-delete-if-empty, as `Leave` |
| `MatchServer.Server.HandleCancelFindMatch` | backend/app.py:171-188 | the table becomes `Cancel` of the old one |
| `MatchServer.Server.FirstRoom` | backend/app.py:103-104 | the scan over the rooms in insertion order stops at the first room passing the test, as `FirstWhere` |
| `MatchServer.Server.HandleDisconnect` | backend/app.py:190-212 | the scan of a snapshot of the rooms that stops (`break`) at the first room listing the player leaves the table and the scheduled removal as `Disconnect` gives them |
| `MatchServer.Server.FireRemoval` | backend/app.py:203-210 | the oldest scheduled removal runs as `DelayedRemove` |
| `TableSort.NextSortConfig` | frontend/src/App.js:167-181 | the clicked key becomes the key; the direction is "asc" iff that key was already selected with "desc" |
| `TableSort.SameColumnFlips` | frontend/src/App.js:171-172 | clicking the sorted column again flips its direction |
| `TableSort.ClicksAlternate` | frontend/src/App.js:167-181 | a new column starts descending, then alternates asc, desc |
| `TableSort.StrBelowAsymmetric` | frontend/src/App.js:186-189 | string `<` never holds both ways |
| `TableSort.StrBelowTotal` | frontend/src/App.js:186-189 | two different strings are ordered one way or the other |
| `TableSort.StrBelowTransitive` | frontend/src/App.js:186-189 | string `<` is transitive |
| `TableSort.Compare` | frontend/src/App.js:185-193 | the comparator returns -1, 0 or 1; 0 exactly when neither value is below the other; a smaller value goes first ascending and last descending |
| `TableSort.CompareFlip` | frontend/src/App.js:185-193 | swapping the two rows negates the comparator |
| `TableSort.CompareTransitive` | frontend/src/App.js:185-193 | within a column of one kind, "comes no later than" is transitive |
| `TableSort.TieMeansEqual` | frontend/src/App.js:185-193 | within a column of one kind the comparator returns 0 iff the values are equal |
| `TableSort.WithCellAppend` | frontend/src/App.js:185-193 | selecting one sort value distributes over concatenation |
| `TableSort.Insert` | frontend/src/App.js:185-193 | one insertion step adds exactly the inserted row |
| `TableSort.InsertLeads` | frontend/src/App.js:185-193 | a row that precedes every row and the inserted one still precedes them all after insertion |
| `TableSort.ConsOrdered` | frontend/src/App.js:185-193 | a row that comes no later than every row of an ordered list can be put in front of it |
| `TableSort.OrderedTail` | frontend/src/App.js:185-193 | the rest of an ordered list is ordered, and its first row comes no later than all of it |
| `TableSort.LeadsByHead` | frontend/src/App.js:185-193 | within a column of one kind, a row no later than the first row of an ordered list comes no later than all of it |
| `TableSort.InsertOrdered` | frontend/src/App.js:185-193 | insertion into an ordered list of one kind keeps it ordered |
| `TableSort.InsertStable` | frontend/src/App.js:185-193 | insertion goes before every row with the same sort value, as a stable sort needs for the earlier stored row |
| `TableSort.SortView` | frontend/src/App.js:183-209 | the view is a permutation of the stored rows, of the same length |
| `TableSort.SortViewOrdered` | frontend/src/App.js:183-209 | for a column of one kind the view is in comparator order |
| `TableSort.SortViewStable` | frontend/src/App.js:183-209 | rows with the same sort value keep their stored order |
| `TableSort.SortViewOfOrdered` | frontend/src/App.js:183-209 | rows already in order are left as they are |
| `TableSort.SortViewIdempotent` | frontend/src/App.js:183-209 | for a column of one kind, sorting the view again changes nothing |
| `ClientSession.Initial` | frontend/src/App.js:10-28 | the initial state: "main", no socket, no room, empty name and error, not editing, not ready, no choice, empty lists, rooms by id ascending, leaderboard by "r" descending |
| `ClientSession.TrimStartDrops` | frontend/src/App.js:249 | the leading white space, and only it, is dropped: the result is a suffix that is empty or starts with a non-space |
| `ClientSession.TrimEndDrops` | frontend/src/App.js:249 | the trailing white space, and only it, is dropped: the result is a prefix that is empty or ends with a non-space |
| `ClientSession.TrimSlice` | frontend/src/App.js:249-253 | carries `Trim`, the model of `name.trim()`: the result is the middle slice whose ends are not white space and around which only white space was dropped |
| `ClientSession.TrimEmptyIffBlank` | frontend/src/App.js:249 | a name trims to "" iff every character is white space |
| `ClientSession.TrimIdempotent` | frontend/src/App.js:253 | trimming a trimmed name changes nothing |
| `ClientSession.QuitGame` | frontend/src/App.js:229-239 | afterwards "main", not ready, no rounds, no choice; `quit_game` is emitted and the room cleared only with a socket and a room; nothing else changes |
| `ClientSession.QuitGameIdempotent` | frontend/src/App.js:229-239 | quitting twice is quitting once |
| `ClientSession.ChangeGameState` | frontend/src/App.js:271-278 | the final state is always the new one; the quit effects run exactly when moving from lobby/running to a state outside them |
| `ClientSession.ChangeGameStateEmitsQuit` | frontend/src/App.js:271-278 | `quit_game` is emitted iff a session with a socket and a room is left; at most that one message |
| `ClientSession.ChangeGameStateIdempotent` | frontend/src/App.js:271-278 | setting the current state again changes nothing |
| `ClientSession.JoinRoom` | frontend/src/App.js:260-269 | without a socket nothing changes; otherwise `join_room` is emitted, the room remembered and the lobby shown, nothing else |
| `ClientSession.StartGame` | frontend/src/App.js:149-152 | rounds are cleared; `create_room` is emitted iff there is a socket |
| `ClientSession.HandleReady` | frontend/src/App.js:280-288 | nothing without a socket and a room; otherwise readiness flips and the emitted status matches the new value |
| `ClientSession.HandleReadyTwice` | frontend/src/App.js:280-288 | with a socket and a room, two clicks restore readiness and emit one "ready" and one "waiting" |
| `ClientSession.HandleChoice` | frontend/src/App.js:154-165 | the choice is selected and the player ready; `player_ready` is sent with a socket, `make_move` too with a room |
| `ClientSession.UpdateNameInput` | frontend/src/App.js:241-245 | the typed text becomes the name and the error is cleared |
| `ClientSession.HandleEditOrSave` | frontend/src/App.js:247-258 | outside editing only editing starts; a blank name sets "Name cannot be empty" and emits nothing; otherwise the trimmed name is emitted |
| `ClientSession.HandleEditOrSaveSendsCleanName` | frontend/src/App.js:247-258 | saving emits at most one name, only if some character is not white space, and that name is non-empty with no white space at either end |
| `ClientSession.HandleSort` | frontend/src/App.js:167-181 | the clicked table gets `NextSortConfig`; the other table's config and an unknown table leave everything unchanged |
| `ClientSession.RestoreName` | frontend/src/App.js:136-141 | a non-empty stored name replaces the name; otherwise nothing changes |
| `ClientSession.OnConnect` | frontend/src/App.js:35-44 | the stored name, or the generated one if none is stored, becomes the name and is announced with `set_name` |
| `ClientSession.OnNameTaken` | frontend/src/App.js:46-49 | the server's message is shown and the editor reopened |
| `ClientSession.OnNameSet` | frontend/src/App.js:51-54 | the editor is closed |
| `ClientSession.OnLeaderboardUpdated` | frontend/src/App.js:56 | the received leaderboard is stored |
| `ClientSession.OnGameStart` | frontend/src/App.js:58-63 | players and room stored, state "running" |
| `ClientSession.OnLobby` | frontend/src/App.js:65-69 | room stored, state "lobby" |
| `ClientSession.MoveAt` | frontend/src/App.js:73 | `moves[i]` when present, absent otherwise |
| `ClientSession.OnGameResult` | frontend/src/App.js:71-84 | the round is appended; a final result then changes to "game_over", any other clears the choice |
| `ClientSession.OnGameResultRecordsRound` | frontend/src/App.js:71-84 | exactly one round `{winner, moves[0], moves[1]}` is added at the end (unless a final result arrives during a session, whose quit clears the history); a final result ends in "game_over", another keeps the state and clears the choice |
| `ClientSession.TransformRooms` | frontend/src/App.js:86-96 | one row per room, same order and count, `num_players` equal to the number of keys of `players` |
| `ClientSession.OnRoomsUpdated` | frontend/src/App.js:86-96 | the stored rooms become the transformed rooms, nothing else changes |
| `ClientSession.SortedLeaderboard` | frontend/src/App.js:183-195 | the view holds the stored rows, each as often as stored (order and stability: `SortedLeaderboardSpec`) |
| `ClientSession.SortedRooms` | frontend/src/App.js:197-209 | the view holds the stored rooms, each as often as stored (order and stability: `SortedRoomsSpec`) |
| `ClientSession.SortedLeaderboardSpec` | frontend/src/App.js:183-195 | the leaderboard view is a permutation of the stored rows in which rows with the same sort value keep their stored order, and it is ordered when the column holds one kind of value |
| `ClientSession.SortedRoomsSpec` | frontend/src/App.js:197-209 | the rooms view is a permutation of the stored rooms, stable on ties, and ordered by the chosen column |
| `ClientSession.RoomColumnsUniform` | frontend/src/App.js:88-93 | every column of the rooms table holds values of one kind |
| `AppComponent.App.constructor` | frontend/src/App.js:10-28 | the fields start as `Initial()` |
| `AppComponent.App.Mount` | frontend/src/App.js:31-33 | the socket is created; nothing else changes |
| `AppComponent.App.RestoreName` | frontend/src/App.js:136-141 | the fields become `ClientSession.RestoreName` |
| `AppComponent.App.QuitGame` | frontend/src/App.js:229-239 | the fields become `ClientSession.QuitGame` of the old state |
| `AppComponent.App.ChangeGameState` | frontend/src/App.js:271-278 | calls the quit method when leaving a session; the fields become `ClientSession.ChangeGameState` |
| `AppComponent.App.JoinRoom` | frontend/src/App.js:260-269 | the fields become `ClientSession.JoinRoom` |
| `AppComponent.App.StartGame` | frontend/src/App.js:149-152 | the fields become `ClientSession.StartGame` |
| `AppComponent.App.HandleReady` | frontend/src/App.js:280-288 | the fields become `ClientSession.HandleReady` |
| `AppComponent.App.HandleChoice` | frontend/src/App.js:154-165 | the fields become `ClientSession.HandleChoice` |
| `AppComponent.App.HandleSort` | frontend/src/App.js:167-181 | the fields become `ClientSession.HandleSort` |
| `AppComponent.App.UpdateNameInput` | frontend/src/App.js:241-245 | the fields become `ClientSession.UpdateNameInput` |
| `AppComponent.App.HandleEditOrSave` | frontend/src/App.js:247-258 | the early return on a blank name included, the fields become `ClientSession.HandleEditOrSave` |
| `AppComponent.App.OnConnect` | frontend/src/App.js:35-44 | the fields become `ClientSession.OnConnect` |
| `AppComponent.App.OnNameTaken` | frontend/src/App.js:46-49 | the fields become `ClientSession.OnNameTaken` |
| `AppComponent.App.OnNameSet` | frontend/src/App.js:51-54 | the fields become `ClientSession.OnNameSet` |
| `AppComponent.App.OnLeaderboardUpdated` | frontend/src/App.js:56 | the fields become `ClientSession.OnLeaderboardUpdated` |
| `AppComponent.App.OnGameStart` | frontend/src/App.js:58-63 | the fields become `ClientSession.OnGameStart` |
| `AppComponent.App.OnLobby` | frontend/src/App.js:65-69 | the fields become `ClientSession.OnLobby` |
| `AppComponent.App.OnGameResult` | frontend/src/App.js:71-84 | the fields become `ClientSession.OnGameResult` |
| `AppComponent.App.OnRoomsUpdated` | frontend/src/App.js:86-96 | the fields become `ClientSession.OnRoomsUpdated` |
| `AppComponent.App.OnOpponentLeftOrError` | frontend/src/App.js:98-99 | `opponent_left` and `error` run `quitGame` |

## Left out

- Socket.IO transport: rooms joined with `join_room`/`leave_room`, and broadcasting. Emitted messages are recorded in an outbox with their addressee.
- The HTTP routes as routes, the `fetch` to `/submit` and the client's `submitScore`. Only the pure score update and ranking are modelled.
- JSON file persistence and `file_lock` (`save_room_history`, `load_leaderboard` and its empty-list fallback, `save_leaderboard`). These are file I/O and locking; the leaderboard dictionary is a field.
- The `eventlet` background task and its five-second sleep. A scheduled removal is queued in `pending`, and `FireRemoval` runs it at a time the caller picks. Interleavings with other handlers during the sleep are whatever order the caller chooses.
- `uuid.uuid4()`, the socket id, `Math.random` in `generateRandomName`, and the values read from `localStorage`. These are parameters (`RestoreName`, `OnConnect`); the writes to `localStorage` are not modelled.
- The URL deep link (frontend/src/App.js:106-134), the clipboard copy (frontend/src/App.js:290-314), all JSX and CSS, logging.
- React semantics: stale closures in the `[]`-dependency effect, and setter batching. Handlers read and update the current state one step at a time. In the running app the socket handlers see the initial state. So `game_result` with `game_over` never runs the quit effects there, whereas the model runs them (and clears the rounds) when a final result arrives in "lobby" or "running". Likewise `opponent_left` and `error` never emit `quit_game` there.
- `result` and the `setResult(result)` call in the `game_result` handler: the variable is only ever set to its own value, so it is not a field.
- `HandleChoice` and `HandleEditOrSave` call `socket.emit` without a null check. The `TypeError` this raises before the socket exists is modelled as emitting nothing.
- The `Room`'s `'winner'` entry lives in the same `step` dict as the players' moves. The model keeps it as a separate field. This is the same unless a socket id is the string "winner".
- `make_move` in a one-player room whose only player has moved raises `ValueError` when unpacking the player list. This is modelled as the outcome `Crashed`, with the move stored.
- JavaScript numbers are floats and compare across types by coercion. Cells are modelled as integers, strings or neither, and values of different kinds are unordered. That is why `SortViewOrdered`, `SortViewIdempotent` and `SortedLeaderboardSpec` assume a column of one kind.
- Strings compare by character (Unicode scalar values) rather than by UTF-16 code unit. The two orders differ only between characters above U+FFFF and those in U+E000–U+FFFF.
- A JSON `null` name or score in `submit_score` (a present key with a null value): `data.get` returns `None` and Python would then compare `None` with an `int`. The model treats absent and present values only.
- JSON values are narrowed to one type each: `make_move`'s `move` is a string or absent, and `submit_score`'s name is a string and its score an integer. Other JSON types (numbers as moves, float or string scores, lists) are not modelled.
