/**
 * The client component's state machine as values: the React state of the
 * App component as one `Session` record, and every handler that changes it
 * as a function from the session before to the session after. Messages the
 * component emits on its socket are appended to `outbox`.
 */
module ClientSession {
  import opened Options
  import opened TableSort

  datatype GameState = Main | Menu | Lobby | Running | GameOver

  /** A message the client emits on its socket. */
  datatype Message =
    | SetNameMsg(name: string)
    | CreateRoomMsg(mode: string)
    | JoinRoomMsg(room: string)
    | PlayerReadyMsg(at: Option<string>, status: string)  // the room id as held, possibly null
    | MakeMoveMsg(room: string, move: string)
    | QuitGameMsg(room: string)

  /** One line of the round history; a move the server did not send is absent. */
  datatype Round = Round(winner: string, move1: Option<string>, move2: Option<string>)

  datatype PlayerInfo = PlayerInfo(status: string, played: bool)

  /** A room as the server's `rooms_updated` event describes it. */
  datatype RoomUpdate = RoomUpdate(roomId: string, status: string, players: map<string, PlayerInfo>)

  /** A row of the rooms table. */
  datatype RoomRow = RoomRow(roomId: string, status: string, numPlayers: nat, players: map<string, PlayerInfo>)
  {
    /** The row's value under a column name, as the comparator reads it. */
    function Field(key: string): Cell {
      if key == "room_id" then Str(roomId)
      else if key == "status" then Str(status)
      else if key == "num_players" then Num(numPlayers)
      else Opaque
    }
  }

  /** A leaderboard row: whatever fields the server sent, by name. */
  type Row = map<string, Cell>

  datatype Session = Session(
    gameState: GameState,
    name: string,
    nameError: string,
    editingName: bool,
    isReady: bool,
    socket: bool,                   // whether the socket object exists yet
    roomId: Option<string>,
    selectedChoice: Option<string>,
    rooms: seq<RoomRow>,
    rounds: seq<Round>,
    leaderboard: seq<Row>,
    players: seq<string>,
    roomsSort: SortConfig,
    leaderboardSort: SortConfig,
    outbox: seq<Message>)

  const NAME_EMPTY := "Name cannot be empty"

  /** The state the component mounts with. */
  function Initial(): (s: Session)
    ensures s.gameState == Main && s.roomId.None? && !s.socket && !s.isReady
    ensures s.name == "" && s.nameError == "" && !s.editingName && s.selectedChoice.None?
    ensures s.rounds == [] && s.rooms == [] && s.leaderboard == [] && s.players == [] && s.outbox == []
    ensures s.roomsSort == SortConfig("room_id", Asc) && s.leaderboardSort == SortConfig("r", Desc)
  {
    Session(Main, "", "", false, false, false, None, None, [], [], [], [],
            SortConfig("room_id", Asc), SortConfig("r", Desc), [])
  }

  /** A room id the client treats as present: set and not the empty string. */
  predicate HasRoom(roomId: Option<string>) {
    roomId.Some? && roomId.value != ""
  }

  /** The states that belong to a game session. */
  predicate InSession(g: GameState) {
    g == Lobby || g == Running
  }

  // ---------------------------------------------------------------- trimming

  /** The characters `String.prototype.trim` removes: white space and line terminators. */
  predicate IsSpace(c: char) {
    c == '\t' || c == '\n' || c == '\U{B}' || c == '\U{C}' || c == '\r' || c == ' '
    || c == '\U{A0}' || c == '\U{1680}' || ('\U{2000}' <= c <= '\U{200A}')
    || c == '\U{2028}' || c == '\U{2029}' || c == '\U{202F}' || c == '\U{205F}'
    || c == '\U{3000}' || c == '\U{FEFF}'
  }

  /** `s` without its leading white space. */
  function TrimStart(s: string): (r: string)
    ensures |r| <= |s|
  {
    if s != [] && IsSpace(s[0]) then TrimStart(s[1..]) else s
  }

  /** `s` without its trailing white space. */
  function TrimEnd(s: string): (r: string)
    ensures |r| <= |s|
  {
    if s != [] && IsSpace(s[|s| - 1]) then TrimEnd(s[..|s| - 1]) else s
  }

  /** `TrimStart` drops a prefix of white space and stops at the first other character. */
  lemma {:induction false} TrimStartDrops(s: string)
    ensures var r := TrimStart(s);
      && |r| <= |s| && r == s[|s| - |r|..]
      && (r == [] || !IsSpace(r[0]))
      && (forall i :: 0 <= i < |s| - |r| ==> IsSpace(s[i]))
  {
    if s != [] && IsSpace(s[0]) {
      TrimStartDrops(s[1..]);
      var r := TrimStart(s[1..]);
      assert s[1..][|s| - 1 - |r|..] == s[|s| - |r|..];
    }
  }

  /** `TrimEnd` drops a suffix of white space and stops at the last other character. */
  lemma {:induction false} TrimEndDrops(s: string)
    ensures var r := TrimEnd(s);
      && |r| <= |s| && r == s[..|r|]
      && (r == [] || !IsSpace(r[|r| - 1]))
      && (forall i :: |r| <= i < |s| ==> IsSpace(s[i]))
  {
    if s != [] && IsSpace(s[|s| - 1]) {
      TrimEndDrops(s[..|s| - 1]);
      var r := TrimEnd(s[..|s| - 1]);
      assert s[..|s| - 1][..|r|] == s[..|r|];
    }
  }

  /** `s.trim()`: `s` without its leading and trailing white space. */
  function Trim(s: string): string {
    TrimEnd(TrimStart(s))
  }

  /**
   * `trim()` keeps a middle slice of `s` whose ends are not white space,
   * and what it drops on either side is all white space.
   */
  lemma TrimSlice(s: string)
    ensures var r := Trim(s);
      && (r == [] || (!IsSpace(r[0]) && !IsSpace(r[|r| - 1])))
      && var i := |s| - |TrimStart(s)|;
      && i + |r| <= |s| && r == s[i..i + |r|]
      && (forall k :: 0 <= k < i ==> IsSpace(s[k]))
      && (forall k :: i + |r| <= k < |s| ==> IsSpace(s[k]))
  {
    var t := TrimStart(s);
    TrimStartDrops(s);
    TrimEndDrops(t);
    var r := TrimEnd(t);
    assert r == [] || r[0] == t[0];
  }

  /** Every character is white space. */
  predicate Blank(s: string) {
    forall k :: 0 <= k < |s| ==> IsSpace(s[k])
  }

  /** A name trims to empty exactly when it is all white space. */
  lemma TrimEmptyIffBlank(s: string)
    ensures Trim(s) == [] <==> Blank(s)
  {
    TrimSlice(s);
    var i := |s| - |TrimStart(s)|;
    var r := Trim(s);
    if r != [] {
      assert s[i] == r[0];
    }
  }

  lemma TrimIdempotent(s: string)
    ensures Trim(Trim(s)) == Trim(s)
  {
    TrimSlice(s);
    var r := Trim(s);
    assert TrimStart(r) == r;
    assert TrimEnd(r) == r;
  }

  // ------------------------------------------------------------ transitions

  /** `quitGame`: leave the room if there is one, and return to the main screen. */
  function QuitGame(s: Session): (r: Session)
    ensures r.gameState == Main && !r.isReady && r.rounds == [] && r.selectedChoice.None?
    ensures s.socket && HasRoom(s.roomId) ==>
      r.roomId.None? && r.outbox == s.outbox + [QuitGameMsg(s.roomId.value)]
    ensures !(s.socket && HasRoom(s.roomId)) ==> r.roomId == s.roomId && r.outbox == s.outbox
    ensures r == s.(gameState := Main, isReady := false, rounds := [], selectedChoice := None,
                    roomId := r.roomId, outbox := r.outbox)
  {
    var s1 := if s.socket && HasRoom(s.roomId)
      then s.(outbox := s.outbox + [QuitGameMsg(s.roomId.value)], roomId := None)
      else s;
    s1.(isReady := false, gameState := Main, rounds := [], selectedChoice := None)
  }

  /** Quitting twice is quitting once: the second call finds no room to leave. */
  lemma QuitGameIdempotent(s: Session)
    ensures QuitGame(QuitGame(s)) == QuitGame(s)
  {
  }

  /** `changeGameState`: leaving a session runs the quit effects; the new state is always set. */
  function ChangeGameState(s: Session, newState: GameState): (r: Session)
    ensures r.gameState == newState
    ensures InSession(s.gameState) && !InSession(newState) ==> r == QuitGame(s).(gameState := newState)
    ensures !(InSession(s.gameState) && !InSession(newState)) ==> r == s.(gameState := newState)
  {
    var s1 := if InSession(s.gameState) && !InSession(newState) then QuitGame(s) else s;
    s1.(gameState := newState)
  }

  /** The quit message goes out exactly when a session with a socket and a room is left. */
  lemma ChangeGameStateEmitsQuit(s: Session, newState: GameState)
    ensures var r := ChangeGameState(s, newState);
      (r.outbox != s.outbox <==> InSession(s.gameState) && !InSession(newState) && s.socket && HasRoom(s.roomId))
      && (r.outbox == s.outbox || r.outbox == s.outbox + [QuitGameMsg(s.roomId.value)])
  {
    var r := ChangeGameState(s, newState);
    if InSession(s.gameState) && !InSession(newState) && s.socket && HasRoom(s.roomId) {
      assert r.outbox[|s.outbox|] == QuitGameMsg(s.roomId.value);
    }
  }

  /** Setting the state it is already in changes nothing. */
  lemma ChangeGameStateIdempotent(s: Session, newState: GameState)
    ensures var r := ChangeGameState(s, newState); ChangeGameState(r, newState) == r
  {
  }

  /** `joinRoom`: ask to join, remember the room and show the lobby; nothing without a socket. */
  function JoinRoom(s: Session, roomId: string): (r: Session)
    ensures !s.socket ==> r == s
    ensures s.socket ==> r.gameState == Lobby && r.roomId == Some(roomId)
    ensures s.socket ==> r.outbox == s.outbox + [JoinRoomMsg(roomId)]
    ensures s.socket ==> r == s.(outbox := r.outbox, roomId := Some(roomId), gameState := Lobby)
  {
    if s.socket then
      ChangeGameState(s.(outbox := s.outbox + [JoinRoomMsg(roomId)], roomId := Some(roomId)), Lobby)
    else s
  }

  /** `startGame`: clear the history and ask for a room. */
  function StartGame(s: Session, mode: string): (r: Session)
    ensures r.rounds == []
    ensures r.outbox == s.outbox + (if s.socket then [CreateRoomMsg(mode)] else [])
    ensures r == s.(rounds := [], outbox := r.outbox)
  {
    s.(rounds := [], outbox := s.outbox + if s.socket then [CreateRoomMsg(mode)] else [])
  }

  /** The status word `handleReady` sends for a readiness value. */
  function ReadyStatus(ready: bool): string {
    if ready then "ready" else "waiting"
  }

  /** `handleReady`: toggle readiness and tell the room; nothing without a socket and a room. */
  function HandleReady(s: Session): (r: Session)
    ensures !(s.socket && HasRoom(s.roomId)) ==> r == s
    ensures s.socket && HasRoom(s.roomId) ==>
      r.isReady == !s.isReady
      && r.outbox == s.outbox + [PlayerReadyMsg(s.roomId, ReadyStatus(r.isReady))]
      && r == s.(isReady := r.isReady, outbox := r.outbox)
  {
    if s.socket && HasRoom(s.roomId) then
      var newStatus := !s.isReady;
      s.(isReady := newStatus, outbox := s.outbox + [PlayerReadyMsg(s.roomId, ReadyStatus(newStatus))])
    else s
  }

  /** Two clicks restore readiness and send one "ready" and one "waiting", in click order. */
  lemma HandleReadyTwice(s: Session)
    requires s.socket && HasRoom(s.roomId)
    ensures var r := HandleReady(HandleReady(s));
      r.isReady == s.isReady
      && |r.outbox| == |s.outbox| + 2 && r.outbox[..|s.outbox|] == s.outbox
      && r.outbox[|s.outbox|].status != r.outbox[|s.outbox| + 1].status
      && {r.outbox[|s.outbox|].status, r.outbox[|s.outbox| + 1].status} == {"ready", "waiting"}
      && r == s.(outbox := r.outbox)
  {
    var r1 := HandleReady(s);
    var r := HandleReady(r1);
    assert r.outbox == s.outbox + [PlayerReadyMsg(s.roomId, ReadyStatus(!s.isReady)),
                                   PlayerReadyMsg(s.roomId, ReadyStatus(s.isReady))];
    assert "ready" != "waiting" by { assert "ready"[0] != "waiting"[0]; }
  }

  /** `handleChoice`: select a move, mark ready, and send both the readiness and the move. */
  function HandleChoice(s: Session, choice: string): (r: Session)
    ensures r.selectedChoice == Some(choice) && r.isReady
    ensures r.outbox == s.outbox
      + (if s.socket then [PlayerReadyMsg(s.roomId, "ready")] else [])
      + (if s.socket && HasRoom(s.roomId) then [MakeMoveMsg(s.roomId.value, choice)] else [])
    ensures r == s.(selectedChoice := Some(choice), isReady := true, outbox := r.outbox)
  {
    var ready := if s.socket then [PlayerReadyMsg(s.roomId, "ready")] else [];
    var move := if s.socket && HasRoom(s.roomId) then [MakeMoveMsg(s.roomId.value, choice)] else [];
    s.(selectedChoice := Some(choice), isReady := true, outbox := s.outbox + ready + move)
  }

  /** `updateNameInput`: take the typed text and clear the error. */
  function UpdateNameInput(s: Session, value: string): (r: Session)
    ensures r.name == value && r.nameError == ""
    ensures r == s.(name := value, nameError := "")
  {
    s.(nameError := "", name := value)
  }

  /**
   * `handleEditOrSave`: outside editing, start editing; while editing,
   * refuse a blank name, otherwise send the trimmed name.
   */
  function HandleEditOrSave(s: Session): (r: Session)
    ensures !s.editingName ==> r == s.(editingName := true)
    ensures s.editingName && Trim(s.name) == [] ==> r == s.(nameError := NAME_EMPTY)
    ensures s.editingName && Trim(s.name) != [] ==>
      r == s.(outbox := s.outbox + if s.socket then [SetNameMsg(Trim(s.name))] else [])
  {
    if s.editingName then
      if Trim(s.name) == "" then s.(nameError := NAME_EMPTY)
      else s.(outbox := s.outbox + if s.socket then [SetNameMsg(Trim(s.name))] else [])
    else s.(editingName := true)
  }

  /** A name as the server is sent it: not empty, and no white space at either end. */
  predicate CleanName(n: string) {
    n != [] && !IsSpace(n[0]) && !IsSpace(n[|n| - 1])
  }

  /**
   * Saving emits at most one message, and only a non-blank name with no
   * white space at either end; a blank name emits nothing and reports why.
   */
  lemma HandleEditOrSaveSendsCleanName(s: Session)
    requires s.editingName
    ensures var r := HandleEditOrSave(s);
      && (r.outbox != s.outbox <==> s.socket && !Blank(s.name))
      && (r.outbox != s.outbox ==>
            |r.outbox| == |s.outbox| + 1 && r.outbox[..|s.outbox|] == s.outbox
            && r.outbox[|s.outbox|].SetNameMsg? && CleanName(r.outbox[|s.outbox|].name)
            && r.nameError == s.nameError)
      && (r.outbox == s.outbox && s.socket ==> r.nameError == NAME_EMPTY)
  {
    TrimEmptyIffBlank(s.name);
    TrimSlice(s.name);
    var t := Trim(s.name);
    if t != [] && s.socket {
      var out := s.outbox + [SetNameMsg(t)];
      assert out[|s.outbox|] == SetNameMsg(t);
      assert out[..|s.outbox|] == s.outbox;
    }
  }

  /** `handleSort`: the clicked table gets its next configuration; the other table keeps its own. */
  function HandleSort(s: Session, key: string, table: string): (r: Session)
    ensures table == "leaderboard" ==> r == s.(leaderboardSort := NextSortConfig(s.leaderboardSort, key))
    ensures table == "rooms" ==> r == s.(roomsSort := NextSortConfig(s.roomsSort, key))
    ensures table != "leaderboard" && table != "rooms" ==> r == s
  {
    if table == "leaderboard" then s.(leaderboardSort := NextSortConfig(s.leaderboardSort, key))
    else if table == "rooms" then s.(roomsSort := NextSortConfig(s.roomsSort, key))
    else s
  }

  // ------------------------------------------------------- socket handlers

  /** The mount effect that reads `localStorage`: a non-empty stored name replaces the current one. */
  function RestoreName(s: Session, stored: Option<string>): (r: Session)
    ensures stored.Some? && stored.value != "" ==> r == s.(name := stored.value)
    ensures stored.None? || stored.value == "" ==> r == s
  {
    if stored.Some? && stored.value != "" then s.(name := stored.value) else s
  }

  /** On `connect`: use the stored name, or the generated one when none is stored, and announce it. */
  function OnConnect(s: Session, stored: Option<string>, generated: string): (r: Session)
    ensures r.name == (if stored.Some? && stored.value != "" then stored.value else generated)
    ensures r == s.(name := r.name, outbox := s.outbox + [SetNameMsg(r.name)])
  {
    var name := if stored.Some? && stored.value != "" then stored.value else generated;
    s.(name := name, outbox := s.outbox + [SetNameMsg(name)])
  }

  /** On `name_taken`: show the server's message and reopen the name editor. */
  function OnNameTaken(s: Session, message: string): (r: Session)
    ensures r == s.(nameError := message, editingName := true)
  {
    s.(nameError := message, editingName := true)
  }

  /** On `name_set`: close the name editor. */
  function OnNameSet(s: Session): (r: Session)
    ensures r == s.(editingName := false)
  {
    s.(editingName := false)
  }

  function OnLeaderboardUpdated(s: Session, board: seq<Row>): (r: Session)
    ensures r == s.(leaderboard := board)
  {
    s.(leaderboard := board)
  }

  /** On `game_start`: remember the players and the room, and show the game. */
  function OnGameStart(s: Session, roomId: string, players: seq<string>): (r: Session)
    ensures r.gameState == Running && r.roomId == Some(roomId) && r.players == players
    ensures r == s.(players := players, roomId := Some(roomId), gameState := Running)
  {
    ChangeGameState(s.(players := players, roomId := Some(roomId)), Running)
  }

  /** On `lobby`: remember the new room and show the lobby. */
  function OnLobby(s: Session, roomId: string): (r: Session)
    ensures r.gameState == Lobby && r.roomId == Some(roomId)
    ensures r == s.(roomId := Some(roomId), gameState := Lobby)
  {
    ChangeGameState(s.(roomId := Some(roomId)), Lobby)
  }

  /** `moves[i]`, or nothing when the server sent fewer moves. */
  function MoveAt(moves: seq<string>, i: nat): (m: Option<string>)
    ensures m.Some? <==> i < |moves|
    ensures m.Some? ==> m.value == moves[i]
  {
    if i < |moves| then Some(moves[i]) else None
  }

  /**
   * On `game_result`: append the round; a final result then moves to the
   * game-over screen, any other clears the selected move.
   */
  function OnGameResult(s: Session, winner: string, gameOver: bool, moves: seq<string>): (r: Session)
    ensures var round := Round(winner, MoveAt(moves, 0), MoveAt(moves, 1));
      (!gameOver ==> r == s.(rounds := s.rounds + [round], selectedChoice := None))
      && (gameOver ==> r == ChangeGameState(s.(rounds := s.rounds + [round]), GameOver))
  {
    var round := Round(winner, MoveAt(moves, 0), MoveAt(moves, 1));
    var s1 := s.(rounds := s.rounds + [round]);
    if gameOver then ChangeGameState(s1, GameOver) else s1.(selectedChoice := None)
  }

  /**
   * A result adds exactly one round at the end of the history, carrying the
   * winner and the two moves, unless a final result arrives during a session:
   * then the quit effects of leaving the session clear the history.
   */
  lemma OnGameResultRecordsRound(s: Session, winner: string, gameOver: bool, moves: seq<string>)
    ensures var r := OnGameResult(s, winner, gameOver, moves);
      (gameOver ==> r.gameState == GameOver)
      && (!gameOver ==> r.gameState == s.gameState && r.selectedChoice.None?)
      && (!gameOver || !InSession(s.gameState) ==>
            |r.rounds| == |s.rounds| + 1 && r.rounds[..|s.rounds|] == s.rounds
            && r.rounds[|s.rounds|].winner == winner
            && (|moves| >= 2 ==> r.rounds[|s.rounds|].move1 == Some(moves[0]) && r.rounds[|s.rounds|].move2 == Some(moves[1])))
      && (gameOver && InSession(s.gameState) ==> r.rounds == [] && !r.isReady && r.selectedChoice.None?)
  {
    var round := Round(winner, MoveAt(moves, 0), MoveAt(moves, 1));
    var r := OnGameResult(s, winner, gameOver, moves);
    if !gameOver || !InSession(s.gameState) {
      assert r.rounds == s.rounds + [round];
    }
  }

  /** A row of the rooms table for one room of a `rooms_updated` event. */
  function ToRow(u: RoomUpdate): RoomRow {
    RoomRow(u.roomId, u.status, |u.players|, u.players)
  }

  /** The `rooms_updated` transform: one row per room, in order, counting each room's players. */
  function TransformRooms(updates: seq<RoomUpdate>): (r: seq<RoomRow>)
    ensures |r| == |updates|
    ensures forall i :: 0 <= i < |r| ==>
      r[i].roomId == updates[i].roomId && r[i].status == updates[i].status
      && r[i].players == updates[i].players && r[i].numPlayers == |updates[i].players|
  {
    if updates == [] then [] else [ToRow(updates[0])] + TransformRooms(updates[1..])
  }

  function OnRoomsUpdated(s: Session, updates: seq<RoomUpdate>): (r: Session)
    ensures r == s.(rooms := TransformRooms(updates))
  {
    s.(rooms := TransformRooms(updates))
  }

  // ----------------------------------------------------------- sorted views

  /** A leaderboard row's value in column `key`; a missing field is `undefined`. */
  function LeaderboardCell(key: string): Row -> Cell {
    (row: Row) => if key in row then row[key] else Opaque
  }

  function RoomCell(key: string): RoomRow -> Cell {
    (row: RoomRow) => row.Field(key)
  }

  /** `sortedLeaderboard`: a sorted copy of the stored leaderboard. */
  function SortedLeaderboard(s: Session): (r: seq<Row>)
    ensures multiset(r) == multiset(s.leaderboard)
  {
    SortView(s.leaderboard, LeaderboardCell(s.leaderboardSort.key), s.leaderboardSort.direction)
  }

  /** `sortedRooms`: a sorted copy of the stored rooms. */
  function SortedRooms(s: Session): (r: seq<RoomRow>)
    ensures multiset(r) == multiset(s.rooms)
  {
    SortView(s.rooms, RoomCell(s.roomsSort.key), s.roomsSort.direction)
  }

  /**
   * The leaderboard view holds the stored rows, each as often as stored;
   * rows with the same value in the sort column keep their stored order;
   * and when the column holds values of one kind, the view is ordered.
   */
  lemma SortedLeaderboardSpec(s: Session, c: Cell)
    ensures var v, key, dir := SortedLeaderboard(s), LeaderboardCell(s.leaderboardSort.key), s.leaderboardSort.direction;
      multiset(v) == multiset(s.leaderboard)
      && WithCell(v, key, c) == WithCell(s.leaderboard, key, c)
      && (Uniform(s.leaderboard, key) ==> Ordered(v, key, dir))
  {
    var key, dir := LeaderboardCell(s.leaderboardSort.key), s.leaderboardSort.direction;
    SortViewStable(s.leaderboard, key, dir, c);
    if Uniform(s.leaderboard, key) {
      SortViewOrdered(s.leaderboard, key, dir);
    }
  }

  /** The rooms view: the same rooms, stable on ties, ordered by the chosen column. */
  lemma SortedRoomsSpec(s: Session, c: Cell)
    ensures var v, key, dir := SortedRooms(s), RoomCell(s.roomsSort.key), s.roomsSort.direction;
      multiset(v) == multiset(s.rooms)
      && WithCell(v, key, c) == WithCell(s.rooms, key, c)
      && Ordered(v, key, dir)
  {
    var key, dir := RoomCell(s.roomsSort.key), s.roomsSort.direction;
    SortViewStable(s.rooms, key, dir, c);
    RoomColumnsUniform(s.rooms, s.roomsSort.key);
    SortViewOrdered(s.rooms, key, dir);
  }

  /** Every column of the rooms table holds values of one kind. */
  lemma RoomColumnsUniform(rows: seq<RoomRow>, key: string)
    ensures Uniform(rows, RoomCell(key))
  {
    forall i, j | 0 <= i < |rows| && 0 <= j < |rows|
      ensures SameKind(RoomCell(key)(rows[i]), RoomCell(key)(rows[j]))
    {
      var a, b := rows[i].Field(key), rows[j].Field(key);
      assert RoomCell(key)(rows[i]) == a && RoomCell(key)(rows[j]) == b;
    }
  }
}
