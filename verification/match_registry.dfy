/**
 * The match server's room table (`rooms` in the server) as a value, and
 * what each socket handler does to it: find a match, make a move, cancel a
 * search, disconnect, and the delayed removal of a room an opponent left.
 * Session ids (`request.sid`) and fresh room ids (`uuid4`) come in as
 * parameters; what the handlers emit comes out as `Emit` values.
 */
module MatchRegistry {
  import opened Options
  import opened OrderedMaps
  import opened Referee

  type Sid = string
  type RoomId = string
  type Move = string

  const DRAW := "Draw"
  const INVALID_ROOM := "Invalid room ID"
  const NOT_IN_ROOM := "You are not in this room"

  datatype Status = Waiting | Running

  /**
   * One room. `step` holds each player's move of the round (None until the
   * player moves); the dictionary's extra "winner" entry is kept apart as
   * `winner`.
   */
  datatype Room = Room(status: Status, players: seq<Sid>, step: map<Sid, Option<Move>>, winner: Option<string>)

  type Rooms = OrderedMap<RoomId, Room>

  /** What the handlers send: to a room, to one client, or to a room but the sender. */
  datatype Emit =
    | MatchFound(room: RoomId)
    | WaitingFor(to: Sid, room: RoomId)
    | MoveReceived(room: RoomId, player: Sid, move: Option<Move>)
    | GameResult(to: Sid, yourMove: Move, opponentMove: Move, result: string)
    | Error(to: Sid, message: string)
    | OpponentLeft(to: Sid)
    | ReturnToMenu(to: Sid)

  /** A removal scheduled by a disconnect: the room, and the player left in it. */
  datatype Removal = Removal(room: RoomId, remaining: Sid)

  /** A room a searching player can join. */
  predicate Open(room: Room) {
    room.status == Waiting && |room.players| == 1
  }

  function HasPlayer(sid: Sid): Room -> bool {
    (room: Room) => sid in room.players
  }

  /** Every player of the room has a move recorded. */
  predicate AllMoved(room: Room) {
    forall p :: p in room.players ==> p in room.step && room.step[p].Some?
  }

  /**
   * What holds of every room in the table: one or two players, one while
   * waiting, a step entry for each player, and no winner (a room is deleted
   * in the same handler that records its winner).
   */
  ghost predicate RoomOk(room: Room) {
    && 1 <= |room.players| <= 2
    && (room.status == Waiting ==> |room.players| == 1)
    && (forall p :: p in room.players ==> p in room.step)
    && room.winner == None
  }

  /** At most one room waits for an opponent. */
  ghost predicate AtMostOneOpen(t: Rooms) {
    forall a, b :: a in t.values && b in t.values && Open(t.values[a]) && Open(t.values[b]) ==> a == b
  }

  ghost predicate Valid(t: Rooms) {
    && t.Valid()
    && (forall id :: id in t.values ==> RoomOk(t.values[id]))
    && AtMostOneOpen(t)
  }

  /** `list.index(x)`: the position of the first occurrence of `x`. */
  function IndexOf(s: seq<Sid>, x: Sid): (i: nat)
    requires x in s
    ensures i < |s| && s[i] == x && x !in s[..i]
  {
    if s[0] == x then 0
    else
      var i := IndexOf(s[1..], x);
      assert s[..i + 1] == [s[0]] + s[1..][..i];
      i + 1
  }

  /** `list.remove(x)`: the first occurrence of `x` taken out, the rest in order. */
  function RemoveFirst(s: seq<Sid>, x: Sid): (r: seq<Sid>)
    ensures x !in s ==> r == s
    ensures x in s ==> r == s[..IndexOf(s, x)] + s[IndexOf(s, x) + 1..]
    ensures x in s ==> |r| == |s| - 1 && multiset(r) == multiset(s) - multiset{x}
  {
    if x in s then
      var i := IndexOf(s, x);
      assert s == s[..i] + [x] + s[i + 1..];
      s[..i] + s[i + 1..]
    else s
  }

  function Join(room: Room, sid: Sid): Room {
    room.(players := room.players + [sid], status := Running, step := room.step[sid := None])
  }

  function NewRoom(sid: Sid): Room {
    Room(Waiting, [sid], map[sid := None], None)
  }

  /**
   * `find_match`: the first open room in table order takes the player and
   * starts; with no open room, a new waiting room is stored under
   * `freshId`. Nothing else changes.
   */
  function FindMatch(t: Rooms, sid: Sid, freshId: RoomId): (r: (Rooms, Emit))
    requires Valid(t)
    ensures Valid(r.0)
  {
    match t.FirstWhere(Open)
    case Some(k) =>
      var id := t.keys[k];
      var r := t.Put(id, Join(t.values[id], sid));
      assert forall a :: a in r.values ==> !Open(r.values[a]) by {
        forall a | a in r.values ensures !Open(r.values[a]) {
          if a != id {
            assert r.values[a] == t.values[a];
          }
        }
      }
      (r, MatchFound(id))
    case None =>
      (t.Put(freshId, NewRoom(sid)), WaitingFor(sid, freshId))
  }

  /**
   * With an open room, the searcher joins the first one in insertion order:
   * that room starts running with the searcher second, and no other room
   * changes.
   */
  lemma FindMatchJoinsFirstOpen(t: Rooms, sid: Sid, freshId: RoomId)
    requires Valid(t) && t.FirstWhere(Open).Some?
    ensures var (r, emit) := FindMatch(t, sid, freshId);
      var id := t.keys[t.FirstWhere(Open).value];
      && (forall j :: 0 <= j < t.FirstWhere(Open).value ==> !Open(t.values[t.keys[j]]))
      && r.keys == t.keys
      && (forall other :: other != id ==> r.Get(other) == t.Get(other))
      && id in r.values
      && r.values[id].status == Running
      && r.values[id].players == t.values[id].players + [sid]
      && r.values[id].step == t.values[id].step[sid := None]
      && emit == MatchFound(id)
  { }

  /**
   * With no open room, a new waiting room holding only the searcher is
   * stored under `freshId`, and no other room changes.
   */
  lemma FindMatchOpensRoom(t: Rooms, sid: Sid, freshId: RoomId)
    requires Valid(t) && t.FirstWhere(Open).None?
    ensures var (r, emit) := FindMatch(t, sid, freshId);
      && (forall id :: id in t.values ==> !Open(t.values[id]))
      && (forall other :: other != freshId ==> r.Get(other) == t.Get(other))
      && r.Get(freshId) == Some(Room(Waiting, [sid], map[sid := None], None))
      && (freshId !in t.values ==> r.keys == t.keys + [freshId])
      && emit == WaitingFor(sid, freshId)
  { }

  /** The outcome of a `make_move`, beside the new table and what was emitted. */
  datatype MoveOutcome =
    | InvalidRoom
    | NotInRoom
    | Recorded
    /** The round was decided; the room as it stood when it was deleted. */
    | Finished(room: Room)
    /** Every player moved but the room has one player: unpacking it into two raises, after the move was stored. */
    | Crashed

  datatype MoveResult = MoveResult(rooms: Rooms, emits: seq<Emit>, outcome: MoveOutcome)

  /** The winner that the referee's verdicts name. */
  function WinnerOf(p1: Sid, p2: Sid, verdicts: (Verdict, Verdict)): string {
    if verdicts.0 == Win then p1 else if verdicts.1 == Win then p2 else DRAW
  }

  /**
   * The winner recorded for two moves: "Draw" for equal moves, the first
   * player when the rule table says its move beats the other, and the
   * second player otherwise, an unknown move included.
   */
  lemma WinnerFollowsMoves(p1: Sid, p2: Sid, m1: Move, m2: Move)
    ensures var w := WinnerOf(p1, p2, DetermineResult(m1, m2));
      && (m1 == m2 ==> w == DRAW)
      && (m1 != m2 && Beats(m1) == Some(m2) ==> w == p1)
      && (m1 != m2 && Beats(m1) != Some(m2) ==> w == p2)
  { }

  /**
   * The recorded winner of a decided two-player room: "Draw" for equal
   * moves, otherwise the first player exactly when the first move beats
   * the second in the rule table.
   */
  ghost predicate Refereed(room: Room) {
    && |room.players| == 2
    && AllMoved(room)
    && var m1 := room.step[room.players[0]].value;
       var m2 := room.step[room.players[1]].value;
       && (m1 == m2 ==> room.winner == Some(DRAW))
       && (m1 != m2 && Beats(m1) == Some(m2) ==> room.winner == Some(room.players[0]))
       && (m1 != m2 && Beats(m1) != Some(m2) ==> room.winner == Some(room.players[1]))
  }

  /**
   * `make_move`: an unknown room or a non-participant gets an error and
   * nothing changes; otherwise the move is stored, and once both players
   * have moved the round is refereed, both players are told their verdict
   * and the room is deleted.
   */
  function MakeMove(t: Rooms, sid: Sid, roomId: RoomId, move: Option<Move>): (r: MoveResult)
    requires Valid(t)
    ensures Valid(r.rooms)
    ensures roomId !in t.values ==> r == MoveResult(t, [Error(sid, INVALID_ROOM)], InvalidRoom)
    ensures roomId in t.values && sid !in t.values[roomId].players ==>
      r == MoveResult(t, [Error(sid, NOT_IN_ROOM)], NotInRoom)
  {
    if roomId !in t.values then MoveResult(t, [Error(sid, INVALID_ROOM)], InvalidRoom)
    else
      var room := t.values[roomId];
      if sid !in room.players then MoveResult(t, [Error(sid, NOT_IN_ROOM)], NotInRoom)
      else
        var moved := room.(step := room.step[sid := move]);
        var received := [MoveReceived(roomId, sid, move)];
        if !AllMoved(moved) then MoveResult(t.Put(roomId, moved), received, Recorded)
        else if |moved.players| != 2 then MoveResult(t.Put(roomId, moved), received, Crashed)
        else
          var p1, p2 := moved.players[0], moved.players[1];
          var m1, m2 := moved.step[p1].value, moved.step[p2].value;
          var verdicts := DetermineResult(m1, m2);
          var finished := moved.(winner := Some(WinnerOf(p1, p2, verdicts)));
          MoveResult(
            t.Delete(roomId),
            received + [GameResult(p1, m1, m2, Text(verdicts.0)), GameResult(p2, m2, m1, Text(verdicts.1))],
            Finished(finished))
  }

  /**
   * A move from a player of the room is recorded in its step map and
   * acknowledged first, and while the round is not finished the
   * acknowledgement is the only message; the room is deleted exactly when
   * both players of a two-player room have moved, and no other room changes.
   */
  lemma MakeMoveRecords(t: Rooms, sid: Sid, roomId: RoomId, move: Option<Move>)
    requires Valid(t) && roomId in t.values && sid in t.values[roomId].players
    ensures var r := MakeMove(t, sid, roomId, move);
      var moved := t.values[roomId].(step := t.values[roomId].step[sid := move]);
      && (forall other :: other != roomId ==> r.rooms.Get(other) == t.Get(other))
      && (roomId !in r.rooms.values <==> AllMoved(moved) && |moved.players| == 2)
      && (roomId in r.rooms.values ==> r.rooms.keys == t.keys && r.rooms.values[roomId] == moved)
      && (roomId !in r.rooms.values ==> r.rooms.keys == Without(t.keys, roomId))
      && |r.emits| >= 1 && r.emits[0] == MoveReceived(roomId, sid, move)
      && ((r.outcome.Recorded? || r.outcome.Crashed?) ==> r.emits == [MoveReceived(roomId, sid, move)])
      && (r.outcome.Crashed? <==> AllMoved(moved) && |moved.players| == 1)
      && (r.outcome.Recorded? <==> !AllMoved(moved))
  { }

  /**
   * A finished round is the stored room with this move recorded; it names
   * its winner consistently with the referee, each player is sent its own
   * verdict after the acknowledgement, and the room leaves the table with
   * the others keeping their order.
   */
  lemma MakeMoveFinishes(t: Rooms, sid: Sid, roomId: RoomId, move: Option<Move>)
    requires Valid(t) && MakeMove(t, sid, roomId, move).outcome.Finished?
    ensures var r := MakeMove(t, sid, roomId, move);
      && roomId in t.values && sid in t.values[roomId].players
      && r.outcome.room.status == t.values[roomId].status
      && r.outcome.room.players == t.values[roomId].players
      && r.outcome.room.step == t.values[roomId].step[sid := move]
      && r.rooms.keys == Without(t.keys, roomId)
      && Refereed(r.outcome.room)
      && var room := r.outcome.room;
         var verdicts := DetermineResult(room.step[room.players[0]].value, room.step[room.players[1]].value);
         r.emits[1..] == [
           GameResult(room.players[0], room.step[room.players[0]].value, room.step[room.players[1]].value, Text(verdicts.0)),
           GameResult(room.players[1], room.step[room.players[1]].value, room.step[room.players[0]].value, Text(verdicts.1))]
  { }

  /** Takes `player` out of the room; a room left empty is deleted. */
  function Leave(t: Rooms, roomId: RoomId, player: Sid): (r: Rooms)
    requires Valid(t) && roomId in t.values && player in t.values[roomId].players
    ensures Valid(r)
    ensures var left := RemoveFirst(t.values[roomId].players, player);
      && (forall other :: other != roomId ==> r.Get(other) == t.Get(other))
      && (roomId in r.values <==> left != [])
      && (left != [] ==> r.keys == t.keys && r.values[roomId] == t.values[roomId].(players := left))
      && (left == [] ==> r.keys == Without(t.keys, roomId))
  {
    var room := t.values[roomId];
    var left := RemoveFirst(room.players, player);
    if left == [] then t.Delete(roomId)
    else
      var r := t.Put(roomId, room.(players := left));
      assert RoomOk(r.values[roomId]) by {
        forall p | p in left ensures p in room.step {
          assert p in multiset(left);
        }
      }
      assert AtMostOneOpen(r) by {
        forall a | a in r.values && Open(r.values[a]) ensures a != roomId { }
      }
      r
  }

  /**
   * `cancel_find_match`: the named player leaves the named room (the room
   * is deleted when it becomes empty); an unknown room or a player not in
   * it changes nothing.
   */
  function Cancel(t: Rooms, roomId: RoomId, playerId: Sid): (r: Rooms)
    requires Valid(t)
    ensures Valid(r)
    ensures roomId !in t.values || playerId !in t.values[roomId].players ==> r == t
    ensures roomId in t.values && playerId in t.values[roomId].players ==>
      var left := RemoveFirst(t.values[roomId].players, playerId);
      && (forall other :: other != roomId ==> r.Get(other) == t.Get(other))
      && (roomId in r.values <==> left != [])
      && (left != [] ==> r.keys == t.keys && r.values[roomId] == t.values[roomId].(players := left))
      && (left == [] ==> r.keys == Without(t.keys, roomId))
  {
    if roomId in t.values && playerId in t.values[roomId].players then Leave(t, roomId, playerId)
    else t
  }

  /**
   * `disconnect`: the player leaves the first room, in table order, that
   * lists them, and no other room. A room left empty is deleted; a room
   * with a player left gets a removal scheduled for that player.
   */
  function Disconnect(t: Rooms, sid: Sid): (r: (Rooms, Option<Removal>))
    requires Valid(t)
    ensures Valid(r.0)
  {
    match t.FirstWhere(HasPlayer(sid))
    case None => (t, None)
    case Some(k) =>
      var id := t.keys[k];
      var left := RemoveFirst(t.values[id].players, sid);
      (Leave(t, id, sid), if left == [] then None else Some(Removal(id, left[0])))
  }

  /**
   * The player leaves the first room, in table order, that lists them, and
   * no other room. A room left empty is deleted; a room with a player left
   * gets a removal scheduled for that player.
   */
  lemma DisconnectFirstRoomOnly(t: Rooms, sid: Sid)
    requires Valid(t)
    ensures var (r, removal) := Disconnect(t, sid);
      match t.FirstWhere(HasPlayer(sid))
      case None =>
        && (forall id :: id in t.values ==> sid !in t.values[id].players)
        && r == t && removal == None
      case Some(k) =>
        var id := t.keys[k];
        var left := RemoveFirst(t.values[id].players, sid);
        && (forall j :: 0 <= j < k ==> sid !in t.values[t.keys[j]].players)
        && sid in t.values[id].players
        && (forall other :: other != id ==> r.Get(other) == t.Get(other))
        && (id in r.values <==> left != [])
        && (left != [] ==> r.keys == t.keys && r.values[id] == t.values[id].(players := left))
        && (left == [] ==> r.keys == Without(t.keys, id))
        && removal == (if left == [] then None else Some(Removal(id, left[0])))
  {
  }

  /**
   * The removal a disconnect scheduled, once its delay is over: if the room
   * still exists it is deleted and the remaining player is told the
   * opponent left and sent back to the menu.
   */
  function DelayedRemove(t: Rooms, removal: Removal): (r: (Rooms, seq<Emit>))
    requires Valid(t)
    ensures Valid(r.0)
    ensures r.0.Get(removal.room) == None
    ensures forall other :: other != removal.room ==> r.0.Get(other) == t.Get(other)
    ensures r.0.keys == Without(t.keys, removal.room)
    ensures removal.room in t.values ==> r.1 == [OpponentLeft(removal.remaining), ReturnToMenu(removal.remaining)]
    ensures removal.room !in t.values ==> r == (t, [])
  {
    if removal.room in t.values then
      (t.Delete(removal.room), [OpponentLeft(removal.remaining), ReturnToMenu(removal.remaining)])
    else (t, [])
  }

  /**
   * A player who searches twice, while no other room is open, is matched
   * with themself: the room it opened first takes it a second time.
   */
  lemma SearchTwiceMatchesSelf(t: Rooms, sid: Sid, id1: RoomId, id2: RoomId)
    requires Valid(t) && t.FirstWhere(Open).None? && id1 !in t.values
    ensures var t1 := FindMatch(t, sid, id1).0;
      && FindMatch(t1, sid, id2).1 == MatchFound(id1)
      && FindMatch(t1, sid, id2).0.values[id1].players == [sid, sid]
  {
    FindMatchOpensRoom(t, sid, id1);
    var t1 := FindMatch(t, sid, id1).0;
    assert Open(t1.values[id1]);
    var k := t1.FirstWhere(Open);
    assert k.Some? && t1.keys[k.value] == id1;
  }

  /** Every search ends with the player in a room: the one it joined or the one it opened. */
  lemma FindMatchSeats(t: Rooms, sid: Sid, freshId: RoomId)
    requires Valid(t)
    ensures var (r, e) := FindMatch(t, sid, freshId);
      && e.room in r.values
      && sid in r.values[e.room].players
      && (e.MatchFound? ==> r.values[e.room].status == Running && |r.values[e.room].players| == 2)
      && (e.WaitingFor? ==> Open(r.values[e.room]))
  {
    match t.FirstWhere(Open)
    case Some(k) =>
      assert RoomOk(t.values[t.keys[k]]);
    case None =>
  }
}
