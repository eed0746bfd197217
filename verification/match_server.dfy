/**
 * The match server's socket handlers over its room table, which they
 * update in place. Emitted events are appended to `outbox`; the removals a
 * disconnect schedules wait in `pending` until their delay is over.
 */
module MatchServer {
  import opened Options
  import opened OrderedMaps
  import opened MatchRegistry

  class Server {
    var rooms: Rooms
    var outbox: seq<Emit>
    var pending: seq<Removal>

    ghost predicate Valid() reads this {
      MatchRegistry.Valid(rooms)
    }

    constructor ()
      ensures Valid()
      ensures rooms == OrderedMap([], map[]) && outbox == [] && pending == []
    {
      rooms := OrderedMap([], map[]);
      outbox := [];
      pending := [];
    }

    /** `find_match` from client `sid`; `freshId` is the id a new room would get. */
    method HandleFindMatch(sid: Sid, freshId: RoomId)
      requires Valid()
      modifies this
      ensures Valid()
      ensures rooms == FindMatch(old(rooms), sid, freshId).0
      ensures outbox == old(outbox) + [FindMatch(old(rooms), sid, freshId).1]
      ensures pending == old(pending)
    {
      ghost var expected := FindMatch(rooms, sid, freshId);
      var i := 0;
      while i < |rooms.keys|
        invariant i <= |rooms.keys|
        invariant rooms == old(rooms) && outbox == old(outbox) && pending == old(pending)
        invariant forall j :: 0 <= j < i ==> !Open(rooms.values[rooms.keys[j]])
      {
        var roomId := rooms.keys[i];
        var info := rooms.values[roomId];
        if info.status == Waiting && |info.players| == 1 {
          assert rooms.FirstWhere(Open) == Some(i);
          info := info.(players := info.players + [sid]);
          info := info.(status := Running);
          info := info.(step := info.step[sid := None]);
          rooms := rooms.Put(roomId, info);
          outbox := outbox + [MatchFound(roomId)];
          assert rooms == expected.0 && MatchFound(roomId) == expected.1;
          return;
        }
        i := i + 1;
      }
      assert rooms.FirstWhere(Open).None?;
      rooms := rooms.Put(freshId, Room(Waiting, [sid], map[sid := None], None));
      outbox := outbox + [WaitingFor(sid, freshId)];
      assert rooms == expected.0;
    }

    /** `make_move` from client `sid`. */
    method HandleMakeMove(sid: Sid, roomId: RoomId, move: Option<Move>) returns (outcome: MoveOutcome)
      requires Valid()
      modifies this
      ensures Valid()
      ensures var r := MakeMove(old(rooms), sid, roomId, move);
        rooms == r.rooms && outbox == old(outbox) + r.emits && outcome == r.outcome
      ensures pending == old(pending)
    {
      ghost var expected := MakeMove(rooms, sid, roomId, move);
      if roomId !in rooms.values {
        outbox := outbox + [Error(sid, INVALID_ROOM)];
        return InvalidRoom;
      }
      var room := rooms.values[roomId];
      if sid !in room.players {
        outbox := outbox + [Error(sid, NOT_IN_ROOM)];
        return NotInRoom;
      }
      ghost var before := rooms;
      room := room.(step := room.step[sid := move]);
      rooms := rooms.Put(roomId, room);
      outbox := outbox + [MoveReceived(roomId, sid, move)];
      if !AllMoved(room) {
        assert rooms == expected.rooms;
        return Recorded;
      }
      if |room.players| != 2 {
        assert rooms == expected.rooms;
        return Crashed;
      }
      before.PutThenDelete(roomId, room);
      var finished := FinishRound(roomId, room);
      outcome := Finished(finished);
      assert rooms == expected.rooms && outcome == expected.outcome;
    }

    /**
     * The end of a round in a two-player room where both have moved: the
     * winner is recorded, each player is sent their verdict, and the room
     * is deleted. Returns the room as it was when deleted.
     */
    method FinishRound(roomId: RoomId, room: Room) returns (finished: Room)
      requires |room.players| == 2 && AllMoved(room)
      requires rooms.Valid() && roomId in rooms.values
      modifies this
      ensures var p1, p2 := room.players[0], room.players[1];
        var m1, m2 := room.step[p1].value, room.step[p2].value;
        var verdicts := Referee.DetermineResult(m1, m2);
        && finished == room.(winner := Some(WinnerOf(p1, p2, verdicts)))
        && outbox == old(outbox) + [GameResult(p1, m1, m2, Referee.Text(verdicts.0)), GameResult(p2, m2, m1, Referee.Text(verdicts.1))]
      ensures rooms == old(rooms).Delete(roomId) && pending == old(pending)
    {
      var player1, player2 := room.players[0], room.players[1];
      var move1, move2 := room.step[player1].value, room.step[player2].value;
      var (result1, result2) := Referee.DetermineResult(move1, move2);
      finished := room;
      if result1 == Referee.Win {
        finished := finished.(winner := Some(player1));
      } else if result2 == Referee.Win {
        finished := finished.(winner := Some(player2));
      } else {
        finished := finished.(winner := Some(DRAW));
      }
      outbox := outbox + [GameResult(player1, move1, move2, Referee.Text(result1))];
      outbox := outbox + [GameResult(player2, move2, move1, Referee.Text(result2))];
      rooms := rooms.Delete(roomId);
    }

    /**
     * What `cancel_find_match` and `disconnect` both do to a room: the
     * player is removed from its list, and a room left empty is deleted.
     */
    method RemovePlayer(roomId: RoomId, player: Sid) returns (left: seq<Sid>)
      requires Valid() && roomId in rooms.values && player in rooms.values[roomId].players
      modifies this
      ensures Valid()
      ensures rooms == Leave(old(rooms), roomId, player)
      ensures left == RemoveFirst(old(rooms).values[roomId].players, player)
      ensures outbox == old(outbox) && pending == old(pending)
    {
      ghost var expected := Leave(rooms, roomId, player);
      var room := rooms.values[roomId];
      room := room.(players := RemoveFirst(room.players, player));
      if room.players == [] {
        rooms := rooms.Delete(roomId);
      } else {
        rooms := rooms.Put(roomId, room);
      }
      left := room.players;
      assert rooms == expected;
    }

    /** `cancel_find_match` naming a room and a player. */
    method HandleCancelFindMatch(roomId: RoomId, playerId: Sid)
      requires Valid()
      modifies this
      ensures Valid()
      ensures rooms == Cancel(old(rooms), roomId, playerId)
      ensures outbox == old(outbox) && pending == old(pending)
    {
      if roomId in rooms.values {
        var room := rooms.values[roomId];
        if playerId in room.players {
          var _ := RemovePlayer(roomId, playerId);
        }
      }
    }

    /**
     * The `for room_id, room in rooms.items()` scan of the handlers: the
     * position, in insertion order, of the first room satisfying `p`.
     */
    method FirstRoom(p: Room -> bool) returns (found: Option<nat>)
      requires rooms.Valid()
      ensures found == rooms.FirstWhere(p)
    {
      var i := 0;
      while i < |rooms.keys|
        invariant i <= |rooms.keys|
        invariant rooms.FirstFrom(p, 0) == rooms.FirstFrom(p, i)
      {
        if p(rooms.values[rooms.keys[i]]) {
          return Some(i);
        }
        i := i + 1;
      }
      return None;
    }

    /** `disconnect` of client `sid`: the scan stops at the first room that lists it. */
    method HandleDisconnect(sid: Sid)
      requires Valid()
      modifies this
      ensures Valid()
      ensures var (t, removal) := Disconnect(old(rooms), sid);
        && rooms == t
        && pending == old(pending) + (if removal.Some? then [removal.value] else [])
      ensures outbox == old(outbox)
    {
      ghost var expected := Disconnect(rooms, sid);
      var found := FirstRoom(HasPlayer(sid));
      if found.Some? {
        var roomId := rooms.keys[found.value];
        assert HasPlayer(sid)(rooms.values[roomId]);
        ghost var rest := RemoveFirst(rooms.values[roomId].players, sid);
        assert expected == (Leave(rooms, roomId, sid), if rest == [] then None else Some(Removal(roomId, rest[0])));
        var left := RemovePlayer(roomId, sid);
        if left != [] {
          pending := pending + [Removal(roomId, left[0])];
        }
      }
    }

    /** The oldest scheduled removal, once its five seconds are over. */
    method FireRemoval()
      requires Valid() && pending != []
      modifies this
      ensures Valid()
      ensures var (t, emits) := DelayedRemove(old(rooms), old(pending)[0]);
        rooms == t && outbox == old(outbox) + emits
      ensures pending == old(pending)[1..]
    {
      var removal := pending[0];
      pending := pending[1..];
      if removal.room in rooms.values {
        rooms := rooms.Delete(removal.room);
        outbox := outbox + [OpponentLeft(removal.remaining), ReturnToMenu(removal.remaining)];
      }
    }
  }
}
