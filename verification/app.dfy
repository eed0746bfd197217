/**
 * The App component as an object: one field per React state variable, and
 * one method per handler, each updating the fields in the order the handler
 * calls its setters. Every method is proved to take the component from
 * `Snapshot()` to the session the matching `ClientSession` transition gives.
 */
module AppComponent {
  import opened Options
  import opened TableSort
  import opened ClientSession

  class App {
    var gameState: GameState
    var name: string
    var nameError: string
    var editingName: bool
    var isReady: bool
    var socket: bool
    var roomId: Option<string>
    var selectedChoice: Option<string>
    var rooms: seq<RoomRow>
    var rounds: seq<Round>
    var leaderboard: seq<Row>
    var players: seq<string>
    var roomsSort: SortConfig
    var leaderboardSort: SortConfig
    var outbox: seq<Message>

    /** The component's state as a session value. */
    function Snapshot(): Session
      reads this
    {
      Session(gameState, name, nameError, editingName, isReady, socket, roomId, selectedChoice,
              rooms, rounds, leaderboard, players, roomsSort, leaderboardSort, outbox)
    }

    constructor ()
      ensures Snapshot() == ClientSession.Initial()
    {
      gameState, name, nameError := Main, "", "";
      roomsSort := SortConfig("room_id", Asc);
      leaderboardSort := SortConfig("r", Desc);
      editingName, isReady := false, false;
      socket, roomId, selectedChoice := false, None, None;
      rooms, rounds, leaderboard, players := [], [], [], [];
      outbox := [];
    }

    /** The mount effect creates the socket. */
    method Mount()
      modifies this
      ensures Snapshot() == old(Snapshot()).(socket := true)
    {
      socket := true;
    }

    /** The mount effect that restores the name kept in `localStorage`. */
    method RestoreName(stored: Option<string>)
      modifies this
      ensures Snapshot() == ClientSession.RestoreName(old(Snapshot()), stored)
    {
      if stored.Some? && stored.value != "" {
        name := stored.value;
      }
    }

    method QuitGame()
      modifies this
      ensures Snapshot() == ClientSession.QuitGame(old(Snapshot()))
    {
      ghost var expected := ClientSession.QuitGame(Snapshot());
      if socket && HasRoom(roomId) {
        outbox := outbox + [QuitGameMsg(roomId.value)];
        roomId := None;
      }
      isReady := false;
      gameState := Main;
      rounds := [];
      selectedChoice := None;
      assert Snapshot() == expected;
    }

    method ChangeGameState(newState: GameState)
      modifies this
      ensures Snapshot() == ClientSession.ChangeGameState(old(Snapshot()), newState)
    {
      if InSession(gameState) && !InSession(newState) {
        QuitGame();
      }
      gameState := newState;
    }

    method JoinRoom(id: string)
      modifies this
      ensures Snapshot() == ClientSession.JoinRoom(old(Snapshot()), id)
    {
      if socket {
        outbox := outbox + [JoinRoomMsg(id)];
        roomId := Some(id);
        ChangeGameState(Lobby);
      }
    }

    method StartGame(mode: string)
      modifies this
      ensures Snapshot() == ClientSession.StartGame(old(Snapshot()), mode)
    {
      rounds := [];
      if socket {
        outbox := outbox + [CreateRoomMsg(mode)];
      }
    }

    method HandleReady()
      modifies this
      ensures Snapshot() == ClientSession.HandleReady(old(Snapshot()))
    {
      if socket && HasRoom(roomId) {
        var newStatus := !isReady;
        isReady := newStatus;
        outbox := outbox + [PlayerReadyMsg(roomId, ClientSession.ReadyStatus(newStatus))];
      }
    }

    method HandleChoice(choice: string)
      modifies this
      ensures Snapshot() == ClientSession.HandleChoice(old(Snapshot()), choice)
    {
      selectedChoice := Some(choice);
      isReady := true;
      if socket {
        outbox := outbox + [PlayerReadyMsg(roomId, "ready")];
      }
      if socket && HasRoom(roomId) {
        outbox := outbox + [MakeMoveMsg(roomId.value, choice)];
      }
    }

    method HandleSort(key: string, table: string)
      modifies this
      ensures Snapshot() == ClientSession.HandleSort(old(Snapshot()), key, table)
    {
      if table == "leaderboard" {
        var direction := Desc;
        if leaderboardSort.key == key && leaderboardSort.direction == Desc {
          direction := Asc;
        }
        leaderboardSort := SortConfig(key, direction);
      } else if table == "rooms" {
        var direction := Desc;
        if roomsSort.key == key && roomsSort.direction == Desc {
          direction := Asc;
        }
        roomsSort := SortConfig(key, direction);
      }
    }

    method UpdateNameInput(value: string)
      modifies this
      ensures Snapshot() == ClientSession.UpdateNameInput(old(Snapshot()), value)
    {
      nameError := "";
      name := value;
    }

    method HandleEditOrSave()
      modifies this
      ensures Snapshot() == ClientSession.HandleEditOrSave(old(Snapshot()))
    {
      ghost var expected := ClientSession.HandleEditOrSave(Snapshot());
      if editingName {
        var trimmed := Trim(name);
        if trimmed == "" {
          nameError := NAME_EMPTY;
          assert Snapshot() == expected;
          return;
        }
        if socket {
          outbox := outbox + [SetNameMsg(trimmed)];
        }
      } else {
        editingName := true;
      }
      assert Snapshot() == expected;
    }

    method OnConnect(stored: Option<string>, generated: string)
      modifies this
      ensures Snapshot() == ClientSession.OnConnect(old(Snapshot()), stored, generated)
    {
      var storedName := if stored.Some? && stored.value != "" then stored.value else generated;
      name := storedName;
      outbox := outbox + [SetNameMsg(storedName)];
    }

    method OnNameTaken(message: string)
      modifies this
      ensures Snapshot() == ClientSession.OnNameTaken(old(Snapshot()), message)
    {
      nameError := message;
      editingName := true;
    }

    method OnNameSet()
      modifies this
      ensures Snapshot() == ClientSession.OnNameSet(old(Snapshot()))
    {
      editingName := false;
    }

    method OnLeaderboardUpdated(board: seq<Row>)
      modifies this
      ensures Snapshot() == ClientSession.OnLeaderboardUpdated(old(Snapshot()), board)
    {
      leaderboard := board;
    }

    method OnGameStart(id: string, ps: seq<string>)
      modifies this
      ensures Snapshot() == ClientSession.OnGameStart(old(Snapshot()), id, ps)
    {
      players := ps;
      roomId := Some(id);
      ChangeGameState(Running);
    }

    method OnLobby(id: string)
      modifies this
      ensures Snapshot() == ClientSession.OnLobby(old(Snapshot()), id)
    {
      roomId := Some(id);
      ChangeGameState(Lobby);
    }

    method OnGameResult(winner: string, gameOver: bool, moves: seq<string>)
      modifies this
      ensures Snapshot() == ClientSession.OnGameResult(old(Snapshot()), winner, gameOver, moves)
    {
      var newRound := Round(winner, MoveAt(moves, 0), MoveAt(moves, 1));
      rounds := rounds + [newRound];
      if gameOver {
        ChangeGameState(GameOver);
      } else {
        selectedChoice := None;
      }
    }

    method OnRoomsUpdated(updates: seq<RoomUpdate>)
      modifies this
      ensures Snapshot() == ClientSession.OnRoomsUpdated(old(Snapshot()), updates)
    {
      rooms := TransformRooms(updates);
    }

    /** `opponent_left` and `error` both run `quitGame`. */
    method OnOpponentLeftOrError()
      modifies this
      ensures Snapshot() == ClientSession.QuitGame(old(Snapshot()))
    {
      QuitGame();
    }
  }
}
