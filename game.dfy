/**
 * The game state machine: the reducer that starts games and replays, logs
 * the player's moves with their timing, places the mines on the first
 * reveal, and detects and decorates a win or a loss.
 *
 * The clock is read once per call: `now` stands for every `Date.now()` of
 * the call and `isoNow` for every `new Date().toISOString()`.
 */
module Game {
  import opened Wrappers
  import opened Types
  import opened Collections
  import opened Topology
  import opened Mining
  import Reveal
  import Flagging

  datatype Phase = Idle | InProgress | Win | Lose

  /** A player's move. */
  datatype PlayerAction = RevealCell(id: CellId) | FlagCell(id: CellId)

  /** A move as the log keeps it, with the milliseconds since the previous one. */
  datatype LoggedAction = LoggedAction(move: PlayerAction, elapsedTime: int)

  /** A finished game, as the reducer emits it and as a replay starts from it. */
  datatype GameRecord = GameRecord(
    actions: seq<LoggedAction>,
    boardConfiguration: BoardConfiguration,
    startDate: string,
    startTime: int,
    finishTime: int)

  datatype Action =
    | NewGame
    | StartGame(config: BoardConfiguration)
    | StartReplay(payload: Option<GameRecord>)
    | RestartReplay
    | Play(move: PlayerAction)

  /** The reducer's state; `phase` is the state's `state` field. */
  datatype State = State(
    actions: seq<LoggedAction>,
    board: Option<seq<Cell>>,
    boardConfiguration: Option<BoardConfiguration>,
    game: Option<GameRecord>,
    replayActionIndex: Option<int>,
    startDate: Option<string>,
    startTime: Option<int>,
    finishTime: Option<int>,
    phase: Phase)

  /** The errors the reducer throws. */
  datatype Failure = GameNotStarted | CantReplayWithoutReveal | CantRestartReplay

  const InitialState: State := State([], None, None, None, None, None, None, None, Idle)

  predicate IsReveal(a: LoggedAction)
  {
    a.move.RevealCell?
  }

  /** The id of the first logged reveal, the one a replay mines the board for. */
  function FirstRevealId(actions: seq<LoggedAction>): (r: Option<CellId>)
    ensures r.None? <==> !Any(actions, IsReveal)
    ensures r.Some? ==> exists k ::
      && 0 <= k < |actions| && actions[k].move == RevealCell(r.value)
      && forall j :: 0 <= j < k ==> !IsReveal(actions[j])
  {
    if actions == [] then None
    else if actions[0].move.RevealCell? then Some(actions[0].move.id)
    else
      var r := FirstRevealId(actions[1..]);
      if r.Some? then
        var k :| 0 <= k < |actions[1..]| && actions[1..][k].move == RevealCell(r.value)
          && forall j :: 0 <= j < k ==> !IsReveal(actions[1..][j]);
        assert actions[k + 1].move == RevealCell(r.value);
        r
      else r
  }

  /** The running total of the logged elapsed times (`reduce` from `acc`). */
  function SumFrom(acc: int, actions: seq<LoggedAction>): int
    decreases actions
  {
    if actions == [] then acc else SumFrom(acc + actions[0].elapsedTime, actions[1..])
  }

  function ElapsedSum(actions: seq<LoggedAction>): int
  {
    SumFrom(0, actions)
  }

  /** A number is falsy when it is unset or zero. */
  predicate Truthy(t: Option<int>)
  {
    t.Some? && t.value != 0
  }

  /** `startTime || now`. */
  function StartTimeOr(t: Option<int>, now: int): (r: int)
    ensures Truthy(t) ==> r == t.value
    ensures !Truthy(t) ==> r == now
  {
    if Truthy(t) then t.value else now
  }

  /** `startDate || isoNow`: an unset or empty date is replaced. */
  function StartDateOr(d: Option<string>, isoNow: string): (r: string)
    ensures d.Some? && d.value != "" ==> r == d.value
    ensures d.None? || d.value == "" ==> r == isoNow
  {
    if d.Some? && d.value != "" then d.value else isoNow
  }

  /** The board a reveal yields: mines are placed first, for the clicked id, unless a reveal was logged. */
  function BoardAfterReveal(actions: seq<LoggedAction>, board: seq<Cell>, config: BoardConfiguration,
                            id: CellId, rng: Oracle): seq<Cell>
  {
    if Any(actions, IsReveal) then Reveal.RevealCell(board, id)
    else Reveal.RevealCell(MinedBoard(config, board, id, rng), id)
  }

  predicate IsVisibleMine(c: Cell)
  {
    c.state == Visible && c.kind == Mine
  }

  predicate IsHidden(c: Cell)
  {
    c.state == Hidden
  }

  /** A lost game: some mine is visible. */
  function DidLose(board: seq<Cell>): bool
  {
    Any(board, IsVisibleMine)
  }

  /** A won game: not lost, and every hidden cell is a mine. */
  function DidWin(board: seq<Cell>): bool
  {
    !DidLose(board) && All(Filter(board, IsHidden), IsMine)
  }

  /** The finished board: mines are flagged on a win and shown on a loss. */
  function Decorate(board: seq<Cell>, won: bool): (r: seq<Cell>)
    ensures SameLayout(r, board)
  {
    seq(|board|, k requires 0 <= k < |board| =>
      board[k].(state := if board[k].kind != Mine then board[k].state else if won then Flag else Visible))
  }

  /** Every cell's state becomes hidden (a replay starting over on the same board). */
  function HideAll(board: seq<Cell>): (r: seq<Cell>)
    ensures SameLayout(r, board)
    ensures forall k :: 0 <= k < |r| ==> r[k].state == Hidden
  {
    seq(|board|, k requires 0 <= k < |board| => board[k].(state := Hidden))
  }

  /** A move during a replay: the log and the phase are kept and the replay index advances. */
  function ReplayStep(s: State, move: PlayerAction, rng: Oracle): Result<State, Failure>
    requires s.replayActionIndex.Some?
  {
    var next := Some(s.replayActionIndex.value + 1);
    match move
    case FlagCell(id) =>
      if s.board.None? then Err(GameNotStarted)
      else Ok(s.(board := Some(Flagging.FlagCell(s.board.value, id)), replayActionIndex := next))
    case RevealCell(id) =>
      if s.board.None? || s.boardConfiguration.None? then Err(GameNotStarted)
      else
        var board := BoardAfterReveal(s.actions, s.board.value, s.boardConfiguration.value, id, rng);
        Ok(s.(board := Some(board), replayActionIndex := next))
  }

  /** A live move: logged with its delta time, then applied, a reveal checking for the end of the game. */
  function LiveStep(s: State, move: PlayerAction, now: int, isoNow: string, rng: Oracle): Result<State, Failure>
  {
    var elapsed := ElapsedSum(s.actions);
    var entry := LoggedAction(move, if Truthy(s.startTime) then now - s.startTime.value - elapsed else 0);
    var actions := s.actions + [entry];
    var startTime := StartTimeOr(s.startTime, now);
    match move
    case FlagCell(id) =>
      if s.board.None? then Err(GameNotStarted)
      else Ok(State(actions, Some(Flagging.FlagCell(s.board.value, id)), s.boardConfiguration,
                    None, None, s.startDate, Some(startTime), None, InProgress))
    case RevealCell(id) =>
      if s.board.None? || s.boardConfiguration.None? then Err(GameNotStarted)
      else
        var config := s.boardConfiguration.value;
        var board := BoardAfterReveal(s.actions, s.board.value, config, id, rng);
        var lost := DidLose(board);
        var won := DidWin(board);
        var finished := lost || won;
        Ok(State(
          actions,
          Some(if finished then Decorate(board, won) else board),
          s.boardConfiguration,
          if finished then Some(GameRecord(s.actions, config, StartDateOr(s.startDate, isoNow), startTime, now)) else None,
          None,
          s.startDate,
          Some(startTime),
          if finished then Some(now) else None,
          if lost then Lose else if won then Win else InProgress))
  }

  /** The reducer. */
  function Reducer(s: State, action: Action, now: int, isoNow: string, rng: Oracle): (r: Result<State, Failure>)
    ensures r.Err? ==> action.StartReplay? || action.RestartReplay? || action.Play?
  {
    match action
    case NewGame => Ok(InitialState)
    case StartGame(config) =>
      Ok(State([], Some(EmptyBoard(config)), Some(config), None, None, Some(isoNow), None, None, InProgress))
    case StartReplay(payload) =>
      if payload.Some? then
        var g := payload.value;
        var first := FirstRevealId(g.actions);
        if first.None? then Err(CantReplayWithoutReveal)
        else
          var config := g.boardConfiguration;
          Ok(State(g.actions, Some(MinedBoard(config, EmptyBoard(config), first.value, rng)),
                   Some(config.(kind := Replay)), Some(g), Some(0), Some(g.startDate),
                   Some(g.startTime), Some(g.finishTime), Win))
      else
        Ok(s.(board := if s.board.Some? then Some(HideAll(s.board.value)) else None,
              game := None, replayActionIndex := Some(0)))
    case RestartReplay =>
      if s.boardConfiguration.None? || s.boardConfiguration.value.kind != Replay then Err(CantRestartReplay)
      else
        var config := s.boardConfiguration.value;
        var first := FirstRevealId(s.actions);
        if first.None? then Err(CantReplayWithoutReveal)
        else
          Ok(s.(board := Some(MinedBoard(config, EmptyBoard(config), first.value, rng)),
                replayActionIndex := Some(0)))
    case Play(move) =>
      if s.replayActionIndex.Some? then ReplayStep(s, move, rng)
      else LiveStep(s, move, now, isoNow, rng)
  }

  // ---------------------------------------------------------------------
  // Starting a game

  /** `newGame` returns the idle initial state, whatever the state was. */
  lemma NewGameIdle(s: State, now: int, isoNow: string, rng: Oracle)
    ensures Reducer(s, NewGame, now, isoNow, rng) == Ok(InitialState)
    ensures InitialState.phase == Idle && InitialState.actions == [] && InitialState.board.None?
  {
  }

  /**
   * `startGame` begins a game in progress on the empty board of the
   * configuration, with an empty log and no start, finish or replay index.
   */
  lemma StartGameFresh(s: State, config: BoardConfiguration, now: int, isoNow: string, rng: Oracle)
    ensures var r := Reducer(s, StartGame(config), now, isoNow, rng);
      && r.Ok?
      && r.value.phase == InProgress && r.value.actions == []
      && r.value.board == Some(EmptyBoard(config)) && r.value.boardConfiguration == Some(config)
      && r.value.startTime.None? && r.value.finishTime.None? && r.value.replayActionIndex.None?
      && r.value.game.None? && r.value.startDate == Some(isoNow)
  {
  }

  /** A move before any board exists fails, live or in a replay; a reveal also needs a configuration. */
  lemma NotStartedFails(s: State, id: CellId, now: int, isoNow: string, rng: Oracle)
    ensures s.board.None? ==> Reducer(s, Play(FlagCell(id)), now, isoNow, rng) == Err(GameNotStarted)
    ensures s.board.None? || s.boardConfiguration.None? ==>
      Reducer(s, Play(RevealCell(id)), now, isoNow, rng) == Err(GameNotStarted)
  {
  }

  // ---------------------------------------------------------------------
  // Live moves

  /** Folding from `acc` adds `acc` to the fold from zero. */
  lemma {:induction false} SumFromShift(acc: int, actions: seq<LoggedAction>)
    ensures SumFrom(acc, actions) == acc + ElapsedSum(actions)
    decreases actions
  {
    if actions != [] {
      SumFromShift(acc + actions[0].elapsedTime, actions[1..]);
      SumFromShift(actions[0].elapsedTime, actions[1..]);
    }
  }

  lemma {:induction false} ElapsedSumAppend(actions: seq<LoggedAction>, entry: LoggedAction)
    ensures ElapsedSum(actions + [entry]) == ElapsedSum(actions) + entry.elapsedTime
    decreases actions
  {
    if actions == [] {
      assert actions + [entry] == [entry];
      assert SumFrom(0, [entry]) == SumFrom(entry.elapsedTime, []);
    } else {
      assert (actions + [entry])[1..] == actions[1..] + [entry];
      SumFromShift(actions[0].elapsedTime, actions[1..] + [entry]);
      SumFromShift(actions[0].elapsedTime, actions[1..]);
      ElapsedSumAppend(actions[1..], entry);
    }
  }

  /**
   * A live move that succeeds appends exactly one entry to the log (its
   * elapsed time measured from the start minus the time already logged,
   * or 0 before the start), sets the start to `now` if it was unset and
   * keeps it otherwise; once started, the logged times add up to the time
   * since the start.
   */
  lemma LiveMoveLogged(s: State, move: PlayerAction, now: int, isoNow: string, rng: Oracle)
    requires s.replayActionIndex.None?
    requires Reducer(s, Play(move), now, isoNow, rng).Ok?
    ensures var t := Reducer(s, Play(move), now, isoNow, rng).value;
      && |t.actions| == |s.actions| + 1
      && t.actions[..|s.actions|] == s.actions
      && t.actions[|s.actions|].move == move
      && t.actions[|s.actions|].elapsedTime ==
           (if Truthy(s.startTime) then now - s.startTime.value - ElapsedSum(s.actions) else 0)
      && t.startTime == Some(if Truthy(s.startTime) then s.startTime.value else now)
      && t.replayActionIndex.None?
      && (Truthy(s.startTime) ==> ElapsedSum(t.actions) == now - s.startTime.value)
  {
    var t := Reducer(s, Play(move), now, isoNow, rng).value;
    assert t.actions == s.actions + [t.actions[|s.actions|]];
    ElapsedSumAppend(s.actions, t.actions[|s.actions|]);
  }

  /** A live flag always leaves the game in progress and unfinished, even after a win or a loss. */
  lemma LiveFlagInProgress(s: State, id: CellId, now: int, isoNow: string, rng: Oracle)
    requires s.replayActionIndex.None? && s.board.Some?
    ensures var r := Reducer(s, Play(FlagCell(id)), now, isoNow, rng);
      && r.Ok? && r.value.phase == InProgress && r.value.finishTime.None? && r.value.game.None?
      && r.value.board == Some(Flagging.FlagCell(s.board.value, id))
  {
  }

  /** The phase a live reveal ends in, from the revealed board. */
  lemma LiveRevealPhase(s: State, id: CellId, now: int, isoNow: string, rng: Oracle)
    requires s.replayActionIndex.None? && s.board.Some? && s.boardConfiguration.Some?
    ensures var r := Reducer(s, Play(RevealCell(id)), now, isoNow, rng);
      var b := BoardAfterReveal(s.actions, s.board.value, s.boardConfiguration.value, id, rng);
      r.Ok? && r.value.phase == if DidLose(b) then Lose else if DidWin(b) then Win else InProgress
  {
  }

  /**
   * The outcome of a live reveal: lost exactly when some cell of the
   * revealed board is a visible mine; won exactly when not lost and every
   * hidden cell is a mine; in progress otherwise.
   */
  lemma RevealOutcome(s: State, id: CellId, now: int, isoNow: string, rng: Oracle)
    requires s.replayActionIndex.None? && s.board.Some? && s.boardConfiguration.Some?
    ensures var r := Reducer(s, Play(RevealCell(id)), now, isoNow, rng);
      var b := BoardAfterReveal(s.actions, s.board.value, s.boardConfiguration.value, id, rng);
      var lost := exists k :: 0 <= k < |b| && b[k].state == Visible && b[k].kind == Mine;
      var won := !lost && forall k :: 0 <= k < |b| && b[k].state == Hidden ==> b[k].kind == Mine;
      && r.Ok?
      && (r.value.phase == Lose <==> lost)
      && (r.value.phase == Win <==> won)
      && (r.value.phase == InProgress <==> !lost && !won)
  {
    var b := BoardAfterReveal(s.actions, s.board.value, s.boardConfiguration.value, id, rng);
    LiveRevealPhase(s, id, now, isoNow, rng);
    HiddenAllMines(b);
    assert DidLose(b) <==> exists k :: 0 <= k < |b| && IsVisibleMine(b[k]);
  }

  /** Every hidden cell of the board is a mine exactly when the hidden cells, filtered out, all are. */
  lemma HiddenAllMines(b: seq<Cell>)
    ensures All(Filter(b, IsHidden), IsMine) <==> forall k :: 0 <= k < |b| && b[k].state == Hidden ==> b[k].kind == Mine
  {
    var h := Filter(b, IsHidden);
    if All(h, IsMine) {
      forall k | 0 <= k < |b| && b[k].state == Hidden
        ensures b[k].kind == Mine
      {
        assert IsHidden(b[k]);
        var j :| 0 <= j < |h| && h[j] == b[k];
      }
    } else {
      var j :| 0 <= j < |h| && !IsMine(h[j]);
      var k :| 0 <= k < |b| && b[k] == h[j];
    }
  }

  /**
   * A finishing reveal decorates the board (non-mine cells keep their
   * state; mines are flagged on a win and shown on a loss), sets the finish
   * time, and emits a game record whose log is the log before this reveal;
   * an unfinished one leaves the revealed board as it is and emits nothing.
   */
  lemma RevealFinish(s: State, id: CellId, now: int, isoNow: string, rng: Oracle)
    requires s.replayActionIndex.None? && s.board.Some? && s.boardConfiguration.Some?
    ensures var r := Reducer(s, Play(RevealCell(id)), now, isoNow, rng);
      var b := BoardAfterReveal(s.actions, s.board.value, s.boardConfiguration.value, id, rng);
      && r.Ok? && r.value.board.Some? && SameLayout(r.value.board.value, b)
      && (r.value.phase == Win || r.value.phase == Lose ==>
           && (forall k :: 0 <= k < |b| && b[k].kind != Mine ==> r.value.board.value[k] == b[k])
           && (forall k :: 0 <= k < |b| && b[k].kind == Mine ==>
                r.value.board.value[k].state == (if r.value.phase == Win then Flag else Visible))
           && r.value.finishTime == Some(now)
           && r.value.game.Some?
           && r.value.game.value.actions == s.actions
           && r.value.game.value.boardConfiguration == s.boardConfiguration.value
           && r.value.game.value.startDate == StartDateOr(s.startDate, isoNow)
           && r.value.game.value.startTime == StartTimeOr(s.startTime, now)
           && r.value.game.value.finishTime == now)
      && (r.value.phase == InProgress ==>
           r.value.board == Some(b) && r.value.finishTime.None? && r.value.game.None?)
  {
  }

  /**
   * On a board laid out as the empty board of its configuration with no
   * cell visible, placing the mines for the clicked id and revealing it
   * shows no mine.
   */
  lemma MinedRevealShowsNoMine(config: BoardConfiguration, board: seq<Cell>, id: CellId, rng: Oracle)
    requires SameLayout(board, EmptyBoard(config))
    requires forall k :: 0 <= k < |board| ==> board[k].state != Visible
    ensures !DidLose(Reveal.RevealCell(MinedBoard(config, board, id, rng), id))
  {
    var mined := MinedBoard(config, board, id, rng);
    MinedEmptyBoard(config, board, id, rng);
    Reveal.RevealSparesMines(mined, id);
    var b := Reveal.RevealCell(mined, id);
    forall k | 0 <= k < |b|
      ensures !IsVisibleMine(b[k])
    {
      assert b[k] == mined[k].(state := b[k].state);
    }
  }

  /**
   * Mines placed on a board laid out as the empty board, with no cell
   * visible: ids stay distinct, the clicked id names only safe cells, and
   * still no cell is visible.
   */
  lemma MinedEmptyBoard(config: BoardConfiguration, board: seq<Cell>, id: CellId, rng: Oracle)
    requires SameLayout(board, EmptyBoard(config))
    requires forall k :: 0 <= k < |board| ==> board[k].state != Visible
    ensures var mined := MinedBoard(config, board, id, rng);
      && DistinctIds(mined)
      && (forall k :: 0 <= k < |mined| && mined[k].id == id ==> mined[k].kind == Safe)
      && (forall k :: 0 <= k < |mined| ==> mined[k].state != Visible)
  {
    var mined := MinedBoard(config, board, id, rng);
    EmptyLayout(config, board);
    MinedKeepsIdsAndStates(config, board, id, rng);
    InitialCellSafe(config, board, id, rng);
    assert forall k :: 0 <= k < |mined| && mined[k].id == id ==> mined[k] in mined;
  }

  /** Mining a board laid out as the empty board gives every cell a value of at most 8. */
  lemma MinedEmptyBoardValues(config: BoardConfiguration, board: seq<Cell>, id: CellId, rng: Oracle)
    requires SameLayout(board, EmptyBoard(config))
    ensures var mined := MinedBoard(config, board, id, rng);
      forall k :: 0 <= k < |mined| ==> mined[k].value <= 8
  {
    var empty := EmptyBoard(config);
    EmptyLayout(config, board);
    MinedValueBound(config, board, id, rng);
    assert forall k :: 0 <= k < |board| ==> board[k].neighbors == empty[k].neighbors;
  }

  /** A board laid out as the empty board has its orders in place and distinct ids. */
  lemma EmptyLayout(config: BoardConfiguration, board: seq<Cell>)
    requires SameLayout(board, EmptyBoard(config))
    ensures forall k :: 0 <= k < |board| ==> board[k].order == k
    ensures DistinctIds(board)
  {
    var empty := EmptyBoard(config);
    EmptyBoardIdsDistinct(config);
    assert forall k :: 0 <= k < |board| ==> board[k].id == empty[k].id;
  }

  /** On a board with orders in place, mine placement keeps every cell's id and state where it was. */
  lemma MinedKeepsIdsAndStates(config: BoardConfiguration, board: seq<Cell>, id: CellId, rng: Oracle)
    requires forall k :: 0 <= k < |board| ==> board[k].order == k
    ensures var mined := MinedBoard(config, board, id, rng);
      && |mined| == |board|
      && forall k :: 0 <= k < |mined| ==> mined[k].id == board[k].id && mined[k].state == board[k].state
  {
    MinedBoardInPlace(config, board, id, rng);
  }

  /**
   * The first reveal of a game never loses: on a board laid out as the
   * empty board of the configuration, with no cell visible and no reveal
   * logged, the mines are placed away from the clicked cell and the reveal
   * shows no mine.
   */
  lemma FirstRevealNeverLoses(s: State, id: CellId, now: int, isoNow: string, rng: Oracle)
    requires s.replayActionIndex.None? && s.board.Some? && s.boardConfiguration.Some?
    requires SameLayout(s.board.value, EmptyBoard(s.boardConfiguration.value))
    requires forall k :: 0 <= k < |s.board.value| ==> s.board.value[k].state != Visible
    requires forall k :: 0 <= k < |s.actions| ==> !s.actions[k].move.RevealCell?
    ensures var r := Reducer(s, Play(RevealCell(id)), now, isoNow, rng);
      r.Ok? && r.value.phase != Lose
  {
    assert !Any(s.actions, IsReveal);
    MinedRevealShowsNoMine(s.boardConfiguration.value, s.board.value, id, rng);
    LiveRevealPhase(s, id, now, isoNow, rng);
  }

  // ---------------------------------------------------------------------
  // Replays

  /**
   * During a replay a move that succeeds leaves the log, the phase, the
   * dates and the record as they were and advances the replay index by one.
   */
  lemma ReplayBookkeeping(s: State, move: PlayerAction, now: int, isoNow: string, rng: Oracle)
    requires s.replayActionIndex.Some?
    requires Reducer(s, Play(move), now, isoNow, rng).Ok?
    ensures var t := Reducer(s, Play(move), now, isoNow, rng).value;
      && t.actions == s.actions && t.phase == s.phase
      && t.replayActionIndex == Some(s.replayActionIndex.value + 1)
      && t.startDate == s.startDate && t.startTime == s.startTime && t.finishTime == s.finishTime
      && t.game == s.game && t.boardConfiguration == s.boardConfiguration
  {
  }

  /**
   * Starting a replay from a record mines the record's empty board for the
   * record's first revealed id and shows the replay as a win at index 0; a
   * record with no reveal cannot be replayed.
   */
  lemma StartReplayFromRecord(s: State, g: GameRecord, now: int, isoNow: string, rng: Oracle)
    ensures var r := Reducer(s, StartReplay(Some(g)), now, isoNow, rng);
      && (!Any(g.actions, IsReveal) <==> r == Err(CantReplayWithoutReveal))
      && (r.Ok? ==>
           && r.value.actions == g.actions
           && r.value.replayActionIndex == Some(0) && r.value.phase == Win
           && r.value.boardConfiguration == Some(g.boardConfiguration.(kind := Replay))
           && r.value.game == Some(g)
           && exists k :: 0 <= k < |g.actions| && g.actions[k].move.RevealCell?
                && (forall j :: 0 <= j < k ==> !IsReveal(g.actions[j]))
                && r.value.board == Some(MinedBoard(g.boardConfiguration, EmptyBoard(g.boardConfiguration),
                                                    g.actions[k].move.id, rng)))
  {
  }

  /**
   * Replaying without a record starts the replay over on the current board,
   * every cell hidden, at index 0, with the rest of the state kept.
   */
  lemma StartReplayInPlace(s: State, now: int, isoNow: string, rng: Oracle)
    ensures var r := Reducer(s, StartReplay(None), now, isoNow, rng);
      && r.Ok?
      && r.value.replayActionIndex == Some(0) && r.value.game.None?
      && r.value.actions == s.actions && r.value.phase == s.phase
      && (s.board.None? <==> r.value.board.None?)
      && (s.board.Some? ==>
           && SameLayout(r.value.board.value, s.board.value)
           && forall k :: 0 <= k < |s.board.value| ==> r.value.board.value[k].state == Hidden)
  {
  }

  /**
   * A restart needs a replay configuration and a logged reveal; it then
   * mines the configuration's empty board again for the first revealed id.
   */
  lemma RestartReplayRules(s: State, now: int, isoNow: string, rng: Oracle)
    ensures var r := Reducer(s, RestartReplay, now, isoNow, rng);
      && ((s.boardConfiguration.None? || s.boardConfiguration.value.kind != Replay) <==> r == Err(CantRestartReplay))
      && (s.boardConfiguration.Some? && s.boardConfiguration.value.kind == Replay ==>
           (!Any(s.actions, IsReveal) <==> r == Err(CantReplayWithoutReveal)))
      && (r.Ok? ==>
           && r.value.replayActionIndex == Some(0) && r.value.actions == s.actions
           && r.value.phase == s.phase && r.value.game == s.game
           && r.value.board == Some(MinedBoard(s.boardConfiguration.value, EmptyBoard(s.boardConfiguration.value),
                                               FirstRevealId(s.actions).value, rng)))
  {
  }
}
