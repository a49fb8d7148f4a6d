/**
 * Revealing a cell: a flagged target is un-flagged, a mine or a numbered
 * target is shown alone, and a zero target starts a cascade that grows a
 * list of safe cells until no board cell joins it.
 */
module Reveal {
  import opened Wrappers
  import opened Types
  import opened Collections

  /** The position of the first cell with id `id` (`board.find`). */
  function FindIndex(board: seq<Cell>, id: CellId): (r: Option<nat>)
    ensures r.None? <==> forall k :: 0 <= k < |board| ==> board[k].id != id
    ensures r.Some? ==>
      && r.value < |board| && board[r.value].id == id
      && forall k :: 0 <= k < r.value ==> board[k].id != id
  {
    if board == [] then None
    else if board[0].id == id then Some(0)
    else
      match FindIndex(board[1..], id)
      case None => None
      case Some(i) => Some(i + 1)
  }

  /** Every cell whose id is listed in `ids` gets state `st`; the others are kept. */
  function SetState(board: seq<Cell>, ids: seq<CellId>, st: CellState): (r: seq<Cell>)
    ensures |r| == |board|
    ensures forall k :: 0 <= k < |r| ==>
      r[k] == if board[k].id in ids then board[k].(state := st) else board[k]
  {
    seq(|board|, k requires 0 <= k < |board| =>
      if board[k].id in ids then board[k].(state := st) else board[k])
  }

  /** The ids of the zero-valued cells of `safe`, in order. */
  function ZeroIds(safe: seq<Cell>): (r: seq<CellId>)
    ensures forall n :: n in r <==> exists z :: z in safe && z.value == 0 && z.id == n
  {
    if safe == [] then []
    else
      assert forall z :: z in safe <==> z == safe[0] || z in safe[1..];
      (if safe[0].value == 0 then [safe[0].id] else []) + ZeroIds(safe[1..])
  }

  /**
   * A board cell joins the cascade when it is not a mine, its id is not yet
   * listed, and one of its neighbour ids is the id of a zero-valued listed cell.
   */
  predicate Joins(c: Cell, safe: seq<Cell>)
  {
    && c.kind != Mine
    && c.id !in Ids(safe)
    && exists n :: n in c.neighbors && n in ZeroIds(safe)
  }

  /** The board cells that join the cascade in one round, in board order. */
  function NewSafeCells(board: seq<Cell>, safe: seq<Cell>): (r: seq<Cell>)
    ensures |r| <= |board|
    ensures forall c :: c in r <==> c in board && Joins(c, safe)
  {
    if board == [] then []
    else
      assert forall c :: c in board <==> c == board[0] || c in board[1..];
      (if Joins(board[0], safe) then [board[0]] else []) + NewSafeCells(board[1..], safe)
  }

  /** A listed id is the id of some listed cell. */
  lemma IdsAreBoardIds(cells: seq<Cell>)
    ensures forall n :: n in Ids(cells) <==> n in BoardIds(cells)
  {
    forall n | n in BoardIds(cells)
      ensures n in Ids(cells)
    {
      var c :| c in cells && c.id == n;
      var k :| 0 <= k < |cells| && cells[k] == c;
      assert Ids(cells)[k] == n;
    }
  }

  /** A round that adds a cell leaves fewer board ids outside the list. */
  lemma RoundShrinks(board: seq<Cell>, safe: seq<Cell>, cells: seq<Cell>)
    requires cells != []
    requires forall c :: c in cells ==> c in board && c.id !in Ids(safe)
    ensures |BoardIds(board) - BoardIds(safe + cells)| < |BoardIds(board) - BoardIds(safe)|
  {
    IdsAreBoardIds(safe);
    var c := cells[0];
    var before := BoardIds(board) - BoardIds(safe);
    var after := BoardIds(board) - BoardIds(safe + cells);
    assert c in safe + cells;
    assert c.id in BoardIds(safe + cells);
    assert c.id in before;
    forall n | n in BoardIds(safe)
      ensures n in BoardIds(safe + cells)
    {
      var d :| d in safe && d.id == n;
      assert d in safe + cells;
    }
    assert after <= before - {c.id};
    SubsetCard(after, before - {c.id});
  }

  /**
   * The cascade (`getSafeCellIds`, returning the cells rather than their
   * ids): add the round's new cells until a round adds none. Every round
   * adds an id of the board not listed before, so there are at most as
   * many rounds as the board has ids.
   */
  function SafeCells(board: seq<Cell>, safe: seq<Cell>): (r: seq<Cell>)
    decreases |BoardIds(board) - BoardIds(safe)|
  {
    var cells := NewSafeCells(board, safe);
    if cells == [] then safe
    else
      RoundShrinks(board, safe, cells);
      SafeCells(board, safe + cells)
  }

  /** `revealCell`. */
  function RevealCell(board: seq<Cell>, id: CellId): (r: seq<Cell>)
    ensures SameLayout(r, board)
  {
    match FindIndex(board, id)
    case None => board
    case Some(i) =>
      var target := board[i];
      if target.state == Flag then SetState(board, [id], Hidden)
      else if target.kind == Mine || target.value > 0 then SetState(board, [id], Visible)
      else SetState(board, Ids(SafeCells(board, [target])), Visible)
  }

  // ---------------------------------------------------------------------
  // The cascade

  /** The cascade keeps the starting list and adds only non-mine board cells. */
  lemma {:induction false} SafeCellsGrow(board: seq<Cell>, safe: seq<Cell>)
    ensures var r := SafeCells(board, safe);
      && |safe| <= |r| && r[..|safe|] == safe
      && forall c :: c in r ==> c in safe || (c in board && c.kind != Mine)
    decreases |BoardIds(board) - BoardIds(safe)|
  {
    var cells := NewSafeCells(board, safe);
    if cells != [] {
      RoundShrinks(board, safe, cells);
      var next := safe + cells;
      SafeCellsGrow(board, next);
      var r := SafeCells(board, safe);
      assert r == SafeCells(board, next);
      assert r[..|safe|] == r[..|next|][..|safe|];
      assert next[..|safe|] == safe;
      forall c | c in r
        ensures c in safe || (c in board && c.kind != Mine)
      {
        if c in next && c !in safe {
          assert c in cells;
        }
      }
    }
  }

  /**
   * At the fixed point the list is closed: a non-mine board cell with a
   * neighbour id naming a zero-valued listed cell has its id listed.
   */
  lemma {:induction false} SafeCellsClosed(board: seq<Cell>, safe: seq<Cell>)
    ensures var r := SafeCells(board, safe);
      forall c, z :: c in board && z in r && c.kind != Mine && z.value == 0 && z.id in c.neighbors ==>
        c.id in Ids(r)
    decreases |BoardIds(board) - BoardIds(safe)|
  {
    var cells := NewSafeCells(board, safe);
    if cells != [] {
      RoundShrinks(board, safe, cells);
      SafeCellsClosed(board, safe + cells);
      assert SafeCells(board, safe) == SafeCells(board, safe + cells);
    } else {
      assert SafeCells(board, safe) == safe;
      forall c, z | c in board && z in safe && c.kind != Mine && z.value == 0 && z.id in c.neighbors
        ensures c.id in Ids(safe)
      {
        assert z.id in ZeroIds(safe);
        assert !Joins(c, safe);
      }
    }
  }

  /**
   * The cascade is the least closed list: every id set that holds the
   * starting ids and is closed in the sense above holds every id the
   * cascade lists.
   */
  lemma {:induction false} SafeCellsLeast(board: seq<Cell>, safe: seq<Cell>, closed: set<CellId>)
    requires forall c :: c in safe ==> c.id in closed
    requires forall c, z ::
      (c in board && z in board && z.id in closed && c.kind != Mine && z.value == 0 && z.id in c.neighbors)
      ==> c.id in closed
    requires forall z :: z in safe && z.value == 0 ==> z in board
    ensures forall c :: c in SafeCells(board, safe) ==> c.id in closed
    decreases |BoardIds(board) - BoardIds(safe)|
  {
    var cells := NewSafeCells(board, safe);
    if cells != [] {
      RoundShrinks(board, safe, cells);
      forall c | c in cells
        ensures c.id in closed
      {
        var n :| n in c.neighbors && n in ZeroIds(safe);
        var z :| z in safe && z.value == 0 && z.id == n;
      }
      SafeCellsLeast(board, safe + cells, closed);
    }
  }

  /** State plays no part in the cascade: boards that differ only in states cascade alike. */
  lemma {:induction false} NewSafeCellsLayout(b1: seq<Cell>, b2: seq<Cell>, s1: seq<Cell>, s2: seq<Cell>)
    requires SameLayout(b1, b2) && SameLayout(s1, s2)
    ensures SameLayout(NewSafeCells(b1, s1), NewSafeCells(b2, s2))
  {
    if b1 != [] {
      var c1, c2 := b1[0], b2[0];
      SameLayoutTail(b1, b2);
      NewSafeCellsLayout(b1[1..], b2[1..], s1, s2);
      JoinsSameCell(c1, c2, s1, s2);
      var h1 := if Joins(c1, s1) then [c1] else [];
      var h2 := if Joins(c2, s2) then [c2] else [];
      SameLayoutAppend(h1, h2, NewSafeCells(b1[1..], s1), NewSafeCells(b2[1..], s2));
    }
  }

  lemma SameLayoutTail(b1: seq<Cell>, b2: seq<Cell>)
    requires SameLayout(b1, b2) && b1 != []
    ensures b1[0] == b2[0].(state := b1[0].state)
    ensures SameLayout(b1[1..], b2[1..])
  {
    forall k | 0 <= k < |b1| - 1
      ensures b1[1..][k] == b2[1..][k].(state := b1[1..][k].state)
    {
      assert b1[1..][k] == b1[k + 1] && b2[1..][k] == b2[k + 1];
    }
  }

  /** Cells that differ only in state join lists that differ only in states alike. */
  lemma JoinsSameCell(c1: Cell, c2: Cell, s1: seq<Cell>, s2: seq<Cell>)
    requires c1 == c2.(state := c1.state) && SameLayout(s1, s2)
    ensures Joins(c1, s1) == Joins(c2, s2)
  {
    JoinsLayout(s1, s2);
    assert Joins(c1, s2) == Joins(c2, s2);
  }

  lemma JoinsLayout(s1: seq<Cell>, s2: seq<Cell>)
    requires SameLayout(s1, s2)
    ensures Ids(s1) == Ids(s2) && ZeroIds(s1) == ZeroIds(s2)
    ensures forall c :: Joins(c, s1) <==> Joins(c, s2)
  {
    ZeroIdsLayout(s1, s2);
  }

  lemma {:induction false} ZeroIdsLayout(s1: seq<Cell>, s2: seq<Cell>)
    requires SameLayout(s1, s2)
    ensures ZeroIds(s1) == ZeroIds(s2)
  {
    if s1 != [] {
      assert s1[0] == s2[0].(state := s1[0].state);
      ZeroIdsLayout(s1[1..], s2[1..]);
    }
  }

  lemma {:induction false} SameLayoutAppend(a1: seq<Cell>, a2: seq<Cell>, b1: seq<Cell>, b2: seq<Cell>)
    requires SameLayout(a1, a2) && SameLayout(b1, b2)
    ensures SameLayout(a1 + b1, a2 + b2)
  {
    forall k | 0 <= k < |a1| + |b1|
      ensures (a1 + b1)[k] == (a2 + b2)[k].(state := (a1 + b1)[k].state)
    {
      if k >= |a1| {
        assert (a1 + b1)[k] == b1[k - |a1|] && (a2 + b2)[k] == b2[k - |a1|];
      }
    }
  }

  lemma {:induction false} SafeCellsLayout(b1: seq<Cell>, b2: seq<Cell>, s1: seq<Cell>, s2: seq<Cell>)
    requires SameLayout(b1, b2) && SameLayout(s1, s2)
    ensures Ids(SafeCells(b1, s1)) == Ids(SafeCells(b2, s2))
    decreases |BoardIds(b1) - BoardIds(s1)|
  {
    var c1 := NewSafeCells(b1, s1);
    var c2 := NewSafeCells(b2, s2);
    NewSafeCellsLayout(b1, b2, s1, s2);
    if c1 != [] {
      RoundShrinks(b1, s1, c1);
      SameLayoutAppend(s1, s2, c1, c2);
      SafeCellsLayout(b1, b2, s1 + c1, s2 + c2);
    } else {
      assert Ids(s1) == Ids(s2);
    }
  }

  // ---------------------------------------------------------------------
  // The three behaviours of a reveal

  /** Position `i` holds the first cell with id `id`, the one `find` returns. */
  predicate FirstWithId(board: seq<Cell>, id: CellId, i: nat)
  {
    i < |board| && board[i].id == id && forall k :: 0 <= k < i ==> board[k].id != id
  }

  lemma FindIndexFirst(board: seq<Cell>, id: CellId, i: nat)
    requires FirstWithId(board, id, i)
    ensures FindIndex(board, id) == Some(i)
  {
  }

  /** An id that names no cell leaves the board as it is. */
  lemma RevealMissing(board: seq<Cell>, id: CellId)
    requires forall k :: 0 <= k < |board| ==> board[k].id != id
    ensures RevealCell(board, id) == board
  {
  }

  /**
   * A flagged target is un-flagged: the cells with its id become hidden,
   * nothing becomes visible and every other cell is unchanged.
   */
  lemma RevealFlagged(board: seq<Cell>, id: CellId, i: nat)
    requires FirstWithId(board, id, i) && board[i].state == Flag
    ensures var r := RevealCell(board, id);
      && |r| == |board|
      && (forall k :: 0 <= k < |r| && board[k].id == id ==> r[k] == board[k].(state := Hidden))
      && (forall k :: 0 <= k < |r| && board[k].id != id ==> r[k] == board[k])
      && (forall k :: 0 <= k < |r| && r[k].state == Visible ==> board[k].state == Visible)
  {
    FindIndexFirst(board, id, i);
  }

  /**
   * A target that is a mine or has a positive value is revealed alone: the
   * cells with its id become visible and every other cell is unchanged.
   */
  lemma RevealSingle(board: seq<Cell>, id: CellId, i: nat)
    requires FirstWithId(board, id, i) && board[i].state != Flag
    requires board[i].kind == Mine || board[i].value > 0
    ensures var r := RevealCell(board, id);
      && |r| == |board|
      && (forall k :: 0 <= k < |r| && board[k].id == id ==> r[k] == board[k].(state := Visible))
      && (forall k :: 0 <= k < |r| && board[k].id != id ==> r[k] == board[k])
  {
    FindIndexFirst(board, id, i);
  }

  /**
   * A safe target with value 0 starts the cascade: the target and every
   * cell whose id the cascade lists become visible, whatever their state,
   * and every other cell is unchanged. The cascade lists only the target's
   * id and ids of non-mine cells.
   */
  lemma RevealCascade(board: seq<Cell>, id: CellId, i: nat)
    requires FirstWithId(board, id, i) && board[i].state != Flag
    requires board[i].kind == Safe && board[i].value == 0
    ensures var r := RevealCell(board, id);
      var ids := Ids(SafeCells(board, [board[i]]));
      && |r| == |board|
      && r[i] == board[i].(state := Visible)
      && (forall k :: 0 <= k < |r| && board[k].id in ids ==> r[k] == board[k].(state := Visible))
      && (forall k :: 0 <= k < |r| && board[k].id !in ids ==> r[k] == board[k])
      && (forall n :: n in ids ==> n == id || exists c :: c in board && c.kind == Safe && c.id == n)
  {
    FindIndexFirst(board, id, i);
    CascadeFromTarget(board, board[i]);
    assert Ids(SafeCells(board, [board[i]]))[0] == id;
  }

  /**
   * The cascade from `target` starts with `target`; every other id it lists
   * is the id of a non-mine board cell.
   */
  lemma CascadeFromTarget(board: seq<Cell>, target: Cell)
    ensures var cascade := SafeCells(board, [target]);
      && |cascade| >= 1 && cascade[0] == target
      && forall n :: n in Ids(cascade) ==> n == target.id || exists c :: c in board && c.kind == Safe && c.id == n
  {
    var cascade := SafeCells(board, [target]);
    SafeCellsGrow(board, [target]);
    assert cascade[..1] == [target];
    forall n | n in Ids(cascade)
      ensures n == target.id || exists c :: c in board && c.kind == Safe && c.id == n
    {
      var k :| 0 <= k < |cascade| && Ids(cascade)[k] == n;
      assert cascade[k] in cascade;
    }
  }

  /**
   * When ids are distinct and every cell with the target id is safe, a
   * reveal leaves every mine as it was: this is why a first click, whose
   * cell the mine placer keeps safe, never loses.
   */
  lemma RevealSparesMines(board: seq<Cell>, id: CellId)
    requires DistinctIds(board)
    requires forall k :: 0 <= k < |board| && board[k].id == id ==> board[k].kind == Safe
    ensures var r := RevealCell(board, id);
      forall k :: 0 <= k < |board| && board[k].kind == Mine ==> r[k] == board[k]
  {
    var r := RevealCell(board, id);
    match FindIndex(board, id)
    case None =>
    case Some(i) =>
      var target := board[i];
      if target.state != Flag && target.kind == Safe && target.value == 0 {
        RevealCascade(board, id, i);
        CascadeIdsSafe(board, id, Ids(SafeCells(board, [target])));
      }
  }

  /**
   * With distinct ids, a board cell whose id is the target's or the id of
   * some safe board cell is itself safe.
   */
  lemma CascadeIdsSafe(board: seq<Cell>, id: CellId, ids: seq<CellId>)
    requires DistinctIds(board)
    requires forall k :: 0 <= k < |board| && board[k].id == id ==> board[k].kind == Safe
    requires forall n :: n in ids ==> n == id || exists c :: c in board && c.kind == Safe && c.id == n
    ensures forall k :: 0 <= k < |board| && board[k].id in ids ==> board[k].kind == Safe
  {
    forall k | 0 <= k < |board| && board[k].id in ids && board[k].id != id
      ensures board[k].kind == Safe
    {
      var c :| c in board && c.kind == Safe && c.id == board[k].id;
      var m :| 0 <= m < |board| && board[m] == c;
    }
  }

  /** Every id the cascade lists names a cell of the board. */
  lemma CascadeOnBoard(board: seq<Cell>, target: Cell)
    requires target in board
    ensures forall n :: n in Ids(SafeCells(board, [target])) ==> n in BoardIds(board)
  {
    var cascade := SafeCells(board, [target]);
    SafeCellsGrow(board, [target]);
    forall n | n in Ids(cascade)
      ensures n in BoardIds(board)
    {
      var k :| 0 <= k < |cascade| && Ids(cascade)[k] == n;
      assert cascade[k] in cascade;
    }
  }

  // ---------------------------------------------------------------------
  // Idempotence

  lemma SetStateTwice(board: seq<Cell>, ids: seq<CellId>, st: CellState)
    ensures SetState(SetState(board, ids, st), ids, st) == SetState(board, ids, st)
  {
  }

  lemma FindIndexLayout(a: seq<Cell>, b: seq<Cell>, id: CellId)
    requires SameLayout(a, b)
    ensures FindIndex(a, id) == FindIndex(b, id)
  {
    assert forall k :: 0 <= k < |a| ==> a[k].id == b[k].id;
    match FindIndex(b, id)
    case None =>
    case Some(i) => FindIndexFirst(a, id, i);
  }

  /**
   * Revealing twice an id whose first cell is not flagged is revealing it once: the
   * first reveal shows the target, keeps every type, value and neighbour
   * list, and the cascade depends on nothing else.
   */
  lemma RevealIdempotent(board: seq<Cell>, id: CellId)
    requires FindIndex(board, id).Some? ==> board[FindIndex(board, id).value].state != Flag
    ensures RevealCell(RevealCell(board, id), id) == RevealCell(board, id)
  {
    var once := RevealCell(board, id);
    FindIndexLayout(once, board, id);
    match FindIndex(board, id)
    case None =>
    case Some(i) =>
      var target := board[i];
      if target.kind == Mine || target.value > 0 {
        RevealSingle(board, id, i);
        SetStateTwice(board, [id], Visible);
      } else {
        RevealCascade(board, id, i);
        var again := once[i];
        assert SameLayout([again], [target]);
        SafeCellsLayout(once, board, [again], [target]);
        SetStateTwice(board, Ids(SafeCells(board, [target])), Visible);
      }
  }
}
