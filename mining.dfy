/**
 * Mine placement: a seeded Fisher-Yates shuffle of a copy of the board,
 * mines on the first eligible cells of the shuffled order (never on the
 * first-clicked cell), neighbour counts, and a sort back by `order`.
 */
module Mining {
  import opened Types
  import opened Collections
  import opened Sorting

  /**
   * The seeded generator, seen through the one thing the shuffle asks of it:
   * `rng(seed, draw, bound)` is `floor(random() * bound)` for the `draw`-th
   * number drawn from a generator seeded with `seed`, hence below `bound`.
   */
  type Oracle = f: (int, nat, nat) -> nat
    | forall seed, draw, bound :: 0 < bound ==> f(seed, draw, bound) < bound
    witness (seed: int, draw: nat, bound: nat) => 0

  /**
   * The shuffle from position `i` down to 1: position `i` is swapped with a
   * position `j <= i` chosen by the next draw; the draw number is the count
   * of positions already visited.
   */
  function ShuffleDown<T>(s: seq<T>, seed: int, rng: Oracle, i: int): (r: seq<T>)
    requires i < |s|
    ensures |r| == |s|
    decreases i
  {
    if i <= 0 then s
    else ShuffleDown(Swap(s, i, rng(seed, |s| - 1 - i, i + 1)), seed, rng, i - 1)
  }

  /** The Fisher-Yates shuffle of `s` under the generator seeded with `seed`. */
  function Shuffled<T>(s: seq<T>, seed: int, rng: Oracle): (r: seq<T>)
    ensures |r| == |s|
  {
    ShuffleDown(s, seed, rng, |s| - 1)
  }

  /** Every step swaps two positions, so the shuffle rearranges its input. */
  lemma {:induction false} ShuffleDownPermutes<T>(s: seq<T>, seed: int, rng: Oracle, i: int)
    requires i < |s|
    ensures multiset(ShuffleDown(s, seed, rng, i)) == multiset(s)
    decreases i
  {
    if i > 0 {
      var j := rng(seed, |s| - 1 - i, i + 1);
      assert ShuffleDown(s, seed, rng, i) == ShuffleDown(Swap(s, i, j), seed, rng, i - 1);
      SwapPermutes(s, i, j);
      ShuffleDownPermutes(Swap(s, i, j), seed, rng, i - 1);
    }
  }

  lemma ShuffledPermutes<T>(s: seq<T>, seed: int, rng: Oracle)
    ensures multiset(Shuffled(s, seed, rng)) == multiset(s)
  {
    ShuffleDownPermutes(s, seed, rng, |s| - 1);
  }

  /** One step of the shuffle: swapping position `i` leaves the steps below it. */
  lemma ShuffleStep<T>(s: seq<T>, seed: int, rng: Oracle, i: int, j: nat, goal: seq<T>)
    requires 0 < i < |s| && j == rng(seed, |s| - 1 - i, i + 1)
    requires ShuffleDown(s, seed, rng, i) == goal
    ensures j < |s| && ShuffleDown(s[i := s[j]][j := s[i]], seed, rng, i - 1) == goal
  {
  }

  /** The in-place shuffle loop on the copied board. */
  method ShuffleArray<T>(a: array<T>, seed: int, rng: Oracle)
    modifies a
    ensures a[..] == Shuffled(old(a[..]), seed, rng)
  {
    ghost var goal := Shuffled(a[..], seed, rng);
    var i := a.Length - 1;
    while i > 0
      invariant -1 <= i < a.Length
      invariant ShuffleDown(a[..], seed, rng, i) == goal
    {
      var j := rng(seed, a.Length - 1 - i, i + 1);
      ghost var before := a[..];
      ShuffleStep(before, seed, rng, i, j, goal);
      ghost var next := before[i := before[j]][j := before[i]];
      var t := a[i];
      a[i] := a[j];
      a[j] := t;
      assert a[..] == next;
      i := i - 1;
    }
  }

  predicate IsMine(c: Cell)
  {
    c.kind == Mine
  }

  /** A cell that may receive a mine: any cell but the first-clicked one. */
  function NotId(id: CellId): Cell -> bool
  {
    (c: Cell) => c.id != id
  }

  /** A mine whose id is listed in `ids`. */
  function MineIn(ids: seq<CellId>): Cell -> bool
  {
    (c: Cell) => c.kind == Mine && c.id in ids
  }

  function Min(a: int, b: int): int
  {
    if a <= b then a else b
  }

  /**
   * The mine-assignment pass over the shuffled board, `placed` being the
   * number of mines placed so far and `target` the configured mine count:
   * a cell becomes safe when it is the first-clicked cell or when the
   * count has been reached, and a mine otherwise.
   */
  function AssignMines(s: seq<Cell>, initialCellId: CellId, placed: int, target: int): (r: seq<Cell>)
    ensures |r| == |s|
  {
    if s == [] then []
    else if s[0].id == initialCellId || placed == target then
      [s[0].(kind := Safe)] + AssignMines(s[1..], initialCellId, placed, target)
    else
      [s[0].(kind := Mine)] + AssignMines(s[1..], initialCellId, placed + 1, target)
  }

  /** The pass changes nothing but types. */
  lemma {:induction false} AssignMinesKeeps(s: seq<Cell>, initialCellId: CellId, placed: int, target: int)
    ensures var r := AssignMines(s, initialCellId, placed, target);
      forall k :: 0 <= k < |s| ==> r[k] == s[k].(kind := r[k].kind)
  {
    if s != [] {
      var next := if s[0].id == initialCellId || placed == target then placed else placed + 1;
      AssignMinesKeeps(s[1..], initialCellId, next, target);
      var r := AssignMines(s, initialCellId, placed, target);
      assert forall k :: 1 <= k < |s| ==> r[k] == AssignMines(s[1..], initialCellId, next, target)[k - 1];
    }
  }

  /** One cell of the pass: the first cell's type, then the pass over the rest. */
  lemma AssignMinesStep(s: seq<Cell>, initialCellId: CellId, placed: int, target: int)
    requires s != []
    ensures AssignMines(s, initialCellId, placed, target) ==
      if s[0].id == initialCellId || placed == target then
        [s[0].(kind := Safe)] + AssignMines(s[1..], initialCellId, placed, target)
      else
        [s[0].(kind := Mine)] + AssignMines(s[1..], initialCellId, placed + 1, target)
  {
  }

  /**
   * The cell at shuffled position `k` becomes a mine exactly when it is not
   * the first-clicked cell and fewer eligible cells than the remaining count
   * come before it (every eligible cell, once the counter has passed the
   * target and can never equal it again).
   */
  lemma {:induction false} AssignMinesAt(s: seq<Cell>, initialCellId: CellId, placed: int, target: int, k: nat)
    requires k < |s|
    ensures AssignMines(s, initialCellId, placed, target)[k].kind == Mine <==>
      && s[k].id != initialCellId
      && (placed > target || Count(s[..k], NotId(initialCellId)) < target - placed)
  {
    var eligible := NotId(initialCellId);
    if k > 0 {
      var next := if s[0].id == initialCellId || placed == target then placed else placed + 1;
      AssignMinesAt(s[1..], initialCellId, next, target, k - 1);
      assert s[..k] == [s[0]] + s[1..][..k - 1];
      assert Count(s[..k], eligible) == (if eligible(s[0]) then 1 else 0) + Count(s[1..][..k - 1], eligible);
    }
  }

  /**
   * The pass places `min(target - placed, eligible cells)` mines, or a mine
   * on every eligible cell when the counter has already passed the target.
   */
  lemma {:induction false} AssignMinesCount(s: seq<Cell>, initialCellId: CellId, placed: int, target: int)
    ensures Count(AssignMines(s, initialCellId, placed, target), IsMine) ==
      if placed <= target then Min(target - placed, Count(s, NotId(initialCellId)))
      else Count(s, NotId(initialCellId))
  {
    if s != [] {
      var next := if s[0].id == initialCellId || placed == target then placed else placed + 1;
      AssignMinesCount(s[1..], initialCellId, next, target);
      var r := AssignMines(s, initialCellId, placed, target);
      assert r[1..] == AssignMines(s[1..], initialCellId, next, target);
    }
  }

  /** Every cell's value becomes the number of board cells that are mines listed among its neighbours. */
  function WithValues(board: seq<Cell>): (r: seq<Cell>)
    ensures |r| == |board|
    ensures forall k :: 0 <= k < |r| ==>
      r[k] == board[k].(value := Count(board, MineIn(board[k].neighbors)))
  {
    seq(|board|, k requires 0 <= k < |board| =>
      board[k].(value := Count(board, MineIn(board[k].neighbors))))
  }

  /** The comparator `a.order - b.order`, as "comes no later than". */
  function ByOrder(a: Cell, b: Cell): bool
  {
    a.order <= b.order
  }

  lemma ByOrderTotal()
    ensures TotalPreorder(ByOrder)
  {
  }

  /** The shuffled copy with mines placed and values counted, before the sort. */
  function Valued(config: BoardConfiguration, board: seq<Cell>, initialCellId: CellId, rng: Oracle): (r: seq<Cell>)
    ensures |r| == |board|
  {
    WithValues(AssignMines(Shuffled(board, config.seed, rng), initialCellId, 0, config.mines))
  }

  /** The board `mineBoard` returns. */
  function MinedBoard(config: BoardConfiguration, board: seq<Cell>, initialCellId: CellId, rng: Oracle): (r: seq<Cell>)
    ensures |r| == |board|
  {
    SortBy(Valued(config, board, initialCellId, rng), ByOrder)
  }

  /**
   * Position `p` before the sort holds the `p`-th shuffled cell with its
   * type and value changed, and the shuffled cells are the board's.
   */
  lemma ValuedAt(config: BoardConfiguration, board: seq<Cell>, initialCellId: CellId, rng: Oracle)
    ensures var shuffled := Shuffled(board, config.seed, rng);
      var valued := Valued(config, board, initialCellId, rng);
      && multiset(shuffled) == multiset(board)
      && multiset(MinedBoard(config, board, initialCellId, rng)) == multiset(valued)
      && forall p :: 0 <= p < |valued| ==>
        valued[p] == shuffled[p].(kind := valued[p].kind, value := valued[p].value)
  {
    var shuffled := Shuffled(board, config.seed, rng);
    ShuffledPermutes(board, config.seed, rng);
    AssignMinesKeeps(shuffled, initialCellId, 0, config.mines);
  }

  /**
   * The mine-assignment `map` over the shuffled copy, with the counter of
   * placed mines that it updates as it goes.
   */
  method PlaceMines(shuffled: seq<Cell>, initialCellId: CellId, target: int) returns (marked: seq<Cell>)
    ensures marked == AssignMines(shuffled, initialCellId, 0, target)
  {
    ghost var goal := AssignMines(shuffled, initialCellId, 0, target);
    var mines := 0;
    marked := [];
    var i := 0;
    while i < |shuffled|
      invariant 0 <= i <= |shuffled|
      invariant marked + AssignMines(shuffled[i..], initialCellId, mines, target) == goal
    {
      var cell := shuffled[i];
      assert shuffled[i..][1..] == shuffled[i + 1..];
      if initialCellId == cell.id || mines == target {
        marked := marked + [cell.(kind := Safe)];
      } else {
        mines := mines + 1;
        marked := marked + [cell.(kind := Mine)];
      }
      i := i + 1;
    }
    assert shuffled[i..] == [];
  }

  /**
   * `mineBoard`, as the source runs it: a shuffle of a fresh array copied
   * from the board (the caller's board is a value and stays as it was), the
   * counting pass, then the neighbour counts and the sort.
   */
  method MineBoard(config: BoardConfiguration, board: seq<Cell>, initialCellId: CellId, rng: Oracle)
    returns (r: seq<Cell>)
    ensures r == MinedBoard(config, board, initialCellId, rng)
  {
    var a := new Cell[|board|](k requires 0 <= k < |board| => board[k]);
    assert a[..] == board;
    ShuffleArray(a, config.seed, rng);
    var marked := PlaceMines(a[..], initialCellId, config.mines);
    r := SortBy(WithValues(marked), ByOrder);
  }

  // ---------------------------------------------------------------------
  // Properties of the mined board

  /** Every cell of the result is a cell of the board with only its type and value changed. */
  lemma MinedCellsFromBoard(config: BoardConfiguration, board: seq<Cell>, initialCellId: CellId, rng: Oracle, c: Cell)
    requires c in MinedBoard(config, board, initialCellId, rng)
    ensures exists b :: b in board && c == b.(kind := c.kind, value := c.value)
    ensures c.id == initialCellId ==> c.kind == Safe
  {
    var valued := Valued(config, board, initialCellId, rng);
    ValuedAt(config, board, initialCellId, rng);
    assert c in multiset(valued);
    var p :| 0 <= p < |valued| && valued[p] == c;
    ValuedCellFromBoard(config, board, initialCellId, rng, p);
  }

  /** Position `p` before the sort holds a board cell with only its type and value changed, safe when first clicked. */
  lemma ValuedCellFromBoard(config: BoardConfiguration, board: seq<Cell>, initialCellId: CellId, rng: Oracle, p: nat)
    requires p < |board|
    ensures var c := Valued(config, board, initialCellId, rng)[p];
      && (exists b :: b in board && c == b.(kind := c.kind, value := c.value))
      && (c.id == initialCellId ==> c.kind == Safe)
  {
    var shuffled := Shuffled(board, config.seed, rng);
    var c := Valued(config, board, initialCellId, rng)[p];
    ValuedAt(config, board, initialCellId, rng);
    assert shuffled[p] in multiset(board);
    assert shuffled[p] in board && c == shuffled[p].(kind := c.kind, value := c.value);
    if c.id == initialCellId {
      AssignMinesAt(shuffled, initialCellId, 0, config.mines, p);
      AssignMinesKeeps(shuffled, initialCellId, 0, config.mines);
    }
  }

  /** The first-clicked cell is never a mine. */
  lemma InitialCellSafe(config: BoardConfiguration, board: seq<Cell>, initialCellId: CellId, rng: Oracle)
    ensures forall c :: c in MinedBoard(config, board, initialCellId, rng) && c.id == initialCellId ==> c.kind == Safe
  {
    forall c | c in MinedBoard(config, board, initialCellId, rng) && c.id == initialCellId
      ensures c.kind == Safe
    {
      MinedCellsFromBoard(config, board, initialCellId, rng, c);
    }
  }

  /**
   * The number of mines is the configured count, capped by the number of
   * cells other than the first-clicked one (a negative count is never
   * reached by the counter, so every such cell becomes a mine).
   */
  lemma MineCount(config: BoardConfiguration, board: seq<Cell>, initialCellId: CellId, rng: Oracle)
    ensures Count(MinedBoard(config, board, initialCellId, rng), IsMine) ==
      if 0 <= config.mines then Min(config.mines, Count(board, NotId(initialCellId)))
      else Count(board, NotId(initialCellId))
  {
    var shuffled := Shuffled(board, config.seed, rng);
    var marked := AssignMines(shuffled, initialCellId, 0, config.mines);
    var valued := Valued(config, board, initialCellId, rng);
    ValuedAt(config, board, initialCellId, rng);
    AssignMinesCount(shuffled, initialCellId, 0, config.mines);
    CountPermutation(shuffled, board, NotId(initialCellId));
    CountPermutation(MinedBoard(config, board, initialCellId, rng), valued, IsMine);
    CountSameOn(valued, marked, IsMine);
  }

  lemma {:induction false} CountSameOn(a: seq<Cell>, b: seq<Cell>, p: Cell -> bool)
    requires |a| == |b|
    requires forall k :: 0 <= k < |a| ==> p(a[k]) == p(b[k])
    ensures Count(a, p) == Count(b, p)
  {
    if a != [] {
      CountSameOn(a[1..], b[1..], p);
    }
  }

  /** Sorted back by `order`, the result lists the orders `0 .. n - 1` when the board does. */
  lemma MinedOrdersAreRange(config: BoardConfiguration, board: seq<Cell>, initialCellId: CellId, rng: Oracle)
    requires forall k :: 0 <= k < |board| ==> board[k].order == k
    ensures forall k :: 0 <= k < |board| ==> MinedBoard(config, board, initialCellId, rng)[k].order == k
  {
    var n := |board|;
    var shuffled := Shuffled(board, config.seed, rng);
    var valued := Valued(config, board, initialCellId, rng);
    var r := MinedBoard(config, board, initialCellId, rng);
    ValuedAt(config, board, initialCellId, rng);
    assert Map(board, OrderOf) == Range(n);
    assert Map(valued, OrderOf) == Map(shuffled, OrderOf);
    MapPermutation(r, valued, OrderOf);
    MapPermutation(shuffled, board, OrderOf);
    SortBySorted(valued, ByOrder);
    SortedOrdersAscending(r);
    AscendingRange(Map(r, OrderOf), n);
  }

  /** Cells sorted by order list their orders in ascending order. */
  lemma SortedOrdersAscending(r: seq<Cell>)
    requires SortedBy(r, ByOrder)
    ensures Ascending(Map(r, OrderOf))
  {
    var orders := Map(r, OrderOf);
    forall i, j | 0 <= i < j < |orders|
      ensures orders[i] <= orders[j]
    {
      assert ByOrder(r[i], r[j]);
    }
  }

  /**
   * When every cell's `order` is its position (as on an empty board), the
   * result has the board's cells in the board's positions: cell `k` keeps
   * its id, neighbours, state, coordinates and order; only its type and
   * value change. Each value counts the mines of the result listed among
   * the cell's neighbours, so ids naming no cell count nothing.
   */
  lemma MinedBoardInPlace(config: BoardConfiguration, board: seq<Cell>, initialCellId: CellId, rng: Oracle)
    requires forall k :: 0 <= k < |board| ==> board[k].order == k
    ensures var r := MinedBoard(config, board, initialCellId, rng);
      && |r| == |board|
      && (forall k :: 0 <= k < |r| ==> r[k] == board[k].(kind := r[k].kind, value := r[k].value))
      && (forall k :: 0 <= k < |r| ==> r[k].value == Count(r, MineIn(r[k].neighbors)))
  {
    var marked := AssignMines(Shuffled(board, config.seed, rng), initialCellId, 0, config.mines);
    var r := MinedBoard(config, board, initialCellId, rng);
    ValuedAt(config, board, initialCellId, rng);
    forall k | 0 <= k < |r|
      ensures r[k] == board[k].(kind := r[k].kind, value := r[k].value)
      ensures r[k].value == Count(r, MineIn(r[k].neighbors))
    {
      CellInPlace(config, board, initialCellId, rng, k);
      ValueCountsMines(marked, r, r[k]);
    }
  }

  /** With orders equal to positions, cell `k` of the result is board cell `k` with only its type and value changed. */
  lemma CellInPlace(config: BoardConfiguration, board: seq<Cell>, initialCellId: CellId, rng: Oracle, k: nat)
    requires forall k :: 0 <= k < |board| ==> board[k].order == k
    requires k < |board|
    ensures var r := MinedBoard(config, board, initialCellId, rng);
      r[k] == board[k].(kind := r[k].kind, value := r[k].value)
  {
    var r := MinedBoard(config, board, initialCellId, rng);
    MinedOrdersAreRange(config, board, initialCellId, rng);
    MinedCellsFromBoard(config, board, initialCellId, rng, r[k]);
    var b :| b in board && r[k] == b.(kind := r[k].kind, value := r[k].value);
    var j :| 0 <= j < |board| && board[j] == b;
    assert j == k;
  }

  /**
   * In any rearrangement of the counted cells, each cell's value is the
   * number of cells that are mines listed among its neighbours.
   */
  lemma ValueCountsMines(marked: seq<Cell>, r: seq<Cell>, c: Cell)
    requires multiset(r) == multiset(WithValues(marked))
    requires c in r
    ensures c.value == Count(r, MineIn(c.neighbors))
  {
    var valued := WithValues(marked);
    assert c in multiset(valued);
    var p :| 0 <= p < |valued| && valued[p] == c;
    CountSameOn(valued, marked, MineIn(c.neighbors));
    CountPermutation(r, valued, MineIn(c.neighbors));
  }

  /**
   * On a board with distinct ids and orders in place, each cell's value is
   * at most the length of its neighbour list, which the sort leaves as it was.
   */
  lemma MinedValueBound(config: BoardConfiguration, board: seq<Cell>, initialCellId: CellId, rng: Oracle)
    requires forall k :: 0 <= k < |board| ==> board[k].order == k
    requires DistinctIds(board)
    ensures var r := MinedBoard(config, board, initialCellId, rng);
      forall k :: 0 <= k < |r| ==> r[k].neighbors == board[k].neighbors && r[k].value <= |board[k].neighbors|
  {
    var r := MinedBoard(config, board, initialCellId, rng);
    MinedBoardInPlace(config, board, initialCellId, rng);
    assert DistinctIds(r) by {
      forall i, j | 0 <= i < j < |r|
        ensures r[i].id != r[j].id
      {
        assert r[i].id == board[i].id && r[j].id == board[j].id;
      }
    }
    forall k | 0 <= k < |r|
      ensures r[k].value <= |board[k].neighbors|
    {
      var ns := r[k].neighbors;
      CountByDistinctIds(r, MineIn(ns), set n | n in ns);
      SeqSetCard(ns);
    }
  }

  /** Cells with distinct ids that satisfy `p` only by having an id in `ids` are at most `|ids|`. */
  lemma {:induction false} CountByDistinctIds(r: seq<Cell>, p: Cell -> bool, ids: set<CellId>)
    requires DistinctIds(r)
    requires forall k :: 0 <= k < |r| && p(r[k]) ==> r[k].id in ids
    ensures Count(r, p) <= |ids|
    decreases |r|
  {
    if r != [] {
      var rest := r[1..];
      assert DistinctIds(rest) by {
        forall i, j | 0 <= i < j < |rest|
          ensures rest[i].id != rest[j].id
        {
          assert rest[i] == r[i + 1] && rest[j] == r[j + 1];
        }
      }
      if p(r[0]) {
        var others := ids - {r[0].id};
        forall k | 0 <= k < |rest| && p(rest[k])
          ensures rest[k].id in others
        {
          assert rest[k] == r[k + 1];
        }
        CountByDistinctIds(rest, p, others);
      } else {
        forall k | 0 <= k < |rest| && p(rest[k])
          ensures rest[k].id in ids
        {
          assert rest[k] == r[k + 1];
        }
        CountByDistinctIds(rest, p, ids);
      }
    }
  }
}
