/**
 * The board builder: a row-major grid of hidden, safe cells, each with its
 * coordinates, its id, its row-major `order` and the ids of its neighbours.
 */
module Topology {
  import opened Types
  import opened Collections

  /** The eight neighbour offsets, in the order the builder lists them. */
  const Offsets: seq<(int, int)> :=
    [(-1, -1), (0, -1), (1, -1), (1, 0), (1, 1), (0, 1), (-1, 1), (-1, 0)]

  /** `n` is one of the eight squares around `(x, y)`. */
  predicate Adjacent(n: CellId, x: nat, y: nat)
  {
    n != CellId(x, y) && -1 <= n.x - x <= 1 && -1 <= n.y - y <= 1
  }

  /**
   * Shifts `(x, y)` by every offset and keeps the results with no negative
   * coordinate. Nothing is clipped at the far edges.
   */
  function ShiftAll(offsets: seq<(int, int)>, x: nat, y: nat): (r: seq<CellId>)
    ensures |r| <= |offsets|
    ensures forall n :: n in r <==>
      exists k :: 0 <= k < |offsets| && n.x == x + offsets[k].0 && n.y == y + offsets[k].1
  {
    if offsets == [] then []
    else
      var dx, dy := offsets[0].0, offsets[0].1;
      var rest := ShiftAll(offsets[1..], x, y);
      assert forall k :: 1 <= k < |offsets| ==> offsets[k] == offsets[1..][k - 1];
      assert forall k :: 0 <= k < |offsets| - 1 ==> offsets[1..][k] == offsets[k + 1];
      if x + dx >= 0 && y + dy >= 0 then [CellId(x + dx, y + dy)] + rest else rest
  }

  /** The neighbour ids of the cell at `(x, y)`. */
  function Neighbors(x: nat, y: nat): (r: seq<CellId>)
    ensures |r| <= 8
    ensures forall n :: n in r <==> Adjacent(n, x, y)
  {
    var r := ShiftAll(Offsets, x, y);
    forall n: CellId | Adjacent(n, x, y)
      ensures n in r
    {
      var dx, dy := n.x - x, n.y - y;
      var k :=
        if dx == -1 && dy == -1 then 0
        else if dx == 0 && dy == -1 then 1
        else if dx == 1 && dy == -1 then 2
        else if dx == 1 && dy == 0 then 3
        else if dx == 1 && dy == 1 then 4
        else if dx == 0 && dy == 1 then 5
        else if dx == -1 && dy == 1 then 6
        else 7;
      assert n.x == x + Offsets[k].0 && n.y == y + Offsets[k].1;
    }
    r
  }

  /** The cell at row-major position `i` of a board `columns` wide. */
  function CellAt(columns: nat, i: nat): Cell
    requires columns > 0
  {
    var x := i % columns;
    var y := i / columns;
    Cell(CellId(x, y), Neighbors(x, y), i, Hidden, Safe, 0, x, y)
  }

  /**
   * The empty board of a configuration: `x * y` cells, the one at position
   * `i` in column `i mod x` and row `i div x`, with `order == i`, an id made
   * of its coordinates, hidden, safe, with value 0, and listing exactly the
   * in-range-below-zero neighbours of its square.
   */
  function EmptyBoard(config: BoardConfiguration): (r: seq<Cell>)
    ensures |r| == config.x * config.y
    ensures forall i :: 0 <= i < |r| ==>
      && r[i].x == i % config.x && r[i].y == i / config.x
      && r[i].id == CellId(r[i].x, r[i].y) && r[i].order == i
    ensures forall i :: 0 <= i < |r| ==>
      r[i].state == Hidden && r[i].kind == Safe && r[i].value == 0
    ensures forall i :: 0 <= i < |r| ==>
      && |r[i].neighbors| <= 8
      && forall n :: n in r[i].neighbors <==> Adjacent(n, r[i].x, r[i].y)
  {
    var n := config.x * config.y;
    seq(n, i requires 0 <= i < n => CellAt(config.x, i))
  }

  /** A cell's row lies inside the board. */
  lemma RowInRange(columns: nat, rows: nat, i: nat)
    requires i < columns * rows
    ensures columns > 0 && i / columns < rows
  {
  }

  /**
   * The id of a cell locates it: column plus row times width gives its
   * position back. So the ids of a board are pairwise distinct.
   */
  lemma {:induction false} IdLocatesCell(config: BoardConfiguration, i: nat)
    requires i < |EmptyBoard(config)|
    ensures config.x > 0
    ensures var c := EmptyBoard(config)[i]; c.id.y * config.x + c.id.x == i
  {
    RowInRange(config.x, config.y, i);
    var c := EmptyBoard(config)[i];
    assert c.id.x == i % config.x && c.id.y == i / config.x;
    DivMod(i, config.x);
  }

  lemma DivMod(i: nat, d: nat)
    requires d > 0
    ensures (i / d) * d + i % d == i
  {
  }

  /** The board's ids are pairwise distinct and its orders are `0 .. x*y - 1`. */
  lemma {:induction false} EmptyBoardIdsDistinct(config: BoardConfiguration)
    ensures DistinctIds(EmptyBoard(config))
    ensures Map(EmptyBoard(config), OrderOf) == Range(config.x * config.y)
  {
    var b := EmptyBoard(config);
    forall i, j | 0 <= i < j < |b|
      ensures b[i].id != b[j].id
    {
      IdLocatesCell(config, i);
      IdLocatesCell(config, j);
    }
  }

  /**
   * Neighbour ids are clipped below zero only: the cells of the last column
   * and of the last row list ids in column `x` or row `y`, which name no
   * cell of the board.
   */
  lemma {:induction false} FarEdgeNeighborsOffBoard(config: BoardConfiguration, i: nat)
    requires i < |EmptyBoard(config)|
    ensures var b := EmptyBoard(config); var c := b[i];
      && (c.x == config.x - 1 ==> CellId(config.x, c.y) in c.neighbors)
      && (c.y == config.y - 1 ==> CellId(c.x, config.y) in c.neighbors)
      && CellId(config.x, c.y) !in BoardIds(b)
      && CellId(c.x, config.y) !in BoardIds(b)
  {
    var b := EmptyBoard(config);
    RowInRange(config.x, config.y, i);
    forall k | 0 <= k < |b|
      ensures b[k].x < config.x && b[k].y < config.y
    {
      RowInRange(config.x, config.y, k);
    }
  }
}
