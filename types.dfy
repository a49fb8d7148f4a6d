/**
 * The records shared by the whole engine: board configurations and cells.
 */
module Types {

  /** The difficulty a configuration belongs to. */
  datatype Difficulty = Beginner | Intermediate | Expert

  /** How a game was started. */
  datatype GameKind = Daily | Random | Replay

  /**
   * A board configuration. `kind` is the configuration's `type` field
   * ("daily", "random" or "replay"); `type` is a keyword here.
   */
  datatype BoardConfiguration = BoardConfiguration(
    id: Difficulty,
    mines: int,
    seed: int,
    kind: GameKind,
    x: nat,
    y: nat)

  /**
   * A cell id. The game writes ids as the string "x,y"; since that string is
   * injective on non-negative coordinates and ids are only ever compared for
   * equality, the pair of coordinates stands for it.
   */
  datatype CellId = CellId(x: nat, y: nat)

  datatype CellState = Hidden | Flag | Visible

  datatype CellKind = Mine | Safe

  /**
   * One square of the board, with the fields the board builder gives it.
   * `kind` is the cell's `type` field ("mine" or "safe"); `order` is the
   * cell's row-major position, kept so that a shuffled board can be put back.
   */
  datatype Cell = Cell(
    id: CellId,
    neighbors: seq<CellId>,
    order: nat,
    state: CellState,
    kind: CellKind,
    value: nat,
    x: nat,
    y: nat)

  /** The ids of a sequence of cells, in order. */
  function Ids(cells: seq<Cell>): (r: seq<CellId>)
    ensures |r| == |cells|
    ensures forall k :: 0 <= k < |cells| ==> r[k] == cells[k].id
  {
    seq(|cells|, k requires 0 <= k < |cells| => cells[k].id)
  }

  /** A cell's row-major position, the key the mine placer sorts by. */
  function OrderOf(c: Cell): nat
  {
    c.order
  }

  /** The set of ids that name some cell of `board`. */
  function BoardIds(board: seq<Cell>): (r: set<CellId>)
    ensures forall c :: c in board ==> c.id in r
    ensures forall id :: id in r ==> exists c :: c in board && c.id == id
  {
    set c | c in board :: c.id
  }

  /** No two cells of the board share an id. */
  predicate DistinctIds(board: seq<Cell>)
  {
    forall i, j :: 0 <= i < j < |board| ==> board[i].id != board[j].id
  }

  /** The cells of `a` and `b` agree on everything but their state. */
  predicate SameLayout(a: seq<Cell>, b: seq<Cell>)
  {
    |a| == |b| && forall k :: 0 <= k < |a| ==> a[k] == b[k].(state := a[k].state)
  }
}
