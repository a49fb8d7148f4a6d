/** Flagging a cell: hidden and flagged swap, a visible cell stays as it is. */
module Flagging {
  import opened Types

  /** The state a flag toggle gives a cell. */
  function Toggle(st: CellState): (r: CellState)
    ensures st == Hidden ==> r == Flag
    ensures st == Flag ==> r == Hidden
    ensures st == Visible ==> r == Visible
  {
    if st == Hidden then Flag else if st == Flag then Hidden else st
  }

  /** `flagCell`: the state of every cell with id `id` is toggled; nothing else changes. */
  function FlagCell(board: seq<Cell>, id: CellId): (r: seq<Cell>)
    ensures SameLayout(r, board)
    ensures forall k :: 0 <= k < |r| && board[k].id != id ==> r[k] == board[k]
    ensures forall k :: 0 <= k < |r| && board[k].id == id ==>
      && (board[k].state == Hidden ==> r[k].state == Flag)
      && (board[k].state == Flag ==> r[k].state == Hidden)
      && (board[k].state == Visible ==> r[k].state == Visible)
  {
    seq(|board|, k requires 0 <= k < |board| =>
      if board[k].id == id then board[k].(state := Toggle(board[k].state)) else board[k])
  }

  /** Toggling twice gives the state back. */
  lemma ToggleTwice(st: CellState)
    ensures Toggle(Toggle(st)) == st
  {
  }

  /** Flagging the same id twice returns the original board. */
  lemma {:induction false} FlagTwice(board: seq<Cell>, id: CellId)
    ensures FlagCell(FlagCell(board, id), id) == board
  {
    var once := FlagCell(board, id);
    var twice := FlagCell(once, id);
    forall k | 0 <= k < |board|
      ensures twice[k] == board[k]
    {
      assert once[k].id == board[k].id;
      if board[k].id == id {
        ToggleTwice(board[k].state);
      }
    }
  }

  /** A flag toggle never makes a cell visible or hides a visible one. */
  lemma FlagKeepsVisibility(board: seq<Cell>, id: CellId)
    ensures var r := FlagCell(board, id);
      forall k :: 0 <= k < |board| ==> (r[k].state == Visible <==> board[k].state == Visible)
  {
  }
}
