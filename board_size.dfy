/** The accepted board sizes: whole numbers from 8 to 24. */
module BoardSize {

  const MinBoardSize: int := 8
  const MaxBoardSize: int := 24

  /** `Number.isInteger` on a finite number. */
  predicate IsInteger(n: real)
  {
    n.Floor as real == n
  }

  /** The number that stands for a whole number. */
  function AsReal(k: int): real
  {
    k as real
  }

  /** `isBoardSizeValid`. */
  predicate IsBoardSizeValid(boardSize: real)
  {
    IsInteger(boardSize) && boardSize >= MinBoardSize as real && boardSize <= MaxBoardSize as real
  }

  /** A size is valid exactly when it is a whole number from 8 to 24. */
  lemma ValidIff(boardSize: real)
    ensures IsBoardSizeValid(boardSize) <==>
      exists k: int :: boardSize == AsReal(k) && MinBoardSize <= k && k <= MaxBoardSize
  {
    if exists k: int :: boardSize == AsReal(k) && MinBoardSize <= k && k <= MaxBoardSize {
      var k: int :| boardSize == AsReal(k) && MinBoardSize <= k && k <= MaxBoardSize;
      assert boardSize.Floor == k;
    }
    if IsBoardSizeValid(boardSize) {
      var k := boardSize.Floor;
      assert boardSize == AsReal(k) && MinBoardSize <= k && k <= MaxBoardSize;
    }
  }

  /** Both bounds and the middle size are valid; a fraction or a size just outside is not. */
  lemma SizeExamples()
    ensures IsBoardSizeValid(8.0) && IsBoardSizeValid(16.0) && IsBoardSizeValid(24.0)
    ensures !IsBoardSizeValid(7.0) && !IsBoardSizeValid(25.0) && !IsBoardSizeValid(8.5)
  {
    assert (8.5).Floor == 8;
  }
}
