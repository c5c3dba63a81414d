/// performMove (ass4.c:477-480): the two cell writes that carry out a move.
module Apply {
  import opened ChessBoard
  import opened Notation

  /** The letter a move leaves on its destination: the promotion piece when it promotes. */
  function Placed(m: Move): char
  {
    if m.isPromotion then m.promotionPiece else m.srcPiece
  }

  /**
   * The board after the move: the destination holds the placed letter, the
   * source is empty (it is written last, so it wins when the two coincide),
   * and every other cell is unchanged.
   */
  function Performed(b: Board, m: Move): (r: Board)
    requires OnBoard(m.iSrc, m.jSrc) && OnBoard(m.iDest, m.jDest)
    ensures forall i, j | OnBoard(i, j) ::
      r[i][j] == (if i == m.iSrc && j == m.jSrc then Empty
                  else if i == m.iDest && j == m.jDest then Placed(m)
                  else b[i][j])
  {
    var withDest := b[m.iDest := b[m.iDest][m.jDest := Placed(m)]];
    withDest[m.iSrc := withDest[m.iSrc][m.jSrc := Empty]]
  }

  /** performMove: writes the destination cell, then clears the source cell. */
  method PerformMove(board: array2<char>, m: Move)
    requires IsBoardArray(board) && OnBoard(m.iSrc, m.jSrc) && OnBoard(m.iDest, m.jDest)
    modifies board
    ensures Cells(board) == Performed(old(Cells(board)), m)
  {
    ghost var b := Cells(board);
    board[m.iDest, m.jDest] := if m.isPromotion then m.promotionPiece else m.srcPiece;
    board[m.iSrc, m.jSrc] := Empty;
    BoardEq(Cells(board), Performed(b, m));
  }
}
