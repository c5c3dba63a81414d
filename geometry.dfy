/// Move shapes and obstruction (ass4.c:244-376): which displacements each
/// piece kind can make, and whether the squares strictly between the source
/// and the destination are empty.
module Geometry {
  import opened ChessBoard
  import opened Notation

  function Abs(x: int): (a: nat)
    ensures a == x || a == -x
  {
    if x < 0 then -x else x
  }

  /** x lies strictly between a and b, in either order. */
  predicate Between(a: int, x: int, b: int) {
    (a < x < b) || (b < x < a)
  }

  /** The upper-case letter of a piece kind, pawns included. */
  predicate IsKindLetter(c: char) {
    IsPiece(c) || c == 'P'
  }

  /** The row a pawn of the given side starts on: rank 2 for White, rank 7 for Black. */
  function HomeRow(isWhite: bool): (i: int)
    ensures OnBoard(i, 0)
  {
    if isWhite then RowToIdx(2) else RowToIdx(Size - 1)
  }

  /** The row step of a forward move: White moves towards row 0. */
  function Forward(isWhite: bool): int {
    if isWhite then -1 else 1
  }

  /**
   * canMoveLikePawn (ass4.c:244-255). A pawn steps one row forward, or two
   * from its home row, and moves one column sideways exactly when it captures.
   */
  function CanMoveLikePawn(m: Move): (r: bool)
    ensures r <==>
      (m.iDest - m.iSrc == Forward(m.isWhite) ||
       (m.iSrc == HomeRow(m.isWhite) && m.iDest - m.iSrc == 2 * Forward(m.isWhite))) &&
      Abs(m.jDest - m.jSrc) == (if m.isCapture then 1 else 0)
  {
    var iDiff := m.iDest - m.iSrc;
    var isSecondRowForBlack := m.iSrc == RowToIdx(Size - 1);
    var isSecondRowForWhite := m.iSrc == RowToIdx(2);
    var isRowLegal := (m.isWhite && isSecondRowForWhite && (iDiff == -2 || iDiff == -1)) ||
                      (m.isWhite && iDiff == -1) ||
                      (!m.isWhite && isSecondRowForBlack && (iDiff == 2 || iDiff == 1)) ||
                      (!m.isWhite && iDiff == 1);
    var jDiff := Abs(m.jDest - m.jSrc);
    var isColLegal := (m.isCapture && jDiff == 1) || (!m.isCapture && jDiff == 0);
    isRowLegal && isColLegal
  }

  /** canMoveLikeKing (ass4.c:257-261): exactly the squares at Chebyshev distance 1. */
  function CanMoveLikeKing(m: Move): (r: bool)
    ensures r <==> Max(Abs(m.iDest - m.iSrc), Abs(m.jDest - m.jSrc)) == 1
  {
    (Abs(m.iDest - m.iSrc) == 1 && Abs(m.jDest - m.jSrc) == 1) ||
    (Abs(m.iDest - m.iSrc) == 1 && m.jDest == m.jSrc) ||
    (Abs(m.jDest - m.jSrc) == 1 && m.iDest == m.iSrc)
  }

  function Max(a: int, b: int): int {
    if a < b then b else a
  }

  /** canMoveLikeQueen (ass4.c:263-266): the union of the rook's and the bishop's shapes. */
  function CanMoveLikeQueen(m: Move): (r: bool)
    ensures r == (CanMoveLikeRook(m) || CanMoveLikeBishop(m))
  {
    m.iDest == m.iSrc || m.jDest == m.jSrc ||
    Abs(m.iDest - m.iSrc) == Abs(m.jDest - m.jSrc)
  }

  /** canMoveLikeBishop (ass4.c:268-270): a diagonal, so the square keeps its colour. */
  function CanMoveLikeBishop(m: Move): (r: bool)
    ensures r ==> (m.iSrc + m.jSrc) % 2 == (m.iDest + m.jDest) % 2
  {
    Abs(m.iDest - m.iSrc) == Abs(m.jDest - m.jSrc)
  }

  /** canMoveLikeKnight (ass4.c:272-275): the displacement has squared length 5. */
  function CanMoveLikeKnight(m: Move): (r: bool)
    ensures r <==> KnightJump(m.iDest - m.iSrc, m.jDest - m.jSrc)
  {
    KnightLengths(m.iDest - m.iSrc, m.jDest - m.jSrc);
    (Abs(m.iDest - m.iSrc) == 1 && Abs(m.jDest - m.jSrc) == 2) ||
    (Abs(m.iDest - m.iSrc) == 2 && Abs(m.jDest - m.jSrc) == 1)
  }

  /** The knight's jump as a length: di² + dj² == 5. */
  predicate KnightJump(di: int, dj: int) {
    di * di + dj * dj == 5
  }

  /** The only integer solutions of di² + dj² == 5 are |di|, |dj| in {1, 2}. */
  lemma KnightLengths(di: int, dj: int)
    ensures KnightJump(di, dj) <==>
      (Abs(di) == 1 && Abs(dj) == 2) || (Abs(di) == 2 && Abs(dj) == 1)
  {
    var a, b := Abs(di), Abs(dj);
    assert di * di == a * a && dj * dj == b * b;
    if a >= 3 {
      assert a * a >= 9 by { SquareGrows(3, a); }
      assert b * b >= 0;
    } else if b >= 3 {
      assert b * b >= 9 by { SquareGrows(3, b); }
      assert a * a >= 0;
    }
  }

  /** Squaring is monotone on non-negative numbers. */
  lemma SquareGrows(k: nat, a: int)
    requires k <= a
    ensures a * a >= k * k
  {
  }

  /** canMoveLikeRook (ass4.c:277-279): same row or same column. */
  function CanMoveLikeRook(m: Move): (r: bool)
    ensures r <==> (m.iDest - m.iSrc) * (m.jDest - m.jSrc) == 0
  {
    m.iDest == m.iSrc || m.jDest == m.jSrc
  }

  /**
   * canMoveLikeThis (ass4.c:281-292): the shape test of the moving piece's
   * kind, whatever its case. The source falls off the end of its switch for
   * any other letter, so the letter must name a kind.
   */
  function CanMoveLikeThis(m: Move): (r: bool)
    requires IsKindLetter(ToUpper(m.srcPiece)) && OnBoard(m.iDest, m.jDest)
    ensures r && ToUpper(m.srcPiece) in {'K', 'N', 'P'} ==> (m.iSrc, m.jSrc) != (m.iDest, m.jDest)
  {
    match ToUpper(m.srcPiece)
    case 'K' => CanMoveLikeKing(m)
    case 'Q' => CanMoveLikeQueen(m)
    case 'B' => CanMoveLikeBishop(m)
    case 'N' => CanMoveLikeKnight(m)
    case 'R' => CanMoveLikeRook(m)
    case _ => CanMoveLikePawn(m)
  }

  /** Only the pawn's shape depends on the side that moves and on the capture flag. */
  lemma ShapeIgnoresSideUnlessPawn(m: Move, isWhite: bool, isCapture: bool)
    requires IsKindLetter(ToUpper(m.srcPiece)) && OnBoard(m.iDest, m.jDest) && ToUpper(m.srcPiece) != 'P'
    ensures CanMoveLikeThis(m) == CanMoveLikeThis(m.(isWhite := isWhite, isCapture := isCapture))
  {
  }

  /** The move seen from the other side of the board: rows reversed and colour swapped. */
  function Mirror(m: Move): Move {
    m.(iSrc := Size - 1 - m.iSrc, iDest := Size - 1 - m.iDest, isWhite := !m.isWhite)
  }

  /** The pawn rules of the two sides are mirror images of each other. */
  lemma PawnMirror(m: Move)
    ensures CanMoveLikePawn(Mirror(m)) == CanMoveLikePawn(m)
  {
  }

  /** A king's step is also a queen's move; a knight's jump is no rook's, bishop's or queen's move. */
  lemma ShapeInclusions(m: Move)
    ensures CanMoveLikeKing(m) ==> CanMoveLikeQueen(m)
    ensures CanMoveLikeKnight(m) ==> !CanMoveLikeRook(m) && !CanMoveLikeBishop(m) && !CanMoveLikeQueen(m)
  {
  }

  // ---------------------------------------------------------------------
  // Obstruction

  /** The step sign the source uses towards `to`: 1 when it is greater, else -1. */
  function Sign(from: int, to: int): int {
    if to > from then 1 else -1
  }

  /** A diagonal move: equal absolute row and column differences. */
  predicate IsDiagonal(iFrom: int, jFrom: int, iTo: int, jTo: int) {
    Abs(iTo - iFrom) == Abs(jTo - jFrom)
  }

  /** A line move: exactly one of the two coordinates changes. */
  predicate IsLine(iFrom: int, jFrom: int, iTo: int, jTo: int) {
    (iFrom != iTo && jFrom == jTo) || (iFrom == iTo && jFrom != jTo)
  }

  /** The cell d diagonal steps from (iFrom, jFrom) towards (iTo, jTo). */
  function Along(b: Board, iFrom: int, jFrom: int, iTo: int, jTo: int, d: int): char
    requires OnBoard(iFrom, jFrom) && OnBoard(iTo, jTo) && IsDiagonal(iFrom, jFrom, iTo, jTo)
    requires 0 <= d <= Abs(iTo - iFrom)
  {
    b[iFrom + Sign(iFrom, iTo) * d][jFrom + Sign(jFrom, jTo) * d]
  }

  /** isDiagonalClear as a value: a diagonal whose inner cells are all empty. */
  predicate DiagonalClear(b: Board, iFrom: int, jFrom: int, iTo: int, jTo: int)
    requires OnBoard(iFrom, jFrom) && OnBoard(iTo, jTo)
  {
    IsDiagonal(iFrom, jFrom, iTo, jTo) &&
    forall d | 0 < d < Abs(iTo - iFrom) :: Along(b, iFrom, jFrom, iTo, jTo, d) == Empty
  }

  /** isLineClear as a value: a line whose inner cells are all empty. */
  predicate LineClear(b: Board, iFrom: int, jFrom: int, iTo: int, jTo: int)
    requires OnBoard(iFrom, jFrom) && OnBoard(iTo, jTo)
  {
    IsLine(iFrom, jFrom, iTo, jTo) &&
    (iFrom == iTo ==> forall j | 0 <= j < Size && Between(jFrom, j, jTo) :: b[iFrom][j] == Empty) &&
    (jFrom == jTo ==> forall i | 0 <= i < Size && Between(iFrom, i, iTo) :: b[i][jFrom] == Empty)
  }

  /**
   * isDiagonalClear (ass4.c:294-311): walks the diagonal from the cell after
   * the source up to the one before the destination and stops at the first
   * occupied cell.
   */
  method IsDiagonalClear(board: array2<char>, iFrom: int, jFrom: int, iTo: int, jTo: int) returns (r: bool)
    requires IsBoardArray(board) && OnBoard(iFrom, jFrom) && OnBoard(iTo, jTo)
    ensures r == DiagonalClear(Cells(board), iFrom, jFrom, iTo, jTo)
  {
    if Abs(iTo - iFrom) != Abs(jTo - jFrom) {
      return false;
    }
    ghost var b := Cells(board);
    var iSign := if iTo > iFrom then 1 else -1;
    var jSign := if jTo > jFrom then 1 else -1;
    var distance := Abs(iTo - iFrom);
    var d := 1;
    while d < distance
      invariant 1 <= d
      invariant forall d' | 0 < d' < d && d' < distance :: Along(b, iFrom, jFrom, iTo, jTo, d') == Empty
    {
      var i := iFrom + iSign * d;
      var j := jFrom + jSign * d;
      if board[i, j] != Empty {
        assert Along(b, iFrom, jFrom, iTo, jTo, d) != Empty;
        return false;
      }
      d := d + 1;
    }
    return true;
  }

  /**
   * isLineClear (ass4.c:313-338): walks the open interval between the two
   * ends along the row or the column they share and stops at the first
   * occupied cell.
   */
  method IsLineClear(board: array2<char>, iFrom: int, jFrom: int, iTo: int, jTo: int) returns (r: bool)
    requires IsBoardArray(board) && OnBoard(iFrom, jFrom) && OnBoard(iTo, jTo)
    ensures r == LineClear(Cells(board), iFrom, jFrom, iTo, jTo)
  {
    if !((iFrom != iTo && jFrom == jTo) || (iFrom == iTo && jFrom != jTo)) {
      return false;
    }
    ghost var b := Cells(board);
    var iMin := if iFrom < iTo then iFrom else iTo;
    var iMax := if iFrom > iTo then iFrom else iTo;
    var jMin := if jFrom < jTo then jFrom else jTo;
    var jMax := if jFrom > jTo then jFrom else jTo;
    if iMin == iMax {
      var j := jMin + 1;
      while j < jMax
        invariant jMin < j <= jMax
        invariant forall j' | jMin < j' < j :: b[iMin][j'] == Empty
      {
        if board[iMin, j] != Empty {
          assert Between(jFrom, j, jTo);
          return false;
        }
        j := j + 1;
      }
    } else if jMin == jMax {
      var i := iMin + 1;
      while i < iMax
        invariant iMin < i <= iMax
        invariant forall i' | iMin < i' < i :: b[i'][jMin] == Empty
      {
        if board[i, jMin] != Empty {
          assert Between(iFrom, i, iTo);
          return false;
        }
        i := i + 1;
      }
    }
    return true;
  }

  /** isClearPath as a value: the obstruction test of the moving piece's kind. */
  predicate ClearPath(b: Board, m: Move)
    requires OnBoard(m.iSrc, m.jSrc) && OnBoard(m.iDest, m.jDest) && IsKindLetter(ToUpper(m.srcPiece))
  {
    var piece := ToUpper(m.srcPiece);
    if piece == 'P' && m.isCapture then DiagonalClear(b, m.iSrc, m.jSrc, m.iDest, m.jDest)
    else if piece == 'P' then LineClear(b, m.iSrc, m.jSrc, m.iDest, m.jDest)
    else if piece == 'K' || piece == 'N' then true
    else if piece == 'Q' then
      DiagonalClear(b, m.iSrc, m.jSrc, m.iDest, m.jDest) || LineClear(b, m.iSrc, m.jSrc, m.iDest, m.jDest)
    else if piece == 'B' then DiagonalClear(b, m.iSrc, m.jSrc, m.iDest, m.jDest)
    else LineClear(b, m.iSrc, m.jSrc, m.iDest, m.jDest)
  }

  /**
   * isClearPath (ass4.c:340-376): a capturing pawn needs a clear diagonal, a
   * pawn that does not capture a clear line, kings and knights jump, and the
   * sliding pieces need a clear diagonal or line as their shape allows.
   */
  method IsClearPath(board: array2<char>, m: Move) returns (r: bool)
    requires IsBoardArray(board)
    requires OnBoard(m.iSrc, m.jSrc) && OnBoard(m.iDest, m.jDest) && IsKindLetter(ToUpper(m.srcPiece))
    ensures r == ClearPath(Cells(board), m)
  {
    var piece := ToUpper(m.srcPiece);
    var iFrom, jFrom, iTo, jTo := m.iSrc, m.jSrc, m.iDest, m.jDest;
    if piece == 'P' && m.isCapture {
      r := IsDiagonalClear(board, iFrom, jFrom, iTo, jTo);
    } else if piece == 'P' && !m.isCapture {
      r := IsLineClear(board, iFrom, jFrom, iTo, jTo);
    } else if piece == 'K' || piece == 'N' {
      r := true;
    } else if piece == 'Q' {
      r := IsDiagonalClear(board, iFrom, jFrom, iTo, jTo);
      if !r {
        r := IsLineClear(board, iFrom, jFrom, iTo, jTo);
      }
    } else if piece == 'B' {
      r := IsDiagonalClear(board, iFrom, jFrom, iTo, jTo);
    } else {
      r := IsLineClear(board, iFrom, jFrom, iTo, jTo);
    }
  }

  // ---------------------------------------------------------------------
  // Properties of the obstruction tests

  /** (i, j) lies strictly inside the diagonal segment from (iFrom, jFrom) to (iTo, jTo). */
  predicate InsideDiagonal(iFrom: int, jFrom: int, iTo: int, jTo: int, i: int, j: int) {
    Between(iFrom, i, iTo) && Between(jFrom, j, jTo) && Abs(i - iFrom) == Abs(j - jFrom)
  }

  /**
   * The walk of isDiagonalClear visits exactly the cells strictly inside the
   * diagonal: the test holds iff the move is diagonal and all of them are empty.
   */
  lemma {:induction false} DiagonalClearMeansInsideEmpty(b: Board, iFrom: int, jFrom: int, iTo: int, jTo: int)
    requires OnBoard(iFrom, jFrom) && OnBoard(iTo, jTo)
    ensures DiagonalClear(b, iFrom, jFrom, iTo, jTo) <==>
      IsDiagonal(iFrom, jFrom, iTo, jTo) &&
      forall i, j | OnBoard(i, j) && InsideDiagonal(iFrom, jFrom, iTo, jTo, i, j) :: b[i][j] == Empty
  {
    if IsDiagonal(iFrom, jFrom, iTo, jTo) {
      var si, sj := Sign(iFrom, iTo), Sign(jFrom, jTo);
      if DiagonalClear(b, iFrom, jFrom, iTo, jTo) {
        forall i, j | OnBoard(i, j) && InsideDiagonal(iFrom, jFrom, iTo, jTo, i, j)
          ensures b[i][j] == Empty
        {
          var d := Abs(i - iFrom);
          assert i == iFrom + si * d && j == jFrom + sj * d;
          assert Along(b, iFrom, jFrom, iTo, jTo, d) == Empty;
        }
      }
      if forall i, j | OnBoard(i, j) && InsideDiagonal(iFrom, jFrom, iTo, jTo, i, j) :: b[i][j] == Empty {
        forall d | 0 < d < Abs(iTo - iFrom)
          ensures Along(b, iFrom, jFrom, iTo, jTo, d) == Empty
        {
          var i, j := iFrom + si * d, jFrom + sj * d;
          assert InsideDiagonal(iFrom, jFrom, iTo, jTo, i, j);
        }
      }
    }
  }

  /** Each obstruction test reads the same from either end. */
  lemma {:induction false} ClearTestsSymmetric(b: Board, iFrom: int, jFrom: int, iTo: int, jTo: int)
    requires OnBoard(iFrom, jFrom) && OnBoard(iTo, jTo)
    ensures DiagonalClear(b, iFrom, jFrom, iTo, jTo) == DiagonalClear(b, iTo, jTo, iFrom, jFrom)
    ensures LineClear(b, iFrom, jFrom, iTo, jTo) == LineClear(b, iTo, jTo, iFrom, jFrom)
  {
    DiagonalClearMeansInsideEmpty(b, iFrom, jFrom, iTo, jTo);
    DiagonalClearMeansInsideEmpty(b, iTo, jTo, iFrom, jFrom);
    if IsDiagonal(iFrom, jFrom, iTo, jTo) {
      forall i, j
        ensures InsideDiagonal(iFrom, jFrom, iTo, jTo, i, j) == InsideDiagonal(iTo, jTo, iFrom, jFrom, i, j)
      {
        if Between(iFrom, i, iTo) && Between(jFrom, j, jTo) {
          assert Abs(i - iTo) == Abs(iTo - iFrom) - Abs(i - iFrom);
          assert Abs(j - jTo) == Abs(jTo - jFrom) - Abs(j - jFrom);
        }
      }
    }
  }

  /**
   * The tests only look at which inner cells are empty: two boards that agree
   * on emptiness everywhere give the same answers.
   */
  lemma {:induction false} ClearPathSeesOnlyEmptiness(b1: Board, b2: Board, m: Move)
    requires OnBoard(m.iSrc, m.jSrc) && OnBoard(m.iDest, m.jDest) && IsKindLetter(ToUpper(m.srcPiece))
    requires forall i, j | OnBoard(i, j) :: (b1[i][j] == Empty) == (b2[i][j] == Empty)
    ensures ClearPath(b1, m) == ClearPath(b2, m)
  {
    var iF, jF, iT, jT := m.iSrc, m.jSrc, m.iDest, m.jDest;
    if IsDiagonal(iF, jF, iT, jT) {
      forall d | 0 < d < Abs(iT - iF)
        ensures (Along(b1, iF, jF, iT, jT, d) == Empty) == (Along(b2, iF, jF, iT, jT, d) == Empty)
      {
        assert OnBoard(iF + Sign(iF, iT) * d, jF + Sign(jF, jT) * d);
      }
    }
    assert DiagonalClear(b1, iF, jF, iT, jT) == DiagonalClear(b2, iF, jF, iT, jT);
    assert LineClear(b1, iF, jF, iT, jT) == LineClear(b2, iF, jF, iT, jT);
  }

  /**
   * The obstruction test also decides the shape of a sliding move: a clear
   * path for a bishop is a bishop's move, for a rook a rook's move, and for a
   * queen a queen's move.
   */
  lemma ClearPathImpliesShape(b: Board, m: Move)
    requires OnBoard(m.iSrc, m.jSrc) && OnBoard(m.iDest, m.jDest) && IsKindLetter(ToUpper(m.srcPiece))
    requires ToUpper(m.srcPiece) in {'Q', 'B', 'R'}
    ensures ClearPath(b, m) ==> CanMoveLikeThis(m)
  {
  }

  /**
   * A pawn's capture passes both tests only as a single diagonal step: the
   * two-row advance the shape test lets through from the home row has no
   * clear diagonal under it.
   */
  lemma PawnCaptureIsOneStep(b: Board, m: Move)
    requires OnBoard(m.iSrc, m.jSrc) && OnBoard(m.iDest, m.jDest) && ToUpper(m.srcPiece) == 'P'
    requires m.isCapture && CanMoveLikePawn(m) && ClearPath(b, m)
    ensures m.iDest - m.iSrc == Forward(m.isWhite) && Abs(m.jDest - m.jSrc) == 1
  {
  }

  /** A move onto its own square is a clear diagonal and never a clear line. */
  lemma NullMoveClearance(b: Board, i: int, j: int)
    requires OnBoard(i, j)
    ensures DiagonalClear(b, i, j, i, j) && !LineClear(b, i, j, i, j)
  {
  }
}
