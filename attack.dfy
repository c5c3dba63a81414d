/// The attack test isCheck (ass4.c:386-417): where the king of one side
/// stands, and whether a piece of the other side could capture on that square.
module Attack {
  import opened ChessBoard
  import opened Notation
  import opened Geometry

  /** The board letter of a side's king. */
  function KingOf(white: bool): (k: char)
    ensures OfSide(k, white) && ToUpper(k) == 'K'
  {
    if white then 'K' else 'k'
  }

  /** The board has a king of the given side somewhere. */
  predicate HasKing(b: Board, white: bool) {
    exists i, j | 0 <= i < Size && 0 <= j < Size :: b[i][j] == KingOf(white)
  }

  /** The last of the rows 0..n-1 that holds c, or -1. */
  function LastRowWith(b: Board, c: char, n: int): (i: int)
    requires 0 <= n <= Size
    ensures -1 <= i < n
    ensures i >= 0 ==> c in b[i]
    ensures forall i' | i < i' < n :: c !in b[i']
  {
    if n == 0 then -1 else if c in b[n - 1] then n - 1 else LastRowWith(b, c, n - 1)
  }

  /** The first of the columns j..7 of a row that holds c, or 8. */
  function FirstColWith(row: seq<char>, c: char, j: int): (k: int)
    requires 0 <= j <= |row| == Size
    ensures j <= k <= Size
    ensures k < Size ==> row[k] == c
    ensures forall j' | j <= j' < k :: row[j'] != c
    decreases Size - j
  {
    if j == Size then Size else if row[j] == c then j else FirstColWith(row, c, j + 1)
  }

  /**
   * The square the king search of isCheck settles on (ass4.c:389-397): its
   * `break` leaves only the inner loop, so the last row holding the king
   * wins, and in that row the first column.
   */
  function KingRow(b: Board, white: bool): int
    requires HasKing(b, white)
  {
    LastRowWith(b, KingOf(white), Size)
  }

  function KingCol(b: Board, white: bool): int
    requires HasKing(b, white)
  {
    KingFound(b, white);
    FirstColWith(b[KingRow(b, white)], KingOf(white), 0)
  }

  /** The search for a king that is on the board finds a square that holds it. */
  lemma KingFound(b: Board, white: bool)
    requires HasKing(b, white)
    ensures OnBoard(KingRow(b, white), 0)
    ensures var i := KingRow(b, white);
      FirstColWith(b[i], KingOf(white), 0) < Size && b[i][FirstColWith(b[i], KingOf(white), 0)] == KingOf(white)
  {
    var i, j :| 0 <= i < Size && 0 <= j < Size && b[i][j] == KingOf(white);
    assert KingOf(white) in b[i];
  }

  /** With a single king on the board, the search finds exactly its square. */
  lemma LoneKingFound(b: Board, white: bool, i: int, j: int)
    requires OnBoard(i, j) && b[i][j] == KingOf(white)
    requires forall i', j' | OnBoard(i', j') && b[i'][j'] == KingOf(white) :: i' == i && j' == j
    ensures HasKing(b, white) && KingRow(b, white) == i && KingCol(b, white) == j
  {
    KingFound(b, white);
    assert KingOf(white) in b[i];
  }

  /**
   * The move isCheck tries for the piece on (i, j) (ass4.c:398-409): a
   * capture by the side other than the king's onto the king's square.
   */
  function Probe(piece: char, i: int, j: int, iKing: int, jKing: int, kingWhite: bool): Move
  {
    InitMove(!kingWhite).(iDest := iKing, jDest := jKing, isCapture := true,
                          srcPiece := piece, iSrc := i, jSrc := j)
  }

  /** The piece on (i, j) belongs to the other side and could capture on (iKing, jKing). */
  predicate Attacks(b: Board, i: int, j: int, iKing: int, jKing: int, kingWhite: bool)
    requires OnBoard(i, j) && OnBoard(iKing, jKing)
  {
    OfSide(b[i][j], !kingWhite) &&
    var m := Probe(b[i][j], i, j, iKing, jKing, kingWhite);
    CanMoveLikeThis(m) && ClearPath(b, m)
  }

  /** isCheck as a value: some piece of the other side attacks the square the search finds. */
  predicate InCheck(b: Board, kingWhite: bool)
    requires HasKing(b, kingWhite)
  {
    KingFound(b, kingWhite);
    exists i, j | 0 <= i < Size && 0 <= j < Size :: Attacks(b, i, j, KingRow(b, kingWhite), KingCol(b, kingWhite), kingWhite)
  }

  /**
   * The king search at the head of isCheck (ass4.c:387-397). Its `break`
   * leaves only the inner loop, so a later row that also holds the king
   * overrides an earlier one.
   */
  method FindKing(board: array2<char>, isKingWhite: bool) returns (iKing: int, jKing: int)
    requires IsBoardArray(board) && HasKing(Cells(board), isKingWhite)
    ensures iKing == KingRow(Cells(board), isKingWhite) && jKing == KingCol(Cells(board), isKingWhite)
    ensures OnBoard(iKing, jKing) && board[iKing, jKing] == KingOf(isKingWhite)
  {
    ghost var b := Cells(board);
    var king := KingOf(isKingWhite);
    iKing, jKing := -1, -1;
    for i := 0 to Size
      invariant iKing == LastRowWith(b, king, i)
      invariant iKing >= 0 ==> jKing == FirstColWith(b[iKing], king, 0)
    {
      for j := 0 to Size
        invariant forall j' | 0 <= j' < j :: b[i][j'] != king
        invariant iKing == LastRowWith(b, king, i)
        invariant iKing >= 0 ==> jKing == FirstColWith(b[iKing], king, 0)
      {
        if board[i, j] == king {
          iKing := i;
          jKing := j;
          assert FirstColWith(b[i], king, 0) == j by { FirstColSkips(b[i], king, 0, j); }
          break;
        }
      }
    }
    KingFound(b, isKingWhite);
  }

  /**
   * isCheck (ass4.c:386-417): finds the king, then tries every square in
   * row-major order and stops at the first piece of the other side whose
   * capture onto the king's square passes the shape and obstruction tests.
   * The source reads an unset king position when there is no king, so one
   * is required.
   */
  method IsCheck(board: array2<char>, isKingWhite: bool) returns (r: bool)
    requires IsBoardArray(board) && HasKing(Cells(board), isKingWhite)
    ensures r == InCheck(Cells(board), isKingWhite)
  {
    ghost var b := Cells(board);
    var iKing, jKing := FindKing(board, isKingWhite);
    var move := InitMove(!isKingWhite).(iDest := iKing, jDest := jKing, isCapture := true);
    for i := 0 to Size
      invariant move == Probe(move.srcPiece, move.iSrc, move.jSrc, iKing, jKing, isKingWhite)
      invariant !AttackedBefore(b, i, 0, iKing, jKing, isKingWhite)
    {
      var found;
      move, found := AttackerInRow(board, i, iKing, jKing, isKingWhite, move);
      if found {
        return true;
      }
    }
    AttackedBeforeMeans(b, Size, 0, iKing, jKing, isKingWhite);
    return false;
  }

  /**
   * The inner loop of the attacker scan of isCheck over row i
   * (ass4.c:403-413): found when some piece of the row attacks the king.
   */
  method AttackerInRow(board: array2<char>, i: int, iKing: int, jKing: int, isKingWhite: bool, move0: Move)
    returns (move: Move, found: bool)
    requires IsBoardArray(board) && 0 <= i < Size && OnBoard(iKing, jKing)
    requires move0 == Probe(move0.srcPiece, move0.iSrc, move0.jSrc, iKing, jKing, isKingWhite)
    requires !AttackedBefore(Cells(board), i, 0, iKing, jKing, isKingWhite)
    ensures move == Probe(move.srcPiece, move.iSrc, move.jSrc, iKing, jKing, isKingWhite)
    ensures found ==> exists j | 0 <= j < Size :: Attacks(Cells(board), i, j, iKing, jKing, isKingWhite)
    ensures !found ==> !AttackedBefore(Cells(board), i + 1, 0, iKing, jKing, isKingWhite)
  {
    ghost var b := Cells(board);
    move := move0;
    for j := 0 to Size
      invariant move == Probe(move.srcPiece, move.iSrc, move.jSrc, iKing, jKing, isKingWhite)
      invariant !AttackedBefore(b, i, j, iKing, jKing, isKingWhite)
    {
      var piece := board[i, j];
      if (isKingWhite && IsBlack(piece)) || (!isKingWhite && IsWhite(piece)) {
        move := move.(srcPiece := piece, iSrc := i, jSrc := j);
        assert move == Probe(b[i][j], i, j, iKing, jKing, isKingWhite);
        var ok := CanMoveLikeThis(move);
        if ok {
          ok := IsClearPath(board, move);
        }
        assert ok == Attacks(b, i, j, iKing, jKing, isKingWhite);
        if ok {
          return move, true;
        }
      } else {
        assert !OfSide(b[i][j], !isKingWhite);
      }
    }
    found := false;
  }

  /** (i', j') comes before (i, j) in the row-major order of the scans. */
  predicate Earlier(i': int, j': int, i: int, j: int) {
    i' < i || (i' == i && j' < j)
  }

  /**
   * Some square before (i, j) in row-major order holds an attacker of
   * (iKing, jKing): the value of the scan of isCheck when it reaches (i, j).
   */
  predicate AttackedBefore(b: Board, i: int, j: int, iKing: int, jKing: int, kingWhite: bool)
    requires 0 <= i <= Size && 0 <= j <= Size && (i < Size || j == 0) && OnBoard(iKing, jKing)
    decreases i, j
  {
    if j == 0 then i > 0 && AttackedBefore(b, i - 1, Size, iKing, jKing, kingWhite)
    else AttackedBefore(b, i, j - 1, iKing, jKing, kingWhite) || Attacks(b, i, j - 1, iKing, jKing, kingWhite)
  }

  /** The scan's running value is the existence of an attacker among the squares passed. */
  lemma {:induction false} AttackedBeforeMeans(b: Board, i: int, j: int, iKing: int, jKing: int, kingWhite: bool)
    requires 0 <= i <= Size && 0 <= j <= Size && (i < Size || j == 0) && OnBoard(iKing, jKing)
    ensures AttackedBefore(b, i, j, iKing, jKing, kingWhite) <==>
      exists i', j' | 0 <= i' < Size && 0 <= j' < Size && Earlier(i', j', i, j) :: Attacks(b, i', j', iKing, jKing, kingWhite)
    decreases i, j
  {
    if j == 0 {
      if i > 0 {
        AttackedBeforeMeans(b, i - 1, Size, iKing, jKing, kingWhite);
      }
    } else {
      AttackedBeforeMeans(b, i, j - 1, iKing, jKing, kingWhite);
    }
  }

  /** Skipping columns that do not hold c leaves the first-match search unchanged. */
  lemma {:induction false} FirstColSkips(row: seq<char>, c: char, j: int, k: int)
    requires 0 <= j <= k < |row| == Size
    requires forall j' | j <= j' < k :: row[j'] != c
    ensures FirstColWith(row, c, j) == FirstColWith(row, c, k)
    decreases k - j
  {
    if j < k {
      FirstColSkips(row, c, j + 1, k);
    }
  }

  /**
   * A knight of the other side a knight's jump from the lone king gives
   * check, whatever stands between them.
   */
  lemma KnightGivesCheck(b: Board, white: bool, iKing: int, jKing: int, i: int, j: int)
    requires OnBoard(iKing, jKing) && b[iKing][jKing] == KingOf(white)
    requires forall i', j' | OnBoard(i', j') && b[i'][j'] == KingOf(white) :: i' == iKing && j' == jKing
    requires OnBoard(i, j) && b[i][j] == (if white then 'n' else 'N')
    requires KnightJump(iKing - i, jKing - j)
    ensures HasKing(b, white) && InCheck(b, white)
  {
    LoneKingFound(b, white, iKing, jKing);
    KnightLengths(iKing - i, jKing - j);
    assert Attacks(b, i, j, iKing, jKing, white);
  }

  /** Check needs an attacker: a board without pieces of the other side never shows check. */
  lemma NoAttackerNoCheck(b: Board, white: bool)
    requires HasKing(b, white)
    requires forall i, j | OnBoard(i, j) :: !OfSide(b[i][j], !white)
    ensures !InCheck(b, white)
  {
  }
}
