/// The resolver (ass4.c:421-491): inferSrc looks for the square the moving
/// piece comes from, parseMove rejects impossible destinations before the
/// search, and makeMove plays a legal move on the board.
module Resolver {
  import opened ChessBoard
  import opened Notation
  import opened Geometry
  import opened Attack
  import opened Apply

  datatype Option<T> = None | Some(value: T)

  // ---------------------------------------------------------------------
  // Source hints

  /**
   * The rank test of inferSrc as written (ass4.c:424): the hint character
   * itself, not its digit value, goes to rowToIdx. None stands for the
   * failed assert of rowToIdx (ass4.c:124); Some(t) for the comparison
   * with row i when the assert holds.
   */
  function RowTestAsWritten(srcRow: char, i: int): (t: Option<bool>)
    ensures t.Some? <==> 0 < srcRow as int <= Size
  {
    if 0 < srcRow as int <= Size then Some(RowToIdx(srcRow as int) == i) else None
  }

  /**
   * No rank hint the parser stores ever selects a row as written: the
   * assert fails, and with asserts compiled out the computed index lies
   * below every row.
   */
  lemma RankHintNeverMatchesAsWritten(c: char, i: int)
    requires '1' <= c <= '8' && OnBoard(i, 0)
    ensures RowTestAsWritten(c, i).None?
    ensures Size - c as int < i
  {
  }

  /** The rank test as intended: the row of the hinted rank. */
  function RowHintIdx(srcRow: char): (i: int)
    requires '1' <= srcRow <= '8'
    ensures OnBoard(i, 0) && IdxToRow(i) == ToDigit(srcRow)
  {
    RowToIdx(ToDigit(srcRow))
  }

  /**
   * The intended rank test selects exactly the row whose rank inferSrc writes
   * back into srcRow on success (ass4.c:455).
   */
  lemma RowHintRoundTrip(c: char, i: int)
    requires '1' <= c <= '8' && OnBoard(i, 0)
    ensures RowHintIdx(c) == i <==> ToChar(IdxToRow(i)) == c
  {
    if ToChar(IdxToRow(i)) == c {
      assert ToDigit(c) == IdxToRow(i);
    }
  }

  /** Hints the tests of inferSrc can evaluate: a rank 1..8 and a file a..h, or none. */
  predicate ValidHints(m: Move) {
    (m.srcRow == Undefined || '1' <= m.srcRow <= '8') && (m.srcCol == Undefined || IsColumn(m.srcCol))
  }

  /** The square (i, j) agrees with the hints the move carries. */
  predicate HintsMatch(m: Move, i: int, j: int)
    requires ValidHints(m)
  {
    (m.srcRow == Undefined || RowHintIdx(m.srcRow) == i) &&
    (m.srcCol == Undefined || ColToIdx(m.srcCol) == j)
  }

  // ---------------------------------------------------------------------
  // The search

  /**
   * What inferSrc needs to run without failing an assert or reading an unset
   * king position: a destination on the board that holds neither a piece of
   * the mover nor a king, a moving piece of the mover's side, evaluable
   * hints, both kings on the board, and no promotion of a king (which would
   * take the mover's king off the scratch board). After the early rejection
   * of parseMove only the kings remain to be required.
   */
  predicate SearchSafe(b: Board, m: Move) {
    OnBoard(m.iDest, m.jDest) &&
    IsKindLetter(ToUpper(m.srcPiece)) && OfSide(m.srcPiece, m.isWhite) && ValidHints(m) &&
    HasKing(b, m.isWhite) && HasKing(b, !m.isWhite) &&
    !OfSide(b[m.iDest][m.jDest], m.isWhite) && ToUpper(b[m.iDest][m.jDest]) != 'K' &&
    !(ToUpper(m.srcPiece) == 'K' && m.isPromotion)
  }

  /** The move from (i, j). */
  function At(m: Move, i: int, j: int): Move
  {
    m.(iSrc := i, jSrc := j)
  }

  /** The scratch board of inferSrc keeps a king of each side. */
  lemma KingsSurvive(b: Board, m: Move, i: int, j: int)
    requires SearchSafe(b, m) && OnBoard(i, j) && b[i][j] == m.srcPiece
    ensures HasKing(Performed(b, At(m, i, j)), m.isWhite) && HasKing(Performed(b, At(m, i, j)), !m.isWhite)
  {
    var t := Performed(b, At(m, i, j));
    var ki, kj :| 0 <= ki < Size && 0 <= kj < Size && b[ki][kj] == KingOf(m.isWhite);
    if ki == i && kj == j {
      assert t[m.iDest][m.jDest] == KingOf(m.isWhite);
    } else {
      assert t[ki][kj] == KingOf(m.isWhite);
    }
    var oi, oj :| 0 <= oi < Size && 0 <= oj < Size && b[oi][oj] == KingOf(!m.isWhite);
    assert t[oi][oj] == KingOf(!m.isWhite);
  }

  /**
   * The check tests of inferSrc on the scratch board t (ass4.c:445-453): the
   * mover's own king is not in check, and the opponent's king is in check
   * exactly when '+' or '#' was written.
   */
  predicate ChecksAgree(t: Board, white: bool, marked: bool)
    requires HasKing(t, white) && HasKing(t, !white)
  {
    !InCheck(t, white) && InCheck(t, !white) == marked
  }

  /** The check tests on the board after the move from (i, j) (ass4.c:440-453). */
  predicate SafeAfter(b: Board, m: Move, i: int, j: int)
    requires SearchSafe(b, m) && OnBoard(i, j) && b[i][j] == m.srcPiece
  {
    KingsSurvive(b, m, i, j);
    ChecksAgree(Performed(b, At(m, i, j)), m.isWhite, m.isCheck || m.isMate)
  }

  /**
   * The tests a square holding the moving piece must pass (ass4.c:435-453):
   * shape, clear path, and the scratch-board tests.
   */
  predicate Qualifies(b: Board, m: Move, i: int, j: int)
    requires SearchSafe(b, m) && OnBoard(i, j) && b[i][j] == m.srcPiece
  {
    var mv := At(m, i, j);
    CanMoveLikeThis(mv) && ClearPath(b, mv) && SafeAfter(b, m, i, j)
  }

  /** (i, j) is a square inferSrc accepts as the source. */
  predicate Selected(b: Board, m: Move, i: int, j: int)
    requires SearchSafe(b, m) && OnBoard(i, j)
  {
    HintsMatch(m, i, j) && b[i][j] == m.srcPiece && Qualifies(b, m, i, j)
  }

  /** The first square at or after (i, j) in row-major order that inferSrc accepts. */
  function FirstFrom(b: Board, m: Move, i: int, j: int): (r: Option<(int, int)>)
    requires SearchSafe(b, m) && 0 <= i <= Size && 0 <= j <= Size
    ensures r.Some? ==> OnBoard(r.value.0, r.value.1) && !Earlier(r.value.0, r.value.1, i, j)
    decreases Size - i, Size - j
  {
    if i == Size then None
    else if j == Size then FirstFrom(b, m, i + 1, 0)
    else if Selected(b, m, i, j) then Some((i, j))
    else FirstFrom(b, m, i, j + 1)
  }

  /** The square FirstFrom returns is accepted. */
  lemma {:induction false} FirstFromSelected(b: Board, m: Move, i: int, j: int)
    requires SearchSafe(b, m) && 0 <= i <= Size && 0 <= j <= Size
    requires FirstFrom(b, m, i, j).Some?
    ensures Selected(b, m, FirstFrom(b, m, i, j).value.0, FirstFrom(b, m, i, j).value.1)
    decreases Size - i, Size - j
  {
    if i == Size {
    } else if j == Size {
      FirstFromSelected(b, m, i + 1, 0);
    } else if !Selected(b, m, i, j) {
      FirstFromSelected(b, m, i, j + 1);
    }
  }

  /** No square from (i, j) on that comes before the one FirstFrom returns is accepted. */
  lemma {:induction false} FirstFromIsFirst(b: Board, m: Move, i: int, j: int, i': int, j': int)
    requires SearchSafe(b, m) && 0 <= i <= Size && 0 <= j <= Size && OnBoard(i', j')
    requires !Earlier(i', j', i, j)
    requires FirstFrom(b, m, i, j).None? || Earlier(i', j', FirstFrom(b, m, i, j).value.0, FirstFrom(b, m, i, j).value.1)
    ensures !Selected(b, m, i', j')
    decreases Size - i, Size - j
  {
    if i == Size {
    } else if j == Size {
      FirstFromIsFirst(b, m, i + 1, 0, i', j');
    } else if !Selected(b, m, i, j) && (i', j') != (i, j) {
      FirstFromIsFirst(b, m, i, j + 1, i', j');
    }
  }

  /** A square that holds the moving piece and agrees with the hints. */
  predicate Candidate(b: Board, m: Move, i: int, j: int)
    requires ValidHints(m) && OnBoard(i, j)
  {
    HintsMatch(m, i, j) && b[i][j] == m.srcPiece
  }

  /**
   * Where inferSrc leaves iSrc/jSrc after passing the squares before (i, j):
   * the last candidate it met, or the values it started with.
   */
  function CandidateBefore(b: Board, m: Move, i: int, j: int): (p: (int, int))
    requires ValidHints(m) && 0 <= i <= Size && 0 <= j <= Size && (i < Size || j == 0)
    ensures p == (m.iSrc, m.jSrc) || (OnBoard(p.0, p.1) && Earlier(p.0, p.1, i, j) && Candidate(b, m, p.0, p.1))
    decreases i, j
  {
    if j == 0 then (if i == 0 then (m.iSrc, m.jSrc) else CandidateBefore(b, m, i - 1, Size))
    else if Candidate(b, m, i, j - 1) then (i, j - 1)
    else CandidateBefore(b, m, i, j - 1)
  }

  /**
   * CandidateBefore is the last candidate before (i, j): the incoming square
   * comes back when there is none, and otherwise no candidate lies between
   * the one returned and (i, j).
   */
  lemma {:induction false} CandidateBeforeIsLast(b: Board, m: Move, i: int, j: int)
    requires ValidHints(m) && 0 <= i <= Size && 0 <= j <= Size && (i < Size || j == 0)
    ensures var p := CandidateBefore(b, m, i, j);
      ((forall i', j' | OnBoard(i', j') && Earlier(i', j', i, j) :: !Candidate(b, m, i', j')) ==>
         p == (m.iSrc, m.jSrc)) &&
      ((exists i', j' | OnBoard(i', j') && Earlier(i', j', i, j) :: Candidate(b, m, i', j')) ==>
         OnBoard(p.0, p.1) && Earlier(p.0, p.1, i, j) && Candidate(b, m, p.0, p.1) &&
         forall i', j' | OnBoard(i', j') && Earlier(p.0, p.1, i', j') && Earlier(i', j', i, j) :: !Candidate(b, m, i', j'))
    decreases i, j
  {
    if j == 0 {
      if i > 0 {
        CandidateBeforeIsLast(b, m, i - 1, Size);
      }
    } else if !Candidate(b, m, i, j - 1) {
      CandidateBeforeIsLast(b, m, i, j - 1);
    }
  }

  /** The move once (i, j) is accepted: its file and rank become the hints and the move is legal. */
  function Chosen(m: Move, i: int, j: int): (r: Move)
    requires OnBoard(i, j)
    ensures r.iSrc == i && r.jSrc == j && r.isLegal == Legal
    ensures IsColumn(r.srcCol) && ColToIdx(r.srcCol) == j
    ensures '1' <= r.srcRow <= '8' && RowHintIdx(r.srcRow) == i
  {
    m.(iSrc := i, jSrc := j, srcCol := IdxToCol(j), srcRow := ToChar(IdxToRow(i)), isLegal := Legal)
  }

  /**
   * The move inferSrc leaves: the first accepted square becomes the source,
   * its file and rank are written back as hints and the move is legal;
   * without one the move is illegal and iSrc/jSrc keep the last candidate.
   */
  function Inferred(b: Board, m: Move): Move
    requires SearchSafe(b, m)
  {
    match FirstFrom(b, m, 0, 0)
    case Some((i, j)) => Chosen(m, i, j)
    case None =>
      var p := CandidateBefore(b, m, Size, 0);
      m.(iSrc := p.0, jSrc := p.1, isLegal := Illegal)
  }

  /**
   * The tests of inferSrc on a square that holds the moving piece
   * (ass4.c:435-453); the caller's board is only read.
   */
  method Qualify(board: array2<char>, m: Move) returns (ok: bool)
    requires IsBoardArray(board) && SearchSafe(Cells(board), m)
    requires OnBoard(m.iSrc, m.jSrc) && board[m.iSrc, m.jSrc] == m.srcPiece
    ensures ok == Qualifies(Cells(board), m, m.iSrc, m.jSrc)
  {
    assert At(m, m.iSrc, m.jSrc) == m;
    ok := CanMoveLikeThis(m);
    if ok {
      ok := IsClearPath(board, m);
    }
    if ok {
      ok := CheckAfter(board, m);
    }
  }

  /**
   * The scratch-board tests (ass4.c:440-453): the move is played on a copy
   * of the board, which is then tested for check on either side.
   */
  method CheckAfter(board: array2<char>, m: Move) returns (ok: bool)
    requires IsBoardArray(board) && SearchSafe(Cells(board), m)
    requires OnBoard(m.iSrc, m.jSrc) && board[m.iSrc, m.jSrc] == m.srcPiece
    ensures ok == SafeAfter(Cells(board), m, m.iSrc, m.jSrc)
  {
    ghost var b := Cells(board);
    assert At(m, m.iSrc, m.jSrc) == m;
    KingsSurvive(b, m, m.iSrc, m.jSrc);
    var tmp := new char[Size, Size];
    CloneBoard(board, tmp);
    PerformMove(tmp, m);
    assert Cells(board) == b;
    assert Cells(tmp) == Performed(b, At(m, m.iSrc, m.jSrc));
    ok := TestChecks(tmp, m.isWhite, m.isCheck || m.isMate);
  }

  /** The two isCheck calls on the scratch board (ass4.c:445-453). */
  method TestChecks(tmp: array2<char>, white: bool, marked: bool) returns (ok: bool)
    requires IsBoardArray(tmp) && HasKing(Cells(tmp), white) && HasKing(Cells(tmp), !white)
    ensures ok == ChecksAgree(Cells(tmp), white, marked)
  {
    var selfCheck := IsCheck(tmp, white);
    ok := !selfCheck;
    if ok {
      var isOppCheck := IsCheck(tmp, !white);
      ok := isOppCheck == marked;
    }
  }

  /**
   * The body of the search loop of inferSrc for one square (ass4.c:424-453):
   * the hint and piece tests that skip the square, then the tests of Qualify.
   * cand says whether the source records the square in iSrc/jSrc, ok
   * whether it accepts it.
   */
  method TestSquare(board: array2<char>, m: Move, i: int, j: int) returns (cand: bool, ok: bool)
    requires IsBoardArray(board) && SearchSafe(Cells(board), m) && OnBoard(i, j)
    ensures cand == Candidate(Cells(board), m, i, j)
    ensures ok == Selected(Cells(board), m, i, j)
  {
    cand := false;
    ok := false;
    if m.srcRow != Undefined && RowToIdx(ToDigit(m.srcRow)) != i {
      return;
    }
    if m.srcCol != Undefined && ColToIdx(m.srcCol) != j {
      return;
    }
    if board[i, j] != m.srcPiece {
      return;
    }
    cand := true;
    ok := Qualify(board, At(m, i, j));
  }

  /**
   * inferSrc (ass4.c:421-461) with the rank test as intended: scans the
   * squares in row-major order, records each square that holds the moving
   * piece and agrees with the hints as the source, and stops at the first
   * such square that passes the tests of Qualify, writing its file and rank
   * back as hints. The source square is kept in locals until the move is
   * returned.
   */
  method InferSrc(board: array2<char>, m: Move) returns (r: Move)
    requires IsBoardArray(board) && SearchSafe(Cells(board), m)
    ensures r == Inferred(Cells(board), m)
  {
    ghost var b := Cells(board);
    var iSrc, jSrc := m.iSrc, m.jSrc;
    for i := 0 to Size
      invariant FirstFrom(b, m, i, 0) == FirstFrom(b, m, 0, 0)
      invariant (iSrc, jSrc) == CandidateBefore(b, m, i, 0)
    {
      var found;
      iSrc, jSrc, found := SearchRow(board, m, i, iSrc, jSrc);
      if found {
        return m.(iSrc := iSrc, jSrc := jSrc, srcCol := IdxToCol(jSrc), srcRow := ToChar(IdxToRow(iSrc)), isLegal := Legal);
      }
    }
    r := m.(iSrc := iSrc, jSrc := jSrc, isLegal := Illegal);
  }

  /**
   * The inner loop of inferSrc over row i (ass4.c:423-459). Either it
   * accepts a square, which is then the first accepted one from the start of
   * the row, or it leaves the source at the last candidate so far and the
   * rest of the search is as if it had started at the next row.
   */
  method SearchRow(board: array2<char>, m: Move, i: int, iSrc0: int, jSrc0: int) returns (iSrc: int, jSrc: int, found: bool)
    requires IsBoardArray(board) && SearchSafe(Cells(board), m) && 0 <= i < Size
    requires (iSrc0, jSrc0) == CandidateBefore(Cells(board), m, i, 0)
    ensures found ==> OnBoard(iSrc, jSrc) && FirstFrom(Cells(board), m, i, 0) == Some((iSrc, jSrc))
    ensures !found ==> FirstFrom(Cells(board), m, i, 0) == FirstFrom(Cells(board), m, i + 1, 0) &&
                       (iSrc, jSrc) == CandidateBefore(Cells(board), m, i + 1, 0)
  {
    ghost var b := Cells(board);
    iSrc, jSrc := iSrc0, jSrc0;
    for j := 0 to Size
      invariant FirstFrom(b, m, i, j) == FirstFrom(b, m, i, 0)
      invariant (iSrc, jSrc) == CandidateBefore(b, m, i, j)
    {
      var cand, ok := TestSquare(board, m, i, j);
      if cand {
        iSrc, jSrc := i, j;
      }
      if ok {
        return iSrc, jSrc, true;
      }
    }
    found := false;
  }

  // ---------------------------------------------------------------------
  // parseMove and makeMove

  /**
   * The early rejection of parseMove (ass4.c:468-469): the destination holds
   * a piece of the mover, or the capture flag disagrees with whether the
   * destination is empty.
   */
  predicate EarlyReject(m: Move) {
    (m.isWhite && IsWhite(m.destPiece)) || (!m.isWhite && IsBlack(m.destPiece)) ||
    (m.isCapture && m.destPiece == Empty) || (!m.isCapture && m.destPiece != Empty)
  }

  /**
   * A token and board parseMove finishes on without failing an assert or
   * reading an unset king position.
   */
  predicate Resolvable(b: Board, pgn: seq<char>, white: bool) {
    Parsable(pgn, InitMove(white)) &&
    var p := Parsed(b, pgn, InitMove(white));
    !EarlyReject(p) ==> SearchSafe(b, p)
  }

  /** The move parseMove returns for token pgn on board b with the given side to move. */
  function Resolved(b: Board, pgn: seq<char>, white: bool): (r: Move)
    requires Resolvable(b, pgn, white)
  {
    var p := Parsed(b, pgn, InitMove(white));
    if EarlyReject(p) then p.(isLegal := Illegal) else Inferred(b, p)
  }

  /**
   * parseMove (ass4.c:463-475): a fresh move for the side to play, the
   * parsed token, then either the early rejection or the search.
   */
  method ParseMove(board: array2<char>, pgn: seq<char>, isWhiteTurn: bool) returns (m: Move)
    requires IsBoardArray(board) && Resolvable(Cells(board), pgn, isWhiteTurn)
    ensures m == Resolved(Cells(board), pgn, isWhiteTurn)
  {
    m := InitMove(isWhiteTurn);
    m := ParsePgn(board, pgn, m);
    if (m.isWhite && IsWhite(m.destPiece)) || (!m.isWhite && IsBlack(m.destPiece)) ||
       (m.isCapture && m.destPiece == Empty) || (!m.isCapture && m.destPiece != Empty) {
      m := m.(isLegal := Illegal);
      return;
    }
    m := InferSrc(board, m);
  }

  /**
   * makeMove (ass4.c:482-491): plays the move when it is legal and reports
   * whether it did; an illegal move leaves the board as it was.
   */
  method MakeMove(board: array2<char>, pgn: seq<char>, isWhiteTurn: bool) returns (ok: bool)
    requires IsBoardArray(board) && Resolvable(Cells(board), pgn, isWhiteTurn)
    modifies board
    ensures ok == (Resolved(old(Cells(board)), pgn, isWhiteTurn).isLegal == Legal)
    ensures ok ==> var r := Resolved(old(Cells(board)), pgn, isWhiteTurn);
      OnBoard(r.iSrc, r.jSrc) && OnBoard(r.iDest, r.jDest) && Cells(board) == Performed(old(Cells(board)), r)
    ensures ok ==> HasKing(Cells(board), isWhiteTurn) && !InCheck(Cells(board), isWhiteTurn)
    ensures !ok ==> Cells(board) == old(Cells(board))
  {
    var move := ParseMove(board, pgn, isWhiteTurn);
    if move.isLegal == Legal {
      LegalMoveIsSafe(Cells(board), pgn, isWhiteTurn);
      PerformMove(board, move);
      return true;
    } else {
      return false;
    }
  }

  // ---------------------------------------------------------------------
  // Properties of the resolver

  /** The search succeeds exactly when some square is accepted. */
  lemma InferredLegalIff(b: Board, m: Move)
    requires SearchSafe(b, m)
    ensures Inferred(b, m).isLegal == Legal <==>
      exists i, j | 0 <= i < Size && 0 <= j < Size :: Selected(b, m, i, j)
  {
    if FirstFrom(b, m, 0, 0).Some? {
      FirstFromSelected(b, m, 0, 0);
    } else {
      forall i, j | 0 <= i < Size && 0 <= j < Size
        ensures !Selected(b, m, i, j)
      {
        FirstFromIsFirst(b, m, 0, 0, i, j);
      }
    }
  }

  /**
   * On success the source is the first accepted square in row-major order,
   * and the hints written back name it.
   */
  lemma InferredIsFirst(b: Board, m: Move)
    requires SearchSafe(b, m) && Inferred(b, m).isLegal == Legal
    ensures var r := Inferred(b, m);
      OnBoard(r.iSrc, r.jSrc) && Selected(b, m, r.iSrc, r.jSrc) &&
      (forall i, j | OnBoard(i, j) && Earlier(i, j, r.iSrc, r.jSrc) :: !Selected(b, m, i, j)) &&
      RowHintIdx(r.srcRow) == r.iSrc && ColToIdx(r.srcCol) == r.jSrc
  {
    FirstFromSelected(b, m, 0, 0);
    var (i0, j0) := FirstFrom(b, m, 0, 0).value;
    forall i, j | OnBoard(i, j) && Earlier(i, j, i0, j0)
      ensures !Selected(b, m, i, j)
    {
      FirstFromIsFirst(b, m, 0, 0, i, j);
    }
    RowHintRoundTrip(ToChar(IdxToRow(i0)), i0);
  }

  /** performMove reads only the squares, the moving piece and the promotion of a move. */
  lemma PerformedReadsSquares(b: Board, m1: Move, m2: Move)
    requires OnBoard(m1.iSrc, m1.jSrc) && OnBoard(m1.iDest, m1.jDest)
    requires m1.iSrc == m2.iSrc && m1.jSrc == m2.jSrc && m1.iDest == m2.iDest && m1.jDest == m2.jDest
    requires m1.srcPiece == m2.srcPiece && m1.isPromotion == m2.isPromotion && m1.promotionPiece == m2.promotionPiece
    ensures Performed(b, m1) == Performed(b, m2)
  {
  }

  /**
   * A move the search accepts never leaves the mover's own king in check,
   * and gives check to the opponent exactly when '+' or '#' was written.
   */
  lemma InferredIsSafe(b: Board, m: Move)
    requires SearchSafe(b, m) && Inferred(b, m).isLegal == Legal
    ensures var r := Inferred(b, m);
      OnBoard(r.iSrc, r.jSrc) && OnBoard(r.iDest, r.jDest) &&
      HasKing(Performed(b, r), m.isWhite) && HasKing(Performed(b, r), !m.isWhite) &&
      !InCheck(Performed(b, r), m.isWhite) &&
      InCheck(Performed(b, r), !m.isWhite) == (r.isCheck || r.isMate)
  {
    var r := Inferred(b, m);
    FirstFromSelected(b, m, 0, 0);
    PerformedReadsSquares(b, r, At(m, r.iSrc, r.jSrc));
    KingsSurvive(b, m, r.iSrc, r.jSrc);
  }

  /** The same for the move parseMove returns: legality keeps the mover's king safe. */
  lemma LegalMoveIsSafe(b: Board, pgn: seq<char>, white: bool)
    requires Resolvable(b, pgn, white) && Resolved(b, pgn, white).isLegal == Legal
    ensures var r := Resolved(b, pgn, white);
      OnBoard(r.iSrc, r.jSrc) && OnBoard(r.iDest, r.jDest) &&
      HasKing(Performed(b, r), white) && HasKing(Performed(b, r), !white) &&
      !InCheck(Performed(b, r), white) &&
      InCheck(Performed(b, r), !white) == (r.isCheck || r.isMate)
  {
    InferredIsSafe(b, Parsed(b, pgn, InitMove(white)));
  }

  /**
   * The early rejection: a destination holding the mover's own piece, or a
   * capture flag that disagrees with the destination's emptiness, makes the
   * move illegal without a search.
   */
  lemma EarlyRejectIsIllegal(b: Board, pgn: seq<char>, white: bool)
    requires Resolvable(b, pgn, white)
    ensures var p := Parsed(b, pgn, InitMove(white));
      OfSide(p.destPiece, white) || (p.isCapture != (p.destPiece != Empty)) ==>
        Resolved(b, pgn, white).isLegal == Illegal
  {
  }

  /**
   * parseMove's verdict: a move is legal exactly when the early rejection
   * does not apply and some square passes the search.
   */
  lemma ResolvedLegalIff(b: Board, pgn: seq<char>, white: bool)
    requires Resolvable(b, pgn, white)
    ensures var p := Parsed(b, pgn, InitMove(white));
      Resolved(b, pgn, white).isLegal == Legal <==>
        !EarlyReject(p) && exists i, j | 0 <= i < Size && 0 <= j < Size :: Selected(b, p, i, j)
  {
    var p := Parsed(b, pgn, InitMove(white));
    if !EarlyReject(p) {
      InferredLegalIff(b, p);
    }
  }
}
