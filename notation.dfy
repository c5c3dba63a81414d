/// The move record and the notation parser (initMove and parsePgn,
/// ass4.c:17-22, ass4.c:48-66, ass4.c:191-242). A move token in Standard
/// Algebraic Notation (section 8.2.3 of the PGN standard) is read backwards:
/// the last digit and the last file letter name the destination, earlier
/// ones the source hints, and the marks 'x', '=', '+' and '#' set flags.
module Notation {
  import opened ChessBoard

  /** The legality field of a move: -1, 0 and 1 in the source. */
  datatype Verdict = Undecided | Illegal | Legal

  /**
   * The source's Move struct. Character fields hold Undefined when unset and
   * index fields hold -1; isWhite names the side that moves.
   */
  datatype Move = Move(
    srcPiece: char, srcRow: char, srcCol: char,
    destPiece: char, destRow: char, destCol: char,
    promotionPiece: char,
    iSrc: int, jSrc: int, iDest: int, jDest: int,
    isWhite: bool, isCapture: bool, isPromotion: bool,
    isCheck: bool, isMate: bool, isLegal: Verdict)

  /** The move carries neither a source-rank nor a source-file hint. */
  predicate NoHints(m: Move) {
    m.srcRow == Undefined && m.srcCol == Undefined
  }

  /** None of the capture, promotion, check and mate flags is set. */
  predicate NoMarks(m: Move) {
    !m.isCapture && !m.isPromotion && !m.isCheck && !m.isMate
  }

  /**
   * initMove (ass4.c:48-66) followed by the side assignment that parseMove
   * makes at once (ass4.c:465-466): nothing is known about the move yet.
   */
  function InitMove(isWhite: bool): (m: Move)
    ensures m.isWhite == isWhite && m.isLegal == Undecided
    ensures NoHints(m) && NoMarks(m)
    ensures m.destRow == Undefined && m.destCol == Undefined && m.iSrc == -1 && m.iDest == -1
  {
    Move(Undefined, Undefined, Undefined, Undefined, Undefined, Undefined, Undefined,
         -1, -1, -1, -1, isWhite, false, false, false, false, Undecided)
  }

  /** The classes of token characters the scan looks for. */
  datatype CharClass = Digit | FileLetter | CaptureMark | PromotionMark | CheckMark | MateMark

  predicate InClass(c: char, k: CharClass) {
    match k
    case Digit => IsDigit(c)
    case FileLetter => IsColumn(c)
    case CaptureMark => c == 'x'
    case PromotionMark => c == '='
    case CheckMark => c == '+'
    case MateMark => c == '#'
  }

  /** Index of the last character of s[lo..] that is of the given kind, or -1. */
  function LastIn(s: seq<char>, lo: nat, kind: CharClass): (k: int)
    requires lo <= |s|
    ensures k == -1 || lo <= k < |s|
    ensures k >= 0 ==> InClass(s[k], kind)
    decreases |s| - lo
  {
    if lo == |s| then -1
    else
      var later := LastIn(s, lo + 1, kind);
      if later >= 0 then later else if InClass(s[lo], kind) then lo else -1
  }

  /** Index of the first character of s[lo..] that is of the given kind, or |s|. */
  function FirstIn(s: seq<char>, lo: nat, kind: CharClass): (k: nat)
    requires lo <= |s|
    ensures lo <= k <= |s|
    ensures k < |s| ==> InClass(s[k], kind)
    decreases |s| - lo
  {
    if lo == |s| then |s| else if InClass(s[lo], kind) then lo else FirstIn(s, lo + 1, kind)
  }

  /** No character of s[lo..] after LastIn's answer is of the kind. */
  lemma {:induction false} LastInIsLast(s: seq<char>, lo: nat, kind: CharClass)
    requires lo <= |s|
    ensures forall t | lo <= t < |s| && LastIn(s, lo, kind) < t :: !InClass(s[t], kind)
    decreases |s| - lo
  {
    if lo < |s| {
      LastInIsLast(s, lo + 1, kind);
    }
  }

  /** No character of s[lo..] before FirstIn's answer is of the kind. */
  lemma {:induction false} FirstInIsFirst(s: seq<char>, lo: nat, kind: CharClass)
    requires lo <= |s|
    ensures forall t | lo <= t < FirstIn(s, lo, kind) :: !InClass(s[t], kind)
    decreases |s| - lo
  {
    if lo < |s| && !InClass(s[lo], kind) {
      FirstInIsFirst(s, lo + 1, kind);
    }
  }

  /** A promotion mark is never the last character (the assert at ass4.c:227). */
  predicate PromotionsComplete(pgn: seq<char>) {
    pgn != [] ==> pgn[|pgn| - 1] != '='
  }

  /** The piece letter after '=' in the mover's case (ass4.c:228-230). */
  function Promoted(letter: char, isWhite: bool): (p: char)
    ensures isWhite ==> p == letter
    ensures !isWhite && 'A' <= letter <= 'Z' ==> 'a' <= p <= 'z'
  {
    if isWhite then letter else ToLower(letter)
  }

  /** The variables the backward pass of parsePgn writes: its two flags and nine move fields. */
  datatype Pass = Pass(seenDigit: bool, seenColumn: bool,
                       destRow: char, destCol: char, srcRow: char, srcCol: char,
                       isCapture: bool, isPromotion: bool, promotionPiece: char,
                       isCheck: bool, isMate: bool)

  /** The pass before it has read anything: both flags clear, the fields as m has them. */
  function PassStart(m: Move): Pass {
    Pass(false, false, m.destRow, m.destCol, m.srcRow, m.srcCol, m.isCapture,
         m.isPromotion, m.promotionPiece, m.isCheck, m.isMate)
  }

  /** m with the fields the pass p writes taken from p. */
  function PassFields(p: Pass, m: Move): Move {
    m.(destRow := p.destRow, destCol := p.destCol, srcRow := p.srcRow, srcCol := p.srcCol,
       isCapture := p.isCapture, isPromotion := p.isPromotion, promotionPiece := p.promotionPiece,
       isCheck := p.isCheck, isMate := p.isMate)
  }

  /**
   * What the backward pass of parsePgn has found once it has read pgn[lo..],
   * starting from m: the last digit and file letter are the destination, the
   * first ones (when they are not also the last) the hints, the leftmost '='
   * gives the promotion piece, and each mark sets its flag.
   */
  function Scanned(pgn: seq<char>, lo: nat, m: Move): Pass
    requires lo <= |pgn| && PromotionsComplete(pgn)
  {
    var lastDigit := LastIn(pgn, lo, Digit);
    var firstDigit := FirstIn(pgn, lo, Digit);
    var lastCol := LastIn(pgn, lo, FileLetter);
    var firstCol := FirstIn(pgn, lo, FileLetter);
    var promo := FirstIn(pgn, lo, PromotionMark);
    Pass(lastDigit >= 0, lastCol >= 0,
         if lastDigit >= 0 then pgn[lastDigit] else m.destRow,
         if lastCol >= 0 then pgn[lastCol] else m.destCol,
         if firstDigit < lastDigit then pgn[firstDigit] else m.srcRow,
         if firstCol < lastCol then pgn[firstCol] else m.srcCol,
         m.isCapture || FirstIn(pgn, lo, CaptureMark) < |pgn|,
         m.isPromotion || promo < |pgn|,
         if promo < |pgn| then Promoted(pgn[promo + 1], m.isWhite) else m.promotionPiece,
         m.isCheck || FirstIn(pgn, lo, CheckMark) < |pgn|,
         m.isMate || FirstIn(pgn, lo, MateMark) < |pgn|)
  }

  /**
   * A token parsePgn finishes on without failing an assert (ass4.c:198,
   * ass4.c:227, ass4.c:236-239): it is non-empty, has no trailing '=', and
   * the pass leaves a destination file letter and a destination digit that
   * is a rank 1..8.
   */
  predicate Parsable(pgn: seq<char>, m: Move) {
    |pgn| > 0 && PromotionsComplete(pgn) &&
    var s := Scanned(pgn, 0, m);
    IsColumn(s.destCol) && IsDigit(s.destRow) && 0 < ToDigit(s.destRow) <= Size
  }

  /** The piece a token names: its leading piece letter, else a pawn, in the mover's case. */
  function TokenPiece(pgn: seq<char>, isWhite: bool): char
    requires pgn != []
  {
    var piece := if IsPiece(pgn[0]) then pgn[0] else 'P';
    if isWhite then piece else ToLower(piece)
  }

  /** The move parsePgn produces from m for token pgn on board b. */
  function Parsed(b: Board, pgn: seq<char>, m: Move): (r: Move)
    requires Parsable(pgn, m)
    ensures OnBoard(r.iDest, r.jDest) && r.destPiece == b[r.iDest][r.jDest]
  {
    var m' := m.(srcPiece := TokenPiece(pgn, m.isWhite));
    var s := PassFields(Scanned(pgn, 0, m'), m');
    var jDest := ColToIdx(s.destCol);
    var iDest := RowToIdx(ToDigit(s.destRow));
    s.(jDest := jDest, iDest := iDest, destPiece := b[iDest][jDest])
  }

  /** FirstIn finds a character of the kind exactly when s[lo..] has one. */
  lemma FirstInFinds(s: seq<char>, lo: nat, kind: CharClass)
    requires lo <= |s|
    ensures FirstIn(s, lo, kind) < |s| <==> exists t | lo <= t < |s| :: InClass(s[t], kind)
  {
    FirstInIsFirst(s, lo, kind);
  }

  /**
   * The piece and flags of a parsed token: the leading piece letter or a
   * pawn in the mover's case, and each of 'x', '=', '+' and '#' anywhere in
   * the token sets its flag.
   */
  lemma ParsedMarks(b: Board, pgn: seq<char>, white: bool)
    requires Parsable(pgn, InitMove(white))
    ensures var r := Parsed(b, pgn, InitMove(white));
      r.srcPiece == TokenPiece(pgn, white) && r.isWhite == white &&
      (r.isCapture <==> 'x' in pgn) && (r.isPromotion <==> '=' in pgn) &&
      (r.isCheck <==> '+' in pgn) && (r.isMate <==> '#' in pgn)
  {
    var m := InitMove(white);
    ScannedIgnoresPiece(pgn, m, TokenPiece(pgn, white));
    FirstInFinds(pgn, 0, CaptureMark);
    FirstInFinds(pgn, 0, PromotionMark);
    FirstInFinds(pgn, 0, CheckMark);
    FirstInFinds(pgn, 0, MateMark);
  }

  /**
   * The promotion of a parsed token: the piece letter after the leftmost '=',
   * in the mover's case.
   */
  lemma ParsedPromotion(b: Board, pgn: seq<char>, white: bool)
    requires Parsable(pgn, InitMove(white))
    ensures var r := Parsed(b, pgn, InitMove(white));
      r.isPromotion ==> exists k | 0 <= k < |pgn| ::
        pgn[k] == '=' && (forall t | 0 <= t < k :: pgn[t] != '=') &&
        k + 1 < |pgn| && r.promotionPiece == Promoted(pgn[k + 1], white)
  {
    var m := InitMove(white);
    ScannedIgnoresPiece(pgn, m, TokenPiece(pgn, white));
    FirstInIsFirst(pgn, 0, PromotionMark);
    var k := FirstIn(pgn, 0, PromotionMark);
    if k < |pgn| {
      assert Parsed(b, pgn, m).promotionPiece == Promoted(pgn[k + 1], white);
    }
  }

  /**
   * The destination of a parsed token: the last file letter and the last
   * digit of the token, and the board indices of that square.
   */
  lemma ParsedDestination(b: Board, pgn: seq<char>, white: bool)
    requires Parsable(pgn, InitMove(white))
    ensures var r := Parsed(b, pgn, InitMove(white));
      (exists k | 0 <= k < |pgn| :: pgn[k] == r.destCol && forall t | k < t < |pgn| :: !IsColumn(pgn[t])) &&
      (exists k | 0 <= k < |pgn| :: pgn[k] == r.destRow && forall t | k < t < |pgn| :: !IsDigit(pgn[t])) &&
      r.jDest == ColToIdx(r.destCol) && IdxToRow(r.iDest) == ToDigit(r.destRow)
  {
    var m := InitMove(white);
    ScannedIgnoresPiece(pgn, m, TokenPiece(pgn, white));
    LastInIsLast(pgn, 0, FileLetter);
    LastInIsLast(pgn, 0, Digit);
    var kc, kd := LastIn(pgn, 0, FileLetter), LastIn(pgn, 0, Digit);
    assert pgn[kc] == Parsed(b, pgn, m).destCol;
    assert pgn[kd] == Parsed(b, pgn, m).destRow;
  }

  /**
   * The source hints of a parsed token: a file hint is the leftmost file
   * letter of a token with at least two, a rank hint likewise for digits.
   */
  lemma ParsedHints(b: Board, pgn: seq<char>, white: bool)
    requires Parsable(pgn, InitMove(white))
    ensures var r := Parsed(b, pgn, InitMove(white));
      (r.srcCol == Undefined <==> !exists k, k' | 0 <= k < k' < |pgn| :: IsColumn(pgn[k]) && IsColumn(pgn[k'])) &&
      (r.srcCol != Undefined ==> exists k | 0 <= k < |pgn| :: pgn[k] == r.srcCol && forall t | 0 <= t < k :: !IsColumn(pgn[t]))
    ensures var r := Parsed(b, pgn, InitMove(white));
      (r.srcRow == Undefined <==> !exists k, k' | 0 <= k < k' < |pgn| :: IsDigit(pgn[k]) && IsDigit(pgn[k'])) &&
      (r.srcRow != Undefined ==> exists k | 0 <= k < |pgn| :: pgn[k] == r.srcRow && forall t | 0 <= t < k :: !IsDigit(pgn[t]))
  {
    var m := InitMove(white);
    ScannedIgnoresPiece(pgn, m, TokenPiece(pgn, white));
    LastInIsLast(pgn, 0, FileLetter);
    LastInIsLast(pgn, 0, Digit);
    FirstInIsFirst(pgn, 0, FileLetter);
    FirstInIsFirst(pgn, 0, Digit);
    var r := Parsed(b, pgn, m);
    var fc, lc := FirstIn(pgn, 0, FileLetter), LastIn(pgn, 0, FileLetter);
    var fd, ld := FirstIn(pgn, 0, Digit), LastIn(pgn, 0, Digit);
    if fc < lc {
      assert pgn[fc] == r.srcCol;
    }
    if fd < ld {
      assert pgn[fd] == r.srcRow;
    }
  }

  /**
   * parsePgn (ass4.c:191-242): the piece letter, the backward pass over the
   * token, then the destination indices and the piece that stands there.
   */
  method ParsePgn(board: array2<char>, pgn: seq<char>, move: Move) returns (m: Move)
    requires IsBoardArray(board) && Parsable(pgn, move)
    ensures m == Parsed(Cells(board), pgn, move)
  {
    m := move;
    if IsPiece(pgn[0]) {
      m := m.(srcPiece := pgn[0]);
    } else {
      m := m.(srcPiece := 'P');
    }
    if !m.isWhite {
      m := m.(srcPiece := ToLower(m.srcPiece));
    }
    assert m == move.(srcPiece := TokenPiece(pgn, move.isWhite));
    ScannedIgnoresPiece(pgn, move, m.srcPiece);
    var pass := ScanToken(pgn, m);
    m := m.(destRow := pass.destRow, destCol := pass.destCol, srcRow := pass.srcRow, srcCol := pass.srcCol,
            isCapture := pass.isCapture, isPromotion := pass.isPromotion,
            promotionPiece := pass.promotionPiece, isCheck := pass.isCheck, isMate := pass.isMate);
    m := m.(jDest := ColToIdx(m.destCol));
    m := m.(iDest := RowToIdx(ToDigit(m.destRow)));
    m := m.(destPiece := board[m.iDest, m.jDest]);
  }

  /** The pass does not look at the moving piece. */
  lemma ScannedIgnoresPiece(pgn: seq<char>, m: Move, c: char)
    requires PromotionsComplete(pgn)
    ensures Scanned(pgn, 0, m.(srcPiece := c)) == Scanned(pgn, 0, m)
  {
  }

  /**
   * The loop of parsePgn (ass4.c:205-240): reads the token from its last
   * character to its first under the seenDigit/seenColumn flags, keeping
   * the move fields it writes in locals.
   */
  method ScanToken(pgn: seq<char>, m: Move) returns (p: Pass)
    requires PromotionsComplete(pgn)
    ensures p == Scanned(pgn, 0, m)
  {
    var destRow, destCol, srcRow, srcCol := m.destRow, m.destCol, m.srcRow, m.srcCol;
    var isCapture, isPromotion, promotionPiece := m.isCapture, m.isPromotion, m.promotionPiece;
    var isCheck, isMate := m.isCheck, m.isMate;
    var seenDigit := false;
    var seenColumn := false;
    var i := |pgn| - 1;
    while i >= 0
      invariant -1 <= i < |pgn|
      invariant Pass(seenDigit, seenColumn, destRow, destCol, srcRow, srcCol, isCapture,
                     isPromotion, promotionPiece, isCheck, isMate) == PassFrom(pgn, i + 1, m.isWhite, PassStart(m))
      decreases i
    {
      seenDigit, seenColumn, destRow, destCol, srcRow, srcCol, isCapture, isPromotion, promotionPiece, isCheck, isMate :=
        ReadChar(pgn, i, m.isWhite, seenDigit, seenColumn, destRow, destCol, srcRow, srcCol,
                 isCapture, isPromotion, promotionPiece, isCheck, isMate);
      i := i - 1;
    }
    PassMatchesScanned(pgn, 0, m);
    p := Pass(seenDigit, seenColumn, destRow, destCol, srcRow, srcCol, isCapture,
              isPromotion, promotionPiece, isCheck, isMate);
  }

  /**
   * One run of the loop body of parsePgn (ass4.c:205-240) on pgn[i]: the
   * if-chain in which exactly one branch writes its variables.
   */
  method ReadChar(pgn: seq<char>, i: nat, isWhite: bool, seenDigit: bool, seenColumn: bool,
                  destRow: char, destCol: char, srcRow: char, srcCol: char,
                  isCapture: bool, isPromotion: bool, promotionPiece: char, isCheck: bool, isMate: bool)
    returns (seenDigit': bool, seenColumn': bool, destRow': char, destCol': char, srcRow': char, srcCol': char,
             isCapture': bool, isPromotion': bool, promotionPiece': char, isCheck': bool, isMate': bool)
    requires i < |pgn| && PromotionsComplete(pgn)
    ensures Pass(seenDigit', seenColumn', destRow', destCol', srcRow', srcCol', isCapture',
                 isPromotion', promotionPiece', isCheck', isMate') ==
            ReadStep(Pass(seenDigit, seenColumn, destRow, destCol, srcRow, srcCol, isCapture,
                          isPromotion, promotionPiece, isCheck, isMate), pgn, i, isWhite)
  {
    seenDigit', seenColumn', destRow', destCol', srcRow', srcCol' := seenDigit, seenColumn, destRow, destCol, srcRow, srcCol;
    isCapture', isPromotion', promotionPiece', isCheck', isMate' := isCapture, isPromotion, promotionPiece, isCheck, isMate;
    var c := pgn[i];
    if IsDigit(c) && !seenDigit {
      destRow' := c;
      seenDigit' := true;
    } else if IsColumn(c) && !seenColumn {
      destCol' := c;
      seenColumn' := true;
    } else if IsDigit(c) {
      srcRow' := c;
    } else if IsColumn(c) {
      srcCol' := c;
    } else if c == 'x' {
      isCapture' := true;
    } else if c == '=' {
      isPromotion' := true;
      promotionPiece' := Promoted(pgn[i + 1], isWhite);
    } else if c == '+' {
      isCheck' := true;
    } else if c == '#' {
      isMate' := true;
    }
  }

  /**
   * What reading pgn[i] does to the pass, field by field: a digit or file
   * letter is the destination while its flag is clear and a hint after
   * that; a mark sets its flag; '=' also reads the promotion piece after it.
   */
  function ReadStep(p: Pass, pgn: seq<char>, i: nat, isWhite: bool): Pass
    requires i < |pgn| && PromotionsComplete(pgn)
  {
    var c := pgn[i];
    Pass(p.seenDigit || IsDigit(c), p.seenColumn || IsColumn(c),
         if IsDigit(c) && !p.seenDigit then c else p.destRow,
         if IsColumn(c) && !p.seenColumn then c else p.destCol,
         if IsDigit(c) && p.seenDigit then c else p.srcRow,
         if IsColumn(c) && p.seenColumn then c else p.srcCol,
         p.isCapture || c == 'x',
         p.isPromotion || c == '=',
         if c == '=' then Promoted(pgn[i + 1], isWhite) else p.promotionPiece,
         p.isCheck || c == '+',
         p.isMate || c == '#')
  }

  /** The pass after reading pgn[lo..] from its last character down to pgn[lo]. */
  function PassFrom(pgn: seq<char>, lo: nat, isWhite: bool, p: Pass): Pass
    requires lo <= |pgn| && PromotionsComplete(pgn)
    decreases |pgn| - lo
  {
    if lo == |pgn| then p else ReadStep(PassFrom(pgn, lo + 1, isWhite, p), pgn, lo, isWhite)
  }

  /** The character-by-character pass finds exactly what the searches of Scanned find. */
  lemma {:induction false} PassMatchesScanned(pgn: seq<char>, lo: nat, m: Move)
    requires lo <= |pgn| && PromotionsComplete(pgn)
    ensures PassFrom(pgn, lo, m.isWhite, PassStart(m)) == Scanned(pgn, lo, m)
    decreases |pgn| - lo
  {
    if lo < |pgn| {
      PassMatchesScanned(pgn, lo + 1, m);
      ScannedStep(pgn, lo, m);
    }
  }

  /** Scanned from lo is one read step on top of Scanned from lo + 1. */
  lemma ScannedStep(pgn: seq<char>, lo: nat, m: Move)
    requires lo < |pgn| && PromotionsComplete(pgn)
    ensures Scanned(pgn, lo, m) == ReadStep(Scanned(pgn, lo + 1, m), pgn, lo, m.isWhite)
  {
    DigitFieldsStep(pgn, lo, m);
    ColumnFieldsStep(pgn, lo, m);
    MarkFieldsStep(pgn, lo, m);
  }

  lemma DigitFieldsStep(pgn: seq<char>, lo: nat, m: Move)
    requires lo < |pgn| && PromotionsComplete(pgn)
    ensures var s, t := Scanned(pgn, lo, m), ReadStep(Scanned(pgn, lo + 1, m), pgn, lo, m.isWhite);
      s.seenDigit == t.seenDigit && s.destRow == t.destRow && s.srcRow == t.srcRow
  {
    LastStep(pgn, lo);
    FirstStep(pgn, lo);
  }

  lemma ColumnFieldsStep(pgn: seq<char>, lo: nat, m: Move)
    requires lo < |pgn| && PromotionsComplete(pgn)
    ensures var s, t := Scanned(pgn, lo, m), ReadStep(Scanned(pgn, lo + 1, m), pgn, lo, m.isWhite);
      s.seenColumn == t.seenColumn && s.destCol == t.destCol && s.srcCol == t.srcCol
  {
    LastStep(pgn, lo);
    FirstStep(pgn, lo);
  }

  lemma MarkFieldsStep(pgn: seq<char>, lo: nat, m: Move)
    requires lo < |pgn| && PromotionsComplete(pgn)
    ensures var s, t := Scanned(pgn, lo, m), ReadStep(Scanned(pgn, lo + 1, m), pgn, lo, m.isWhite);
      s.isCapture == t.isCapture && s.isPromotion == t.isPromotion && s.promotionPiece == t.promotionPiece &&
      s.isCheck == t.isCheck && s.isMate == t.isMate
  {
    FirstStep(pgn, lo);
  }

  /** What reading pgn[i] adds to the searches for the last digit and file letter. */
  lemma LastStep(pgn: seq<char>, i: nat)
    requires i < |pgn|
    ensures LastIn(pgn, i, Digit) ==
      if LastIn(pgn, i + 1, Digit) >= 0 then LastIn(pgn, i + 1, Digit) else if IsDigit(pgn[i]) then i else -1
    ensures LastIn(pgn, i, FileLetter) ==
      if LastIn(pgn, i + 1, FileLetter) >= 0 then LastIn(pgn, i + 1, FileLetter) else if IsColumn(pgn[i]) then i else -1
  {
  }

  /** What reading pgn[i] adds to the searches for the first character of each kind. */
  lemma FirstStep(pgn: seq<char>, i: nat)
    requires i < |pgn|
    ensures FirstIn(pgn, i, Digit) == if IsDigit(pgn[i]) then i else FirstIn(pgn, i + 1, Digit)
    ensures FirstIn(pgn, i, FileLetter) == if IsColumn(pgn[i]) then i else FirstIn(pgn, i + 1, FileLetter)
    ensures FirstIn(pgn, i, CaptureMark) == if pgn[i] == 'x' then i else FirstIn(pgn, i + 1, CaptureMark)
    ensures FirstIn(pgn, i, PromotionMark) == if pgn[i] == '=' then i else FirstIn(pgn, i + 1, PromotionMark)
    ensures FirstIn(pgn, i, CheckMark) == if pgn[i] == '+' then i else FirstIn(pgn, i + 1, CheckMark)
    ensures FirstIn(pgn, i, MateMark) == if pgn[i] == '#' then i else FirstIn(pgn, i + 1, MateMark)
  {
  }
}
