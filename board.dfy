/// The board of the chess engine: cell characters, piece letters and the
/// maps between algebraic files/ranks and array indices (ass4.c:84-131).
/// A cell holds a FEN piece letter (upper case White, lower case Black) or
/// the space character when it is empty.
module ChessBoard {

  /** The side length of the board. */
  const Size: int := 8

  /** The character of an empty cell. */
  const Empty: char := ' '

  /** The "not given" value of the character fields of a move. */
  const Undefined: char := '\0'

  predicate IsGrid(b: seq<seq<char>>) {
    |b| == Size && forall i | 0 <= i < |b| :: |b[i]| == Size
  }

  /** The board as a value: row 0 is rank 8, column 0 is file a. */
  type Board = b: seq<seq<char>> | IsGrid(b) witness seq(8, _ => seq(8, _ => ' '))

  predicate OnBoard(i: int, j: int) {
    0 <= i < Size && 0 <= j < Size
  }

  /** The shape of the engine's board array. */
  predicate IsBoardArray(a: array2<char>) {
    a.Length0 == Size && a.Length1 == Size
  }

  /** The contents of a board array as a value. */
  function Cells(a: array2<char>): (b: Board)
    requires IsBoardArray(a)
    reads a
    ensures forall i, j | OnBoard(i, j) :: b[i][j] == a[i, j]
  {
    seq(8, i requires 0 <= i < 8 reads a => seq(8, j requires 0 <= j < 8 reads a => a[i, j]))
  }

  /** Two boards are equal when they agree cell by cell. */
  lemma BoardEq(b1: Board, b2: Board)
    requires forall i, j | OnBoard(i, j) :: b1[i][j] == b2[i][j]
    ensures b1 == b2
  {
    forall i | 0 <= i < Size
      ensures b1[i] == b2[i]
    {
      assert forall j | 0 <= j < Size :: b1[i][j] == b2[i][j];
    }
  }

  /** A piece letter of the move notation (always upper case; pawns have none). */
  predicate IsPiece(c: char) {
    c == 'K' || c == 'Q' || c == 'B' || c == 'N' || c == 'R'
  }

  predicate IsBlack(c: char) {
    c == 'k' || c == 'q' || c == 'b' || c == 'n' || c == 'r' || c == 'p'
  }

  predicate IsWhite(c: char) {
    c == 'K' || c == 'Q' || c == 'B' || c == 'N' || c == 'R' || c == 'P'
  }

  /** isPiece (ass4.c:84-86): the notation's piece letters are White's letters other than the pawn. */
  lemma PieceLettersAreWhiteNonPawns(c: char)
    ensures IsPiece(c) <==> IsWhite(c) && c != 'P'
  {
  }

  /**
   * isBlack and isWhite (ass4.c:88-94): no letter belongs to both sides, an
   * empty or unset cell to neither, and Black's letters are exactly the
   * lower-case forms of White's.
   */
  lemma SidesDisjoint(c: char)
    ensures !(IsWhite(c) && IsBlack(c))
    ensures !IsWhite(Empty) && !IsBlack(Empty) && !IsWhite(Undefined) && !IsBlack(Undefined)
    ensures IsBlack(c) <==> 'a' <= c <= 'z' && IsWhite(ToUpper(c))
  {
  }

  /** The occupant c belongs to the side named by white. */
  predicate OfSide(c: char, white: bool) {
    if white then IsWhite(c) else IsBlack(c)
  }

  /** The C library's isdigit on the characters a token can hold. */
  predicate IsDigit(c: char) {
    '0' <= c <= '9'
  }

  function ToDigit(c: char): (d: int)
    requires IsDigit(c)
    ensures 0 <= d <= 9
  {
    c as int - '0' as int
  }

  function ToChar(d: int): (c: char)
    requires 0 <= d <= 9
    ensures IsDigit(c) && ToDigit(c) == d
  {
    (d + '0' as int) as char
  }

  /** The characters isdigit accepts are exactly those toChar produces. */
  lemma DigitsAreToChar(c: char)
    ensures IsDigit(c) <==> exists d | 0 <= d <= 9 :: ToChar(d) == c
  {
    if IsDigit(c) {
      assert ToChar(ToDigit(c)) == c;
    }
  }

  /** The C library's toupper and tolower, which only move ASCII letters. */
  function ToUpper(c: char): (u: char)
    ensures 'a' <= c <= 'z' ==> 'A' <= u <= 'Z' && u as int + 32 == c as int
    ensures !('a' <= c <= 'z') ==> u == c
  {
    if 'a' <= c <= 'z' then (c as int - 32) as char else c
  }

  function ToLower(c: char): (l: char)
    ensures 'A' <= c <= 'Z' ==> 'a' <= l <= 'z' && l as int == c as int + 32
    ensures !('A' <= c <= 'Z') ==> l == c
  {
    if 'A' <= c <= 'Z' then (c as int + 32) as char else c
  }

  /** Case maps the two sides' letters onto each other, kind by kind. */
  lemma CaseSwapsSides(c: char)
    ensures IsWhite(c) ==> IsBlack(ToLower(c)) && ToUpper(ToLower(c)) == c
    ensures IsBlack(c) ==> IsWhite(ToUpper(c)) && ToLower(ToUpper(c)) == c
  {
  }

  /**
   * A file letter a..h. The source subtracts 'a' into a signed char; for
   * every byte the difference lies in 0..7 exactly for these letters, so no
   * wrap-around case remains.
   */
  predicate IsColumn(c: char) {
    'a' <= c <= 'h'
  }

  /** The value a C char holds when char is signed and 8 bits wide. */
  function SignedChar(x: int): (s: int)
    ensures -128 <= s < 128 && (x - s) % 256 == 0
  {
    (x + 128) % 256 - 128
  }

  /**
   * isColumn as written (ass4.c:106-109): the difference c - 'a' is stored
   * in a char and compared with 0..SIZE-1.
   */
  function ColumnTestAsWritten(c: int): bool {
    var colIdx := SignedChar(c - 'a' as int);
    0 <= colIdx < Size
  }

  /** For every byte, signed or not, the test as written accepts exactly a..h. */
  lemma ColumnTestMatches(c: char)
    requires c as int < 256
    ensures ColumnTestAsWritten(SignedChar(c as int)) <==> IsColumn(c)
    ensures ColumnTestAsWritten(c as int) <==> IsColumn(c)
  {
  }

  function ColToIdx(col: char): (k: int)
    requires IsColumn(col)
    ensures 0 <= k < Size
  {
    col as int - 'a' as int
  }

  function IdxToCol(k: int): (col: char)
    requires 0 <= k < Size
    ensures IsColumn(col) && ColToIdx(col) == k
  {
    (k + 'a' as int) as char
  }

  /** Rank 8 is row 0 and rank 1 is row 7. */
  function RowToIdx(row: int): (k: int)
    requires 0 < row <= Size
    ensures 0 <= k < Size
  {
    Size - row
  }

  function IdxToRow(k: int): (row: int)
    requires 0 <= k < Size
    ensures 0 < row <= Size && RowToIdx(row) == k
  {
    Size - k
  }

  /** The coordinate maps are mutually inverse, in both directions. */
  lemma CoordinatesRoundTrip(col: char, row: int)
    requires IsColumn(col) && 0 < row <= Size
    ensures IdxToCol(ColToIdx(col)) == col
    ensures IdxToRow(RowToIdx(row)) == row
    ensures forall k | 0 <= k < Size :: ColToIdx(IdxToCol(k)) == k && RowToIdx(IdxToRow(k)) == k
  {
  }

  /** Higher ranks lie in lower rows. */
  lemma RanksReversed(r1: int, r2: int)
    requires 0 < r1 < r2 <= Size
    ensures RowToIdx(r1) > RowToIdx(r2)
  {
  }

  /** cloneBoard (ass4.c:378-384): copies every cell of src into dest. */
  method CloneBoard(src: array2<char>, dest: array2<char>)
    requires IsBoardArray(src) && IsBoardArray(dest) && src != dest
    modifies dest
    ensures Cells(dest) == Cells(src)
  {
    for i := 0 to Size
      invariant forall i', j' | 0 <= i' < i && 0 <= j' < Size :: dest[i', j'] == src[i', j']
    {
      for j := 0 to Size
        invariant forall i', j' | 0 <= i' < i && 0 <= j' < Size :: dest[i', j'] == src[i', j']
        invariant forall j' | 0 <= j' < j :: dest[i, j'] == src[i, j']
      {
        dest[i, j] := src[i, j];
      }
    }
    BoardEq(Cells(dest), Cells(src));
  }
}
