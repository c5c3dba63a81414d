/// Decoding the piece-placement field of a FEN record into the board
/// (createRow and createBoard, ass4.c:154-175): the field is split into rank
/// groups at '/', and in each group a digit d stands for d empty cells while
/// any other character is copied into the next cell.
module Fen {
  import opened ChessBoard

  /** Index of the first '/' of s, or |s| when there is none. */
  function SepIndex(s: seq<char>): (k: nat)
    ensures k <= |s|
    ensures k < |s| ==> s[k] == '/'
    ensures forall t | 0 <= t < k :: s[t] != '/'
  {
    if s == [] || s[0] == '/' then 0 else 1 + SepIndex(s[1..])
  }

  /**
   * The groups strtok returns for the separator "/": the maximal non-empty
   * runs of characters other than '/', in order. Leading, trailing and
   * repeated separators yield no empty group.
   */
  function Groups(s: seq<char>): (gs: seq<seq<char>>)
    ensures forall g | g in gs :: g != [] && '/' !in g
    decreases |s|
  {
    if s == [] then []
    else if s[0] == '/' then Groups(s[1..])
    else
      var k := SepIndex(s);
      [s[..k]] + Groups(s[k..])
  }

  /** Groups written back with one '/' between neighbours. */
  function Join(gs: seq<seq<char>>): seq<char> {
    if gs == [] then []
    else if |gs| == 1 then gs[0]
    else gs[0] + ['/'] + Join(gs[1..])
  }

  /** Splitting a joined list of '/'-free, non-empty groups gives the list back. */
  lemma {:induction false} GroupsOfJoin(gs: seq<seq<char>>)
    requires forall g | g in gs :: g != [] && '/' !in g
    ensures Groups(Join(gs)) == gs
  {
    if gs == [] {
    } else {
      var s := Join(gs);
      var g := gs[0];
      assert gs[0] in gs;
      if |gs| > 1 {
        assert s == g + (['/'] + Join(gs[1..]));
      }
      assert s[..|g|] == g;
      assert SepIndex(s) == |g| by {
        SepIndexOfPrefix(g, s);
      }
      if |gs| == 1 {
        assert s[|g|..] == [];
      } else {
        var rest := Join(gs[1..]);
        assert s == g + (['/'] + rest);
        assert s[|g|..] == ['/'] + rest;
        assert (['/'] + rest)[1..] == rest;
        assert forall h | h in gs[1..] :: h in gs;
        GroupsOfJoin(gs[1..]);
      }
    }
  }

  lemma {:induction false} SepIndexOfPrefix(g: seq<char>, s: seq<char>)
    requires g != [] && '/' !in g && g <= s
    requires |s| == |g| || s[|g|] == '/'
    ensures SepIndex(s) == |g|
  {
    if |g| > 1 {
      assert g[1..] <= s[1..];
      assert '/' !in g[1..] by {
        forall t | 0 <= t < |g| - 1 ensures g[1..][t] != '/' {
          assert g[1..][t] == g[t + 1];
        }
      }
      SepIndexOfPrefix(g[1..], s[1..]);
    } else {
      assert g[0] == s[0];
      if |s| > 1 {
        assert s[1..][0] == s[1];
      }
    }
  }

  /** n empty cells. */
  function Spaces(n: nat): seq<char>
  {
    seq(n, _ => Empty)
  }

  /** The cells one character of a group stands for. */
  function CellsOf(c: char): seq<char> {
    if IsDigit(c) then Spaces(ToDigit(c)) else [c]
  }

  /** The cells a group expands to, defined from its last character back. */
  function Expand(g: seq<char>): seq<char> {
    if g == [] then [] else Expand(g[..|g| - 1]) + CellsOf(g[|g| - 1])
  }

  /** Expansion distributes over concatenation. */
  lemma {:induction false} ExpandAppend(a: seq<char>, b: seq<char>)
    ensures Expand(a + b) == Expand(a) + Expand(b)
    decreases |b|
  {
    if b == [] {
      assert a + b == a;
    } else {
      var b' := b[..|b| - 1];
      assert (a + b)[..|a + b| - 1] == a + b';
      ExpandAppend(a, b');
    }
  }

  /** Expanding one more character of a group appends its cells. */
  lemma ExpandPrefixStep(g: seq<char>, i: nat)
    requires i < |g|
    ensures Expand(g[..i + 1]) == Expand(g[..i]) + CellsOf(g[i])
  {
    assert g[..i + 1][..i] == g[..i];
  }

  /** A prefix of a group expands to no more cells than the group. */
  lemma ExpandPrefixFits(g: seq<char>, i: nat)
    requires i <= |g|
    ensures |Expand(g[..i])| <= |Expand(g)|
  {
    assert g == g[..i] + g[i..];
    ExpandAppend(g[..i], g[i..]);
  }

  /** A row with its first |e| cells replaced by e, the rest kept. */
  function Filled(row: seq<char>, e: seq<char>): (r: seq<char>)
    requires |e| <= |row|
    ensures |r| == |row|
    ensures forall k | 0 <= k < |row| :: r[k] == if k < |e| then e[k] else row[k]
  {
    e + row[|e|..]
  }

  /**
   * createRow (ass4.c:154-166): writes the expansion of group into row r,
   * one cell at a time through a running index, leaving later cells alone.
   * The source does not bound the index; the expansion must fit the row.
   */
  method CreateRow(board: array2<char>, r: int, group: seq<char>)
    requires IsBoardArray(board) && 0 <= r < Size
    requires |Expand(group)| <= Size
    modifies board
    ensures Cells(board) == old(Cells(board))[r := Filled(old(Cells(board))[r], Expand(group))]
  {
    ghost var b0 := Cells(board);
    var rowIdx := 0;
    for i := 0 to |group|
      invariant rowIdx == |Expand(group[..i])| <= Size
      invariant RowWritten(board, b0, r, Expand(group[..i]))
    {
      ExpandPrefixStep(group, i);
      ExpandPrefixFits(group, i + 1);
      rowIdx := WriteCells(board, r, rowIdx, group[i], b0, Expand(group[..i]));
    }
    assert group[..|group|] == group;
    RowWrittenCells(board, b0, r, Expand(group));
  }

  /**
   * One pass of the loop of createRow (ass4.c:157-163): a digit writes that
   * many empty cells, any other character itself, from rowIdx on.
   */
  method WriteCells(board: array2<char>, r: int, rowIdx: int, c: char, ghost b0: Board, ghost done: seq<char>)
    returns (next: int)
    requires 0 <= r < Size && rowIdx == |done| && |done + CellsOf(c)| <= Size
    requires RowWritten(board, b0, r, done)
    modifies board
    ensures next == rowIdx + |CellsOf(c)|
    ensures RowWritten(board, b0, r, done + CellsOf(c))
  {
    next := rowIdx;
    if IsDigit(c) {
      var spaces := ToDigit(c);
      for j := 0 to spaces
        invariant next == |done| + j
        invariant RowWritten(board, b0, r, done + Spaces(j))
      {
        assert done + Spaces(j + 1) == done + Spaces(j) + [Empty];
        board[r, next] := Empty;
        next := next + 1;
      }
    } else {
      board[r, next] := c;
      next := next + 1;
    }
  }

  /** Row r of the array holds e in its first |e| cells; every other cell is as in b0. */
  ghost predicate RowWritten(board: array2<char>, b0: Board, r: int, e: seq<char>)
    reads board
  {
    IsBoardArray(board) && |e| <= Size &&
    forall i, j | OnBoard(i, j) ::
      board[i, j] == if i == r && j < |e| then e[j] else b0[i][j]
  }

  lemma RowWrittenCells(board: array2<char>, b0: Board, r: int, e: seq<char>)
    requires 0 <= r < Size && RowWritten(board, b0, r, e)
    ensures Cells(board) == b0[r := Filled(b0[r], e)]
  {
    BoardEq(Cells(board), b0[r := Filled(b0[r], e)]);
  }

  /** The first n rows of b replaced by the expansions of the first n groups. */
  function DecodedRows(b: Board, gs: seq<seq<char>>, n: nat): (d: Board)
    requires n <= |gs| <= Size
    requires forall g | g in gs :: |Expand(g)| <= Size
  {
    seq(Size, r requires 0 <= r < Size =>
      if r < n then Filled(b[r], Expand(gs[r])) else b[r])
  }

  /** A placement field the board can hold: at most 8 groups of at most 8 cells. */
  predicate FitsBoard(fen: seq<char>) {
    |Groups(fen)| <= Size && forall g | g in Groups(fen) :: |Expand(g)| <= Size
  }

  /** The board createBoard leaves behind when it starts from b. */
  function Decoded(b: Board, fen: seq<char>): Board
    requires FitsBoard(fen)
  {
    DecodedRows(b, Groups(fen), |Groups(fen)|)
  }

  /**
   * createBoard (ass4.c:168-175): decodes each group of the field into the
   * next row, from row 0 (rank 8) down.
   */
  method CreateBoard(board: array2<char>, fen: seq<char>)
    requires IsBoardArray(board)
    requires FitsBoard(fen)
    modifies board
    ensures Cells(board) == Decoded(old(Cells(board)), fen)
  {
    ghost var b0 := Cells(board);
    var groups := Groups(fen);
    for i := 0 to |groups|
      invariant Cells(board) == DecodedRows(b0, groups, i)
    {
      assert groups[i] in groups;
      CreateRow(board, i, groups[i]);
      BoardEq(Cells(board), DecodedRows(b0, groups, i + 1));
    }
  }

  /** Number of leading empty cells of a row. */
  function SpaceRun(row: seq<char>): (n: nat)
    ensures n <= |row|
    ensures forall k | 0 <= k < n :: row[k] == Empty
    ensures n < |row| ==> row[n] != Empty
  {
    if row == [] || row[0] != Empty then 0 else 1 + SpaceRun(row[1..])
  }

  /** The FEN text of one row: each run of empty cells becomes its length. */
  function EncodeRow(row: seq<char>): (g: seq<char>)
    requires |row| <= 9
    ensures row != [] ==> g != []
    ensures '/' !in row ==> '/' !in g
    decreases |row|
  {
    if row == [] then []
    else if row[0] == Empty then
      var n := SpaceRun(row);
      [ToChar(n)] + EncodeRow(row[n..])
    else [row[0]] + EncodeRow(row[1..])
  }

  /** A cell a FEN group can carry as itself: not a digit and not '/'. */
  predicate Encodable(c: char) {
    c == Empty || (!IsDigit(c) && c != '/')
  }

  /** Decoding the encoding of a row gives the row back. */
  lemma {:induction false} ExpandEncodeRow(row: seq<char>)
    requires |row| <= 9
    requires forall k | 0 <= k < |row| :: Encodable(row[k])
    ensures Expand(EncodeRow(row)) == row
    decreases |row|
  {
    if row == [] {
    } else if row[0] == Empty {
      var n := SpaceRun(row);
      assert forall k | 0 <= k < |row[n..]| :: row[n..][k] == row[n + k];
      ExpandEncodeRow(row[n..]);
      ExpandRunThenRest(row, n);
    } else {
      assert forall k | 0 <= k < |row[1..]| :: row[1..][k] == row[1 + k];
      ExpandEncodeRow(row[1..]);
      ExpandCellThenRest(row);
    }
  }

  /** Expanding a group with one more character in front puts that character's cells in front. */
  lemma ExpandCons(c: char, rest: seq<char>)
    ensures Expand([c] + rest) == CellsOf(c) + Expand(rest)
  {
    ExpandAppend([c], rest);
    assert [c][..0] == [];
  }

  /** A leading run of n empty cells is encoded as the digit n, which expands back to the run. */
  lemma ExpandRunThenRest(row: seq<char>, n: nat)
    requires |row| <= 9 && row != [] && row[0] == Empty && n == SpaceRun(row)
    requires Expand(EncodeRow(row[n..])) == row[n..]
    ensures Expand(EncodeRow(row)) == row
  {
    var rest := EncodeRow(row[n..]);
    assert EncodeRow(row) == [ToChar(n)] + rest;
    RunIsSpaces(row, n);
    ExpandCons(ToChar(n), rest);
    SplitAt(row, n);
  }

  /** The digit for a leading run of empty cells stands for exactly that run. */
  lemma RunIsSpaces(row: seq<char>, n: nat)
    requires |row| <= 9 && n == SpaceRun(row)
    ensures CellsOf(ToChar(n)) == row[..n]
  {
    assert forall k | 0 <= k < n :: row[..n][k] == Empty;
  }

  /** A sequence is its prefix of length n followed by the rest. */
  lemma SplitAt(s: seq<char>, n: nat)
    requires n <= |s|
    ensures s[..n] + s[n..] == s
  {
  }

  /** A leading piece is encoded as itself. */
  lemma ExpandCellThenRest(row: seq<char>)
    requires |row| <= 9 && row != [] && row[0] != Empty && Encodable(row[0])
    requires Expand(EncodeRow(row[1..])) == row[1..]
    ensures Expand(EncodeRow(row)) == row
  {
    var rest := EncodeRow(row[1..]);
    assert EncodeRow(row) == [row[0]] + rest;
    ExpandCons(row[0], rest);
    assert row == [row[0]] + row[1..];
  }

  /** The placement field of a board: its eight rows, rank 8 first. */
  function EncodeBoard(b: Board): seq<char> {
    Join(seq(Size, i requires 0 <= i < Size => EncodeRow(b[i])))
  }

  /**
   * createBoard inverts the encoding: from any starting board, decoding the
   * field of a board whose cells are pieces or empty rebuilds that board.
   */
  lemma DecodeEncodeBoard(start: Board, b: Board)
    requires forall i, j | OnBoard(i, j) :: Encodable(b[i][j])
    ensures FitsBoard(EncodeBoard(b)) && Decoded(start, EncodeBoard(b)) == b
  {
    var rows := seq(Size, i requires 0 <= i < Size => EncodeRow(b[i]));
    forall g | g in rows ensures g != [] && '/' !in g {
      var i :| 0 <= i < Size && rows[i] == g;
      assert '/' !in b[i] by {
        forall k | 0 <= k < Size ensures b[i][k] != '/' {
          assert Encodable(b[i][k]);
        }
      }
    }
    GroupsOfJoin(rows);
    forall i | 0 <= i < Size ensures Expand(rows[i]) == b[i] {
      assert forall k | 0 <= k < Size :: Encodable(b[i][k]);
      ExpandEncodeRow(b[i]);
    }
    BoardEq(Decoded(start, EncodeBoard(b)), b);
  }
}
