# Chess move engine of ass4.c, modelled in Dafny

This project models the move engine of a small chess game referee. The board
is an 8x8 grid of characters: upper-case letters are white pieces, lower-case
letters black ones and a space an empty square. Row 0 holds rank 8, and
column 0 is file `a`. The engine:

- fills the board from the piece-placement field of a FEN record;
- parses one move in standard algebraic notation (SAN);
- tests piece shapes and whether the squares between source and destination are free;
- tests whether a king is attacked;
- finds the square the moving piece comes from;
- plays the move on the board.

The modules follow the source:

- `ChessBoard` (board.dfy): the board, piece classes, digit and coordinate conversions, and `cloneBoard`.
- `Fen` (fen.dfy): `createRow`/`createBoard`, plus an encoder used as the decoder's inverse.
- `Notation` (notation.dfy): the `Move` record, `initMove` and `parsePgn`.
- `Geometry` (geometry.dfy): `canMoveLike*` and the obstruction tests.
- `Attack` (attack.dfy): `isCheck`.
- `Apply` (apply.dfy): `performMove`.
- `Resolver` (resolver.dfy): `inferSrc`, `parseMove` and `makeMove`.

How the model is built:

- **Methods and the functions that specify them.** Code that loops or writes the board is a `method` over `array2<char>`. Each such method is proved equal to a function on the board's contents (`Cells`). Properties are then proved about those functions.
- **The move record.** The source's `Move` struct is the datatype `Notation.Move`. Its `isLegal` field (-1, 0, 1 in C) is a three-valued `Verdict`.
- **The search does not modify the board.** `inferSrc` tries each candidate on a scratch copy of the board. `Resolver.InferSrc` has no `modifies` clause, so the caller's board cannot change.
- **Failed `assert`s become preconditions.** An `assert` that can fail in the source becomes a `requires` clause. These are `Parsable`, `SearchSafe` and `Resolvable`, and each one lists the asserts it stands for.
- **Known limit: rank hints.** The rank test of `inferSrc` cannot work as written (see "## Findings"). The model uses the corrected test.

## Model

| member | source | states |
|---|---|---|
| ChessBoard.ToDigit | ass4.c:96-99 | a digit character gives a value 0..9 |
| ChessBoard.ToChar | ass4.c:101-104 | a value 0..9 gives a digit character that `ToDigit` maps back to the same value |
| ChessBoard.DigitsAreToChar | ass4.c:96-104 | the characters `isdigit` accepts are exactly the ones `toChar` produces from 0..9 |
| ChessBoard.PieceLettersAreWhiteNonPawns | ass4.c:84-86 | the notation's piece letters are exactly White's letters other than the pawn |
| ChessBoard.SidesDisjoint | ass4.c:88-94 | no letter belongs to both sides, an empty or unset cell to neither, and Black's letters are exactly the lower-case forms of White's |
| ChessBoard.ColumnTestMatches | ass4.c:106-109 | `isColumn` as written, with its difference stored in a signed or unsigned 8-bit char, accepts exactly the files a..h |
| ChessBoard.ToUpper | ass4.c:283 | lower-case letters go to the upper-case letter 32 code points below; every other character is unchanged |
| ChessBoard.ToLower | ass4.c:206-207 | upper-case letters go to the lower-case letter 32 code points above; every other character is unchanged |
| ChessBoard.CaseSwapsSides | ass4.c:84-94 | lower-casing a white piece gives a black piece, upper-casing a black piece gives a white one, and each is undone by the other |
| ChessBoard.ColToIdx | ass4.c:111-116 | a file letter a..h gives a column 0..7 |
| ChessBoard.IdxToCol | ass4.c:118-121 | a column 0..7 gives a file letter that `ColToIdx` maps back to it |
| ChessBoard.RowToIdx | ass4.c:123-126 | a rank 1..8 gives a row 0..7 |
| ChessBoard.IdxToRow | ass4.c:128-131 | a row 0..7 gives a rank 1..8 that `RowToIdx` maps back to it |
| ChessBoard.CoordinatesRoundTrip | ass4.c:111-131 | file and rank conversions are mutually inverse in both directions for every file, rank and index |
| ChessBoard.RanksReversed | ass4.c:123-126 | a higher rank lies on a lower row (rank 8 is row 0) |
| ChessBoard.CloneBoard | ass4.c:378-384 | the destination board holds exactly the cells of the source board |
| Fen.SepIndex | ass4.c:170-174 | the index of the first '/' of a string, or its length when there is none |
| Fen.Groups | ass4.c:168-175 | splitting on '/' yields non-empty groups without '/' |
| Fen.GroupsOfJoin | ass4.c:168-175 | joining non-empty '/'-free groups with '/' and splitting again gives back the same groups |
| Fen.ExpandAppend | ass4.c:156-165 | the expansion of a concatenation is the concatenation of the expansions |
| Fen.Filled | ass4.c:154-166 | a row whose first cells are the expansion and whose other cells are unchanged |
| Fen.CreateRow | ass4.c:154-166 | the target row begins with the group's expansion (a digit d as d empty cells, any other character copied); no other cell of the board changes |
| Fen.WriteCells | ass4.c:157-163 | one character of a group is written as its expansion at the running index, which advances by the expansion's length |
| Fen.CreateBoard | ass4.c:168-175 | row i is filled from the i-th '/'-separated group; rows with no group are unchanged |
| Fen.ExpandEncodeRow | ass4.c:154-166 | decoding the encoding of a row of piece letters and spaces gives the row back |
| Fen.DecodeEncodeBoard | ass4.c:168-175 | decoding the encoding of a board of piece letters and spaces gives the board back, whatever the board held before |
| Notation.InitMove | ass4.c:48-66 | the move has no hints or marks, no source or destination and an undecided verdict, for the given side |
| Notation.LastInIsLast | ass4.c:212-218 | no character of the class lies after the one the backward pass meets first |
| Notation.FirstInIsFirst | ass4.c:219-222 | no character of the class lies before the one the backward pass meets last |
| Notation.Promoted | ass4.c:228 | the promotion letter as written for White and in lower case for Black |
| Notation.Parsed | ass4.c:238-241 | the destination lies on the board and `destPiece` is the board cell there |
| Notation.ParsedMarks | ass4.c:200-234 | the piece is the leading K/Q/B/N/R or else P, in the mover's case; each of capture, promotion, check and mate is set exactly when its mark occurs in the token |
| Notation.ParsedPromotion | ass4.c:225-228 | a promotion piece is the character after the leftmost '=', in the mover's case |
| Notation.ParsedDestination | ass4.c:212-239 | the destination file and rank are the last file letter and the last digit of the token, and the indices are their board coordinates |
| Notation.ParsedHints | ass4.c:212-222 | a file or rank hint exists exactly when the token has two or more file letters or digits, and it is the leftmost one |
| Notation.ParsePgn | ass4.c:191-242 | the backward scan writes the move `Parsed` describes |
| Notation.ScanToken | ass4.c:210-234 | the loop over the token, right to left, ends in the state `Scanned` describes |
| Notation.ReadChar | ass4.c:213-233 | one run of the if-chain on a character has the effect `ReadStep` gives, which `PassMatchesScanned` ties to the closed description |
| Notation.PassMatchesScanned | ass4.c:212-234 | the step-by-step pass from any position agrees with the closed description `Scanned` |
| Notation.ScannedIgnoresPiece | ass4.c:200-212 | the scan does not depend on the piece letter set before it |
| Geometry.CanMoveLikePawn | ass4.c:244-255 | one step forward for the mover's colour, or two from its second rank; one column aside when capturing, none otherwise |
| Geometry.CanMoveLikeKing | ass4.c:257-261 | exactly the moves at Chebyshev distance 1 |
| Geometry.CanMoveLikeQueen | ass4.c:263-266 | exactly the union of rook and bishop moves |
| Geometry.CanMoveLikeBishop | ass4.c:268-270 | a bishop move keeps the square colour |
| Geometry.CanMoveLikeKnight | ass4.c:272-275 | exactly the displacements of squared length 5 |
| Geometry.KnightLengths | ass4.c:272-275 | a displacement has squared length 5 exactly when its absolute deltas are (1,2) or (2,1) |
| Geometry.CanMoveLikeRook | ass4.c:277-279 | exactly the moves where one coordinate does not change |
| Geometry.CanMoveLikeThis | ass4.c:281-292 | a king, knight or pawn move accepted by its shape never stays on its square |
| Geometry.ShapeIgnoresSideUnlessPawn | ass4.c:281-292 | for every piece but the pawn the shape test ignores the side and the capture flag |
| Geometry.PawnMirror | ass4.c:244-255 | a pawn move is accepted exactly when its mirror image for the other colour is |
| Geometry.ShapeInclusions | ass4.c:257-279 | king moves are queen moves; a knight move is no rook, bishop or queen move |
| Geometry.IsDiagonalClear | ass4.c:294-311 | true exactly when source and destination share a diagonal and every square between them is empty |
| Geometry.IsLineClear | ass4.c:313-338 | true exactly when exactly one coordinate differs and every square between them is empty |
| Geometry.IsClearPath | ass4.c:340-376 | pawn captures need a clear diagonal, other pawn moves a clear line, kings and knights nothing, queens a clear diagonal or line, bishops a clear diagonal, rooks a clear line |
| Geometry.DiagonalClearMeansInsideEmpty | ass4.c:294-311 | the diagonal test holds exactly for diagonals whose squares strictly between the ends are all empty |
| Geometry.ClearTestsSymmetric | ass4.c:294-338 | both obstruction tests give the same answer with source and destination exchanged |
| Geometry.ClearPathSeesOnlyEmptiness | ass4.c:340-376 | the path test depends only on which squares are empty |
| Geometry.ClearPathImpliesShape | ass4.c:340-376 | for queens, bishops and rooks a clear path already implies the shape |
| Geometry.PawnCaptureIsOneStep | ass4.c:353-355 | an accepted pawn capture is one step forward and one column aside |
| Geometry.NullMoveClearance | ass4.c:294-338 | a move onto its own square passes the diagonal test but not the line test |
| Attack.KingOf | ass4.c:387 | the king letter of the given side |
| Attack.LastRowWith | ass4.c:389-397 | the last row holding the character, since the break leaves only the inner loop |
| Attack.FirstColWith | ass4.c:390-395 | the first column of a row holding the character |
| Attack.KingFound | ass4.c:388-397 | the king position the scan settles on lies on the board and holds the king |
| Attack.LoneKingFound | ass4.c:388-397 | with a single king, the scan finds exactly its square |
| Attack.FindKing | ass4.c:387-397 | returns the square the scan settles on, which holds the king |
| Attack.IsCheck | ass4.c:386-417 | true exactly when some piece of the other side, as a capture onto the king, passes the shape and path tests |
| Attack.AttackerInRow | ass4.c:404-413 | one row of the attack scan either finds an attacker in it or extends "no attacker so far" past it |
| Attack.AttackedBeforeMeans | ass4.c:403-415 | "attacked before square (i, j)" means some earlier square holds an attacker |
| Attack.KnightGivesCheck | ass4.c:386-417 | an enemy knight a knight jump away from the only king gives check |
| Attack.NoAttackerNoCheck | ass4.c:386-417 | a king without enemy pieces on the board is not in check |
| Apply.Performed | ass4.c:477-480 | the destination holds the landing piece, the source is empty, and every other cell is unchanged |
| Apply.PerformMove | ass4.c:477-480 | the board becomes the `Performed` board |
| Resolver.RowTestAsWritten | ass4.c:424 | the rank test as written passes the assert exactly when the character code lies in 1..8 |
| Resolver.RankHintNeverMatchesAsWritten | ass4.c:424 | for every rank hint '1'..'8' the assert fails, and the index computed without it lies below every row |
| Resolver.RowHintIdx | ass4.c:424 | the corrected rank test: the row of the hinted rank |
| Resolver.RowHintRoundTrip | ass4.c:454-455 | the corrected rank test selects exactly the row whose rank the search writes back as the hint |
| Resolver.KingsSurvive | ass4.c:441-443 | the scratch board after a candidate move still holds a king of each side |
| Resolver.FirstFrom | ass4.c:422-459 | the first accepted square at or after (i, j) in row-major order, if any |
| Resolver.FirstFromSelected | ass4.c:422-459 | the square `FirstFrom` gives is accepted |
| Resolver.FirstFromIsFirst | ass4.c:422-459 | no square between the start and the one `FirstFrom` gives is accepted |
| Resolver.CandidateBefore | ass4.c:430-434 | the source a failed search leaves behind after passing the squares before (i, j): the incoming square or a candidate (hints and piece match) before (i, j) |
| Resolver.CandidateBeforeIsLast | ass4.c:430-434 | that source is the incoming square when no square before (i, j) is a candidate, and otherwise the last candidate before (i, j) |
| Resolver.Chosen | ass4.c:454-456 | on success the source is set, the file and rank hints written back name its column and row, and the verdict is legal |
| Resolver.Qualify | ass4.c:435-453 | true exactly when the candidate passes the shape, path and check tests |
| Resolver.CheckAfter | ass4.c:441-453 | true exactly when, after the move on a copy, the mover is not in check and the opponent is in check iff '+' or '#' was given |
| Resolver.TestChecks | ass4.c:444-453 | the two check tests on the scratch board |
| Resolver.TestSquare | ass4.c:424-453 | reports whether the square is a candidate (hints and piece match) and whether it is accepted |
| Resolver.SearchRow | ass4.c:423-458 | the scan of one row returns the first accepted square of the row, or else the running candidate and "none yet" |
| Resolver.InferSrc | ass4.c:421-461 | the move `Inferred` describes, leaving the board untouched |
| Resolver.InferredLegalIff | ass4.c:421-461 | the search succeeds exactly when some square is accepted |
| Resolver.InferredIsFirst | ass4.c:421-461 | on success the source is accepted, no earlier square in row-major order is, and the written-back hints name the source |
| Resolver.PerformedReadsSquares | ass4.c:477-480 | playing a move depends only on its squares, moving piece and promotion |
| Resolver.InferredIsSafe | ass4.c:441-453 | an accepted move keeps both kings, does not leave the mover in check, and checks the opponent exactly when '+' or '#' was given |
| Resolver.ParseMove | ass4.c:463-475 | the move `Resolved` describes: early rejection, else the search |
| Resolver.EarlyRejectIsIllegal | ass4.c:468-472 | a destination holding the mover's piece, or a capture flag that disagrees with the destination's emptiness, gives an illegal move |
| Resolver.ResolvedLegalIff | ass4.c:463-475 | a move is legal exactly when it is not rejected early and some square is accepted |
| Resolver.LegalMoveIsSafe | ass4.c:482-486 | a legal move leaves the mover's king on the board and not in check |
| Resolver.MakeMove | ass4.c:482-491 | returns whether the move is legal; a legal move is played and leaves the mover out of check, an illegal one leaves the board unchanged |

## Left out

- Printing (`printMove`, `printColumns`, `printSpacers`, `printBoard`) is left out: it only formats text.
- The driver in main.c is left out: it reads a games file and alternates the side to move. The split.py script is not part of this model either.
- ass4.h holds only declarations. `SIZE` is taken as 8.
- The hidden state of `strtok` is not modelled: `createBoard` splits on '/' (`Fen.Groups`) and decodes the groups in order. Like `strtok`, the split skips empty groups.
- The source's `assert`s are modelled as preconditions, not as aborts.
- Fen.CreateRow: requires each group to expand to at most 8 cells, because the source does not bound its write index (ass4.c:160, ass4.c:163).
- Fen.CreateBoard: requires at most 8 groups, each expanding to at most 8 cells, for the same reason.
- Notation.ParsePgn: requires a token that passes the asserts. These are a non-empty token, a promotion mark that is not last, and a destination file and a rank 1..8. The assert at ass4.c:236 tests `destCol` twice. A missing rank is therefore caught only by the assert in `toDigit` (ass4.c:97), and a rank outside 1..8 only by the one in `rowToIdx` (ass4.c:124). `Parsable` requires all of these.
- Resolver.InferSrc: requires the search to be safe (`SearchSafe`), for the following reasons:
  - Both kings must be on the board, because `isCheck` reads an uninitialised king position otherwise (ass4.c:388-397).
  - The moving piece must be a piece letter of the mover's side, because `canMoveLikeThis` and `isClearPath` fall off their end otherwise (ass4.c:291, ass4.c:375).
  - The hints must be a rank 1..8 and a file a..h.
  - The destination must not hold a king, and a king must not promote, because either would remove a king from the scratch board that `isCheck` then reads.
- Resolver.InferSrc: tests a rank hint with `rowToIdx(toDigit(c))` rather than with the character itself as ass4.c:424 does (see "## Findings"), so a move with a rank hint can be legal here while the source always rejects it.
- Resolver.ParseMove: requires `Resolvable`, which is `Parsable` plus `SearchSafe` whenever the early rejection does not apply; it inherits the corrected rank test of Resolver.InferSrc.
- Resolver.MakeMove: requires the same as Resolver.ParseMove, and likewise plays moves with a rank hint that the source would reject.
- Attack.IsCheck: the probe move's unset fields (uninitialised in the source, ass4.c:398) are taken from `initMove`. The shape and path tests never read them.
- Castling, en passant, real mate detection and draw rules are not modelled: the source has none of them. Mate is treated exactly like check, as in the source (ass4.c:448-451).
- Promotion copies the character after '=' without checking it, as in the source (ass4.c:228, ass4.c:478).

## Findings

| source | as written | input that shows it | evidently intended | confidence | as-written member | corrected member |
|---|---|---|---|---|---|---|
| ass4.c:424 | the rank hint character itself (code 49..56) goes to `rowToIdx`, whose assert demands 1..8 | any token with a rank hint, e.g. "R1a3" (hint '1', code 49): the assert at ass4.c:124 fails; without asserts, row 8 - 49 matches no square, so the move is always illegal | `rowToIdx(toDigit(move->srcRow))`, which selects the row of the hinted rank | not executed | Resolver.RowTestAsWritten, Resolver.RankHintNeverMatchesAsWritten | Resolver.RowHintIdx, Resolver.RowHintRoundTrip |
