/** Reading a position from Forsyth-Edwards Notation (section 16.1 of the PGN
    standard): the piece placement, the side to move, the castling rights, the en
    passant square and the two clocks, each separated by one space.

    `read_FEN` and `parse_row` build their vectors in loops; each loop is a method
    here, proved to compute the recursive function that states what the field
    means.  A malformed field aborts with the `Panic` the source raises. */
module Fen {
  import opened Wrappers
  import opened Panics
  import opened Bitboards
  import opened Utils
  import opened Positions

  // ---------------------------------------------------------------------------
  // One row of the placement

  /** The piece type a lower-case letter names. */
  function PieceOfLetter(ch: char): (r: Option<PieceType>)
    ensures r.Some? <==> ch in "rnbqkp"
  {
    match ch
    case 'r' => Some(Rook)
    case 'n' => Some(Knight)
    case 'b' => Some(Bishop)
    case 'q' => Some(Queen)
    case 'k' => Some(King)
    case 'p' => Some(Pawn)
    case _ => None
  }

  /** `is_ascii_uppercase`. */
  predicate IsUpper(ch: char)
  {
    'A' <= ch <= 'Z'
  }

  /** `to_ascii_lowercase`: upper-case letters move to lower case, nothing else changes. */
  function Lower(ch: char): (r: char)
    ensures IsUpper(ch) ==> 'a' <= r <= 'z'
    ensures !IsUpper(ch) ==> r == ch
  {
    if IsUpper(ch) then (ch as int - 'A' as int + 'a' as int) as char else ch
  }

  /** `n` empty squares. */
  function Empties(n: nat): (s: seq<Square>)
    ensures |s| == n && forall i | 0 <= i < n :: s[i] == Empty
  {
    seq(n, _ => Empty)
  }

  /** What `parse_row` holds after a prefix of its row: the pieces in reading order,
      the squares with the latest at the front, the next piece number and the next
      bit position. */
  datatype RowScan = RowScan(pieces: seq<Piece>, squares: seq<Square>, index: nat, position: nat)

  /** One character of a row: a piece letter (upper case for White) or a digit that
      skips that many squares; anything else panics. */
  function ScanChar(scan: RowScan, ch: char): (r: Result<RowScan, Panic>)
  {
    var color := if IsUpper(ch) then White else Black;
    match PieceOfLetter(Lower(ch))
    case Some(t) =>
      if scan.position >= 64 then Err(ShiftOverflow)
      else Ok(RowScan(scan.pieces + [Piece(Bit(scan.position), color, t, true)],
                      [Occupied(scan.index)] + scan.squares, scan.index + 1, scan.position + 1))
    case None =>
      match ToDigit(Lower(ch))
      case None => Err(BadPlacement)
      case Some(n) => Ok(scan.(squares := Empties(n) + scan.squares, position := scan.position + n))
  }

  /** `parse_row` on a row, numbering pieces from `pieceIndex` and placing them from
      bit `piecePosition` on. */
  function ScanRow(row: string, pieceIndex: nat, piecePosition: nat): (r: Result<RowScan, Panic>)
    decreases |row|
  {
    if row == [] then Ok(RowScan([], [], pieceIndex, piecePosition))
    else
      var scan :- ScanRow(row[..|row| - 1], pieceIndex, piecePosition);
      ScanChar(scan, row[|row| - 1])
  }

  /** Once a prefix of a row fails, the row fails the same way. */
  lemma {:induction false} ScanRowFailed(row: string, i: nat, pieceIndex: nat, piecePosition: nat)
    requires i <= |row| && ScanRow(row[..i], pieceIndex, piecePosition).Err?
    ensures ScanRow(row, pieceIndex, piecePosition) == ScanRow(row[..i], pieceIndex, piecePosition)
    decreases |row| - i
  {
    if i < |row| {
      assert row[..i + 1][..i] == row[..i];
      ScanRowFailed(row, i + 1, pieceIndex, piecePosition);
    } else {
      assert row[..i] == row;
    }
  }

  /** `parse_row`: the row's pieces and its squares, latest first. */
  method ParseRow(row: string, pieceIndex: nat, piecePosition: nat)
    returns (r: Result<(seq<Piece>, seq<Square>), Panic>)
    ensures var scan := ScanRow(row, pieceIndex, piecePosition);
      && (scan.Ok? ==> r.Ok? && r.value.0 == scan.value.pieces && r.value.1 == scan.value.squares)
      && (scan.Err? ==> r.Err? && r.error == scan.error)
  {
    var scan := RowScan([], [], pieceIndex, piecePosition);
    var i := 0;
    while i < |row|
      invariant i <= |row|
      invariant ScanRow(row[..i], pieceIndex, piecePosition) == Ok(scan)
    {
      assert row[..i + 1][..i] == row[..i];
      var next := ParseChar(scan, row[i]);
      if next.Err? {
        ScanRowFailed(row, i + 1, pieceIndex, piecePosition);
        return Err(next.error);
      }
      scan := next.value;
      i := i + 1;
    }
    assert row[..i] == row;
    return Ok((scan.pieces, scan.squares));
  }

  /** The body of the loop of `parse_row`: one character. */
  method ParseChar(scan: RowScan, ch: char) returns (r: Result<RowScan, Panic>)
    ensures r == ScanChar(scan, ch)
  {
    var color := if IsUpper(ch) then White else Black;
    match PieceOfLetter(Lower(ch)) {
      case Some(t) =>
        if scan.position >= 64 {
          return Err(ShiftOverflow);
        }
        var piece := Piece(Bit(scan.position), color, t, true);
        return Ok(RowScan(scan.pieces + [piece], [Occupied(scan.index)] + scan.squares,
                          scan.index + 1, scan.position + 1));
      case None =>
        var digit := ToDigit(Lower(ch));
        if digit.None? {
          return Err(BadPlacement);
        }
        var squares, position := PushEmpties(scan.squares, scan.position, digit.value);
        return Ok(scan.(squares := squares, position := position));
    }
  }

  /** The loop of `parse_row` over the squares a digit leaves empty. */
  method PushEmpties(before: seq<Square>, start: nat, count: nat) returns (squares: seq<Square>, position: nat)
    ensures squares == Empties(count) + before && position == start + count
  {
    squares, position := before, start;
    var k := 0;
    while k < count
      invariant k <= count
      invariant squares == Empties(k) + before && position == start + k
    {
      squares := [Empty] + squares;
      position := position + 1;
      k := k + 1;
    }
  }

  // ---------------------------------------------------------------------------
  // The whole placement

  /** `splitn(n, '/')`: at most `n` parts, the last holding the rest of the text. */
  function SplitRows(placement: string, n: nat): (rows: seq<string>)
    requires n >= 1
    ensures 1 <= |rows| <= n
    decreases |placement|
  {
    if n == 1 || '/' !in placement then [placement]
    else
      var parts := Split(placement, '/');
      [parts.0] + SplitRows(parts.1, n - 1)
  }

  /** What `read_FEN` has built from the first rows: its piece list, its square deque
      and its two occupancy words. */
  datatype Board = Board(pieces: seq<Piece>, squares: seq<Square>, white: Bitboard, black: Bitboard)

  /** The pieces of a row appended to the list, each ORed into its colour's word. */
  function PushPieces(board: Board, rowPieces: seq<Piece>): (r: Board)
    ensures r.squares == board.squares && r.pieces == board.pieces + rowPieces
  {
    if rowPieces == [] then board
    else
      var b := PushPieces(board, rowPieces[..|rowPieces| - 1]);
      var p := rowPieces[|rowPieces| - 1];
      assert rowPieces == rowPieces[..|rowPieces| - 1] + [p];
      match p.color
      case Black => b.(pieces := b.pieces + [p], black := Union(b.black, p.position))
      case White => b.(pieces := b.pieces + [p], white := Union(b.white, p.position))
  }

  /** The squares of a row pushed one by one onto the front of the deque. */
  function PushSquares(deque: seq<Square>, rowSquares: seq<Square>): (r: seq<Square>)
    ensures |r| == |deque| + |rowSquares|
  {
    if rowSquares == [] then deque
    else [rowSquares[|rowSquares| - 1]] + PushSquares(deque, rowSquares[..|rowSquares| - 1])
  }

  /** The placement rows read in order, the `k`-th (from 1) starting at bit `64 - 8k`. */
  function ScanRows(rows: seq<string>): (r: Result<Board, Panic>)
    requires |rows| <= 8
  {
    if rows == [] then Ok(Board([], [], 0, 0))
    else
      var board :- ScanRows(rows[..|rows| - 1]);
      var scan :- ScanRow(rows[|rows| - 1], |board.pieces|, 64 - 8 * |rows|);
      Ok(AddRow(board, scan))
  }

  /** A parsed row added to the board: its pieces appended, its squares pushed. */
  function AddRow(board: Board, scan: RowScan): (r: Board)
    ensures r.pieces == board.pieces + scan.pieces && r.squares == PushSquares(board.squares, scan.squares)
  {
    PushPieces(board, scan.pieces).(squares := PushSquares(board.squares, scan.squares))
  }

  /** Once a prefix of the rows fails, the placement fails the same way. */
  lemma {:induction false} ScanRowsFailed(rows: seq<string>, k: nat)
    requires k <= |rows| <= 8 && ScanRows(rows[..k]).Err?
    ensures ScanRows(rows).Err? && ScanRows(rows).error == ScanRows(rows[..k]).error
    decreases |rows| - k
  {
    if k < |rows| {
      assert rows[..k + 1][..k] == rows[..k];
      ScanRowsFailed(rows, k + 1);
    } else {
      assert rows[..k] == rows;
    }
  }

  /** The last row of a placement that parses: the rows before it parse, it parses
      after them, and its pieces and squares are added to their board. */
  lemma ScanRowsLast(rows: seq<string>)
    requires 0 < |rows| <= 8 && ScanRows(rows).Ok?
    ensures ScanRows(rows[..|rows| - 1]).Ok?
    ensures var board := ScanRows(rows[..|rows| - 1]).value;
      var scan := ScanRow(rows[|rows| - 1], |board.pieces|, 64 - 8 * |rows|);
      && scan.Ok?
      && ScanRows(rows).value ==
         PushPieces(board, scan.value.pieces).(squares := PushSquares(board.squares, scan.value.squares))
  {
  }

  /** One more row of the placement: the next row, parsed after the board of the rows
      before it, decides how the longer prefix ends. */
  lemma ScanRowsStep(rows: seq<string>, k: nat, board: Board, position: nat, scan: Result<RowScan, Panic>)
    requires k < |rows| <= 8 && ScanRows(rows[..k]) == Ok(board)
    requires position == 64 - 8 * (k + 1) && scan == ScanRow(rows[k], |board.pieces|, position)
    ensures scan.Err? ==> ScanRows(rows[..k + 1]) == Err(scan.error)
    ensures scan.Ok? ==> ScanRows(rows[..k + 1]) == Ok(AddRow(board, scan.value))
  {
    var next := rows[..k + 1];
    assert next[..|next| - 1] == rows[..k] && next[|next| - 1] == rows[k];
    ScanRowsNext(next, board, scan);
  }

  /** The rows after a prefix that parses to `board`: the last row, parsed after it,
      decides the outcome. */
  lemma ScanRowsNext(rows: seq<string>, board: Board, scan: Result<RowScan, Panic>)
    requires 0 < |rows| <= 8 && ScanRows(rows[..|rows| - 1]) == Ok(board)
    requires scan == ScanRow(rows[|rows| - 1], |board.pieces|, 64 - 8 * |rows|)
    ensures scan.Err? ==> ScanRows(rows) == Err(scan.error)
    ensures scan.Ok? ==> ScanRows(rows) == Ok(AddRow(board, scan.value))
  {
  }

  /** The row loop of `read_FEN`: each row parsed, its pieces appended and ORed into
      the occupancy words, its squares pushed onto the front of the deque. */
  method ReadPlacement(placement: string) returns (r: Result<Board, Panic>)
    ensures r == ScanRows(SplitRows(placement, 8))
  {
    var rows := SplitRows(placement, 8);
    var board := Board([], [], 0, 0);
    var piecePosition := 64;
    var k := 0;
    while k < |rows|
      invariant k <= |rows| && piecePosition == 64 - 8 * k
      invariant ScanRows(rows[..k]) == Ok(board)
    {
      piecePosition := piecePosition - 8;
      var next := ReadRow(rows[k], board, piecePosition);
      ScanRowsStep(rows, k, board, piecePosition, ScanRow(rows[k], |board.pieces|, piecePosition));
      if next.Err? {
        ScanRowsFailed(rows, k + 1);
        return Err(next.error);
      }
      board := next.value;
      k := k + 1;
    }
    assert rows[..k] == rows;
    return Ok(board);
  }

  /** One pass of the row loop: the row parsed, its squares pushed onto the front of
      the deque, its pieces appended and ORed into the occupancy words. */
  method ReadRow(row: string, board: Board, piecePosition: nat) returns (r: Result<Board, Panic>)
    ensures var scan := ScanRow(row, |board.pieces|, piecePosition);
      && (scan.Err? ==> r == Err(scan.error))
      && (scan.Ok? ==> r == Ok(AddRow(board, scan.value)))
  {
    var parsed := ParseRow(row, |board.pieces|, piecePosition);
    if parsed.Err? {
      return Err(parsed.error);
    }
    var deque := PushFront(board.squares, parsed.value.1);
    var next := AppendPieces(board, parsed.value.0);
    return Ok(next.(squares := deque));
  }

  /** The piece loop of `read_FEN`: each piece ORed into its colour's word and appended. */
  method AppendPieces(board: Board, rowPieces: seq<Piece>) returns (r: Board)
    ensures r == PushPieces(board, rowPieces)
  {
    var pieces, white, black := board.pieces, board.white, board.black;
    var j := 0;
    while j < |rowPieces|
      invariant j <= |rowPieces|
      invariant PushPieces(board, rowPieces[..j]) == Board(pieces, board.squares, white, black)
    {
      assert rowPieces[..j + 1][..j] == rowPieces[..j];
      var p := rowPieces[j];
      match p.color {
        case Black => black := Union(black, p.position);
        case White => white := Union(white, p.position);
      }
      pieces := pieces + [p];
      j := j + 1;
    }
    assert rowPieces[..j] == rowPieces;
    return Board(pieces, board.squares, white, black);
  }

  /** The square loop of `read_FEN`: each square of the row pushed onto the front. */
  method PushFront(deque: seq<Square>, rowSquares: seq<Square>) returns (r: seq<Square>)
    ensures r == PushSquares(deque, rowSquares)
  {
    r := deque;
    var j := 0;
    while j < |rowSquares|
      invariant j <= |rowSquares|
      invariant r == PushSquares(deque, rowSquares[..j])
    {
      assert rowSquares[..j + 1][..j] == rowSquares[..j];
      r := [rowSquares[j]] + r;
      j := j + 1;
    }
    assert rowSquares[..j] == rowSquares;
  }

  // ---------------------------------------------------------------------------
  // The other fields

  /** The side to move: `w` or `b`. */
  function ColorOf(field: string): (r: Result<Color, Panic>)
    ensures r.Ok? <==> field == "w" || field == "b"
    ensures r.Ok? ==> (r.value == White <==> field == "w")
  {
    if field == "w" then Ok(White)
    else if field == "b" then Ok(Black)
    else Err(BadColor)
  }

  /** No castling right. */
  const NoCastling := CastlingRights(false, false, false, false)

  /** One character of the castling field: `K`, `Q`, `k` or `q` grants a right, `-`
      changes nothing, anything else panics. */
  function Grant(rights: CastlingRights, ch: char): (r: Result<CastlingRights, Panic>)
  {
    match ch
    case 'K' => Ok(rights.(whiteKingside := true))
    case 'Q' => Ok(rights.(whiteQueenside := true))
    case 'k' => Ok(rights.(blackKingside := true))
    case 'q' => Ok(rights.(blackQueenside := true))
    case '-' => Ok(rights)
    case _ => Err(BadCastling)
  }

  /** The castling rights a field grants, starting from none. */
  function CastlingOf(field: string): (r: Result<CastlingRights, Panic>)
  {
    if field == [] then Ok(NoCastling)
    else
      var rights :- CastlingOf(field[..|field| - 1]);
      Grant(rights, field[|field| - 1])
  }

  /** The castling loop of `read_FEN`. */
  method ReadCastling(field: string) returns (r: Result<CastlingRights, Panic>)
    ensures r == CastlingOf(field)
  {
    var castling := NoCastling;
    var i := 0;
    while i < |field|
      invariant i <= |field| && CastlingOf(field[..i]) == Ok(castling)
    {
      assert field[..i + 1][..i] == field[..i];
      match field[i] {
        case 'K' => castling := castling.(whiteKingside := true);
        case 'Q' => castling := castling.(whiteQueenside := true);
        case 'k' => castling := castling.(blackKingside := true);
        case 'q' => castling := castling.(blackQueenside := true);
        case '-' =>
        case _ =>
          CastlingFailed(field, i + 1);
          return Err(BadCastling);
      }
      i := i + 1;
    }
    assert field[..i] == field;
    return Ok(castling);
  }

  /** Once a prefix of the castling field fails, the field fails the same way. */
  lemma {:induction false} CastlingFailed(field: string, i: nat)
    requires i <= |field| && CastlingOf(field[..i]).Err?
    ensures CastlingOf(field) == CastlingOf(field[..i])
    decreases |field| - i
  {
    if i < |field| {
      assert field[..i + 1][..i] == field[..i];
      CastlingFailed(field, i + 1);
    } else {
      assert field[..i] == field;
    }
  }

  /** A castling field grants a right exactly when it holds that right's letter,
      and it is accepted exactly when every character is one of `KQkq-`. */
  lemma {:induction false} CastlingLetters(field: string)
    ensures CastlingOf(field).Ok? <==> forall i | 0 <= i < |field| :: field[i] in "KQkq-"
    ensures CastlingOf(field).Ok? ==>
      && (CastlingOf(field).value.whiteKingside <==> 'K' in field)
      && (CastlingOf(field).value.whiteQueenside <==> 'Q' in field)
      && (CastlingOf(field).value.blackKingside <==> 'k' in field)
      && (CastlingOf(field).value.blackQueenside <==> 'q' in field)
  {
    if field != [] {
      var prefix := field[..|field| - 1];
      var ch := field[|field| - 1];
      assert field == prefix + [ch];
      CastlingLetters(prefix);
      if CastlingOf(prefix).Ok? {
        GrantLetter(prefix, ch, CastlingOf(prefix).value, field);
      } else {
        var i :| 0 <= i < |prefix| && prefix[i] !in "KQkq-";
        assert field[i] == prefix[i];
      }
    }
  }

  /** The rights granted exactly by the letters of `field`. */
  ghost predicate Grants(field: string, rights: CastlingRights)
  {
    && (rights.whiteKingside <==> 'K' in field)
    && (rights.whiteQueenside <==> 'Q' in field)
    && (rights.blackKingside <==> 'k' in field)
    && (rights.blackQueenside <==> 'q' in field)
  }

  /** One more character after a field whose letters grant `rights`. */
  lemma GrantLetter(prefix: string, ch: char, rights: CastlingRights, field: string)
    requires Grants(prefix, rights) && field == prefix + [ch]
    ensures Grant(rights, ch).Ok? <==> ch in "KQkq-"
    ensures Grant(rights, ch).Ok? ==> Grants(field, Grant(rights, ch).value)
  {
    forall letter: char
      ensures letter in field <==> letter in prefix || letter == ch
    {
      if letter in field {
        var i :| 0 <= i < |field| && field[i] == letter;
        if i < |prefix| {
          assert prefix[i] == letter;
        }
      }
    }
  }

  /** The en passant field: `-`, or a square name. */
  function EnPassantOf(field: string): (r: Result<Option<Bitboard>, Panic>)
    ensures r.Ok? <==> field == "-" || IsSquareName(field)
    ensures r.Ok? && field != "-" ==> r.value == Some(Bit(SquareOfName(field)))
  {
    if field == "-" then Ok(None)
    else match PositionToBit(field)
      case Err(_) => Err(BadEnPassant)
      case Ok(bit) => Ok(Some(bit))
  }

  /** One more than the largest `usize`. */
  const UsizeLimit: nat := 0x1_0000_0000_0000_0000

  /** Whether every character is a decimal digit. */
  predicate AllDigits(s: string)
  {
    forall i | 0 <= i < |s| :: '0' <= s[i] <= '9'
  }

  /** The value of a string of decimal digits, most significant first. */
  function DecimalValue(s: string): (n: nat)
    requires AllDigits(s)
  {
    if s == [] then 0 else DecimalValue(s[..|s| - 1]) * 10 + (s[|s| - 1] as int - '0' as int)
  }

  /** `parse::<usize>`: an optional `+` and at least one digit, below `UsizeLimit`. */
  function ClockOf(field: string): (r: Result<nat, Panic>)
    ensures r.Ok? ==> r.value < UsizeLimit
  {
    var digits := if |field| > 0 && field[0] == '+' then field[1..] else field;
    if digits == [] || !AllDigits(digits) || DecimalValue(digits) >= UsizeLimit then Err(BadClock)
    else Ok(DecimalValue(digits))
  }

  /** A clock written with its decimal numeral reads back as itself. */
  lemma ClockRoundTrip(n: nat)
    requires n < UsizeLimit
    ensures ClockOf(Decimal(n)) == Ok(n)
  {
    DecimalDigits(n);
  }

  /** `Decimal` writes digits whose value is the number. */
  lemma {:induction false} DecimalDigits(n: nat)
    ensures AllDigits(Decimal(n)) && DecimalValue(Decimal(n)) == n
  {
    if n >= 10 {
      DecimalDigits(n / 10);
      var s := Decimal(n);
      assert s[..|s| - 1] == Decimal(n / 10);
    }
  }

  // ---------------------------------------------------------------------------
  // The whole record

  /** `read_FEN` as a value: the six space-separated fields read in order, the first
      failure deciding the panic; a placement that does not describe 64 squares is
      refused. */
  function FenState(fen: string): (r: Result<State, Panic>)
  {
    var fields := Split(fen, ' ');
    var board :- ScanRows(SplitRows(fields.0, 8));
    WithFields(board, fields.1)
  }

  /** The fields after the placement, read onto the board built from it. */
  function WithFields(board: Board, rest: string): (r: Result<State, Panic>)
    ensures r.Ok? ==> && r.value.pieces == board.pieces && r.value.squares == board.squares
                      && |board.squares| == 64
                      && r.value.whiteOccupancy == board.white && r.value.blackOccupancy == board.black
  {
    var fields := Split(rest, ' ');
    var color :- ColorOf(fields.0);
    var fields := Split(fields.1, ' ');
    var castling :- CastlingOf(fields.0);
    var fields := Split(fields.1, ' ');
    var enPassant :- EnPassantOf(fields.0);
    var fields := Split(fields.1, ' ');
    var halfmove :- ClockOf(fields.0);
    var fields := Split(fields.1, ' ');
    var fullmove :- ClockOf(fields.0);
    if |board.squares| != 64 then Err(BadPlacement)
    else Ok(State(board.pieces, board.squares, color, castling, enPassant, halfmove, fullmove,
                  board.white, board.black))
  }

  /** `read_FEN`: a new position object holding `FenState(fen)`. */
  method ReadFen(fen: string) returns (r: Result<Position, Panic>)
    ensures FenState(fen).Err? ==> r.Err? && r.error == FenState(fen).error
    ensures FenState(fen).Ok? ==> r.Ok? && fresh(r.value) && r.value.Valid()
                                  && r.value.Snapshot() == FenState(fen).value
  {
    var placement, rest := SplitOn(fen, ' ');
    var board := ReadPlacement(placement);
    if board.Err? {
      return Err(board.error);
    }
    var colorField, rest1 := SplitOn(rest, ' ');
    var color := ColorOf(colorField);
    if color.Err? {
      return Err(color.error);
    }
    var castlingField, rest2 := SplitOn(rest1, ' ');
    var castling := ReadCastling(castlingField);
    if castling.Err? {
      return Err(castling.error);
    }
    var enPassantField, rest3 := SplitOn(rest2, ' ');
    var enPassant := EnPassantOf(enPassantField);
    if enPassant.Err? {
      return Err(enPassant.error);
    }
    var halfmoveField, rest4 := SplitOn(rest3, ' ');
    var halfmove := ClockOf(halfmoveField);
    if halfmove.Err? {
      return Err(halfmove.error);
    }
    var fullmoveField, _ := SplitOn(rest4, ' ');
    var fullmove := ClockOf(fullmoveField);
    if fullmove.Err? {
      return Err(fullmove.error);
    }
    if |board.value.squares| != 64 {
      return Err(BadPlacement);
    }
    var st := State(board.value.pieces, board.value.squares, color.value, castling.value, enPassant.value,
                    halfmove.value, fullmove.value, board.value.white, board.value.black);
    FenTallied(fen);
    var position := new Position.FromState(st);
    return Ok(position);
  }

  // ---------------------------------------------------------------------------
  // What a parsed position satisfies

  /** A board whose squares name existing live pieces and whose occupancy words are
      the ORs of the pieces of each colour. */
  ghost predicate Tallied(b: Board)
  {
    && (forall p | 0 <= p < |b.pieces| :: b.pieces[p].alive)
    && b.white == OccupancyOf(b.pieces, White)
    && b.black == OccupancyOf(b.pieces, Black)
    && (forall i | 0 <= i < |b.squares| && b.squares[i].Occupied? :: b.squares[i].piece < |b.pieces|)
  }

  /** A parsed row: its pieces are live and numbered on from `pieceIndex`, its squares
      name only those numbers, and every square it describes moved the bit position. */
  lemma {:induction false} ScanRowShape(row: string, pieceIndex: nat, piecePosition: nat)
    requires ScanRow(row, pieceIndex, piecePosition).Ok?
    ensures var scan := ScanRow(row, pieceIndex, piecePosition).value;
      && scan.index == pieceIndex + |scan.pieces|
      && scan.position == piecePosition + |scan.squares|
      && |scan.squares| == RowWidth(row)
      && (forall p | 0 <= p < |scan.pieces| :: scan.pieces[p].alive)
      && (forall j | 0 <= j < |scan.squares| && scan.squares[j].Occupied? ::
            pieceIndex <= scan.squares[j].piece < scan.index)
  {
    if row != [] {
      ScanRowShape(row[..|row| - 1], pieceIndex, piecePosition);
    }
  }

  /** The deque after pushing a row: the row's squares last-first, then the old deque. */
  lemma {:induction false} PushSquaresAt(deque: seq<Square>, rowSquares: seq<Square>)
    ensures forall i | 0 <= i < |rowSquares| :: PushSquares(deque, rowSquares)[i] == rowSquares[|rowSquares| - 1 - i]
    ensures forall i | |rowSquares| <= i < |rowSquares| + |deque| ::
              PushSquares(deque, rowSquares)[i] == deque[i - |rowSquares|]
  {
    if rowSquares != [] {
      PushSquaresAt(deque, rowSquares[..|rowSquares| - 1]);
    }
  }

  /** Appending live pieces keeps the occupancy words the ORs of the pieces. */
  lemma {:induction false} PushPiecesTallies(board: Board, rowPieces: seq<Piece>)
    requires board.white == OccupancyOf(board.pieces, White) && board.black == OccupancyOf(board.pieces, Black)
    requires forall p | 0 <= p < |rowPieces| :: rowPieces[p].alive
    ensures var b := PushPieces(board, rowPieces);
      b.white == OccupancyOf(b.pieces, White) && b.black == OccupancyOf(b.pieces, Black)
  {
    if rowPieces != [] {
      var prefix := rowPieces[..|rowPieces| - 1];
      var p := rowPieces[|rowPieces| - 1];
      PushPiecesTallies(board, prefix);
      var b := PushPieces(board, prefix);
      OccupancyOfAppend(b.pieces, p, White);
      OccupancyOfAppend(b.pieces, p, Black);
    }
  }

  /** Every prefix of a placement that parses yields a tallied board. */
  lemma {:induction false} ScanRowsTallied(rows: seq<string>, board: Board)
    requires |rows| <= 8 && ScanRows(rows) == Ok(board)
    ensures Tallied(board)
  {
    if rows != [] {
      var k := |rows| - 1;
      var position := 64 - 8 * |rows|;
      ScanRowsLast(rows);
      var before := ScanRows(rows[..k]).value;
      ScanRowsTallied(rows[..k], before);
      TalliedStep(rows[k], before, position, board);
    }
  }

  /** A row parsed after a tallied board and added to it keeps it tallied. */
  lemma TalliedStep(row: string, before: Board, position: nat, board: Board)
    requires Tallied(before) && ScanRow(row, |before.pieces|, position).Ok?
    requires var scan := ScanRow(row, |before.pieces|, position).value;
      board == PushPieces(before, scan.pieces).(squares := PushSquares(before.squares, scan.squares))
    ensures Tallied(board)
  {
    ScanRowShape(row, |before.pieces|, position);
    NextRowTallied(before, ScanRow(row, |before.pieces|, position).value);
  }

  /** Adding a parsed row to a tallied board keeps it tallied. */
  lemma NextRowTallied(board: Board, scan: RowScan)
    requires Tallied(board)
    requires scan.index == |board.pieces| + |scan.pieces|
    requires forall p | 0 <= p < |scan.pieces| :: scan.pieces[p].alive
    requires forall j | 0 <= j < |scan.squares| && scan.squares[j].Occupied? :: scan.squares[j].piece < scan.index
    ensures Tallied(PushPieces(board, scan.pieces).(squares := PushSquares(board.squares, scan.squares)))
  {
    PushPiecesTallies(board, scan.pieces);
    PushSquaresAt(board.squares, scan.squares);
  }

  /** The board a position `read_FEN` accepts was built from. */
  lemma FenBoard(fen: string)
    requires FenState(fen).Ok?
    ensures var rows := SplitRows(Split(fen, ' ').0, 8);
      && ScanRows(rows).Ok?
      && var board := ScanRows(rows).value;
         var st := FenState(fen).value;
         && st.pieces == board.pieces && st.squares == board.squares && |st.squares| == 64
         && st.whiteOccupancy == board.white && st.blackOccupancy == board.black
  {
  }

  /** A position `read_FEN` accepts is well formed, all its pieces are live and each
      occupancy word is the OR of that colour's pieces. */
  lemma FenTallied(fen: string)
    requires FenState(fen).Ok?
    ensures var st := FenState(fen).value;
      && WellFormed(st)
      && (forall p | 0 <= p < |st.pieces| :: st.pieces[p].alive)
      && st.whiteOccupancy == OccupancyOf(st.pieces, White)
      && st.blackOccupancy == OccupancyOf(st.pieces, Black)
  {
    FenBoard(fen);
    var rows := SplitRows(Split(fen, ' ').0, 8);
    ScanRowsTallied(rows, ScanRows(rows).value);
  }

  // ---------------------------------------------------------------------------
  // A regular placement is placed

  /** How many squares a row describes: one per piece letter, `n` per digit `n`. */
  function RowWidth(row: string): nat
  {
    if row == [] then 0
    else
      var ch := Lower(row[|row| - 1]);
      RowWidth(row[..|row| - 1]) +
        (if PieceOfLetter(ch).Some? then 1 else match ToDigit(ch) case Some(n) => n case None => 0)
  }

  /** A placement of eight rows, each describing eight squares. */
  predicate EightRanks(placement: string)
  {
    var rows := SplitRows(placement, 8);
    |rows| == 8 && forall k | 0 <= k < 8 :: RowWidth(rows[k]) == 8
  }

  /** The bit at which each piece of a row is placed: the row's start plus the number
      of squares described before its letter. */
  ghost function RowSlots(row: string, piecePosition: nat): seq<nat>
  {
    if row == [] then []
    else
      var prefix := row[..|row| - 1];
      RowSlots(prefix, piecePosition) +
        (if PieceOfLetter(Lower(row[|row| - 1])).Some? then [piecePosition + RowWidth(prefix)] else [])
  }

  /** Where a parsed row put its pieces: piece `y` sits at bit `slots[y]`, the square
      `j` places from the front of the row's deque is bit `piecePosition + width - 1 - j`,
      and every piece of the row has its square in the deque. */
  ghost predicate RowPlaced(scan: RowScan, pieceIndex: nat, piecePosition: nat, slots: seq<nat>)
  {
    && |slots| == |scan.pieces|
    && scan.index == pieceIndex + |scan.pieces|
    && scan.position == piecePosition + |scan.squares|
    && (forall j | 0 <= j < |scan.squares| && scan.squares[j].Occupied? ::
          && pieceIndex <= scan.squares[j].piece < scan.index
          && slots[scan.squares[j].piece - pieceIndex] == piecePosition + |scan.squares| - 1 - j)
    && (forall x | pieceIndex <= x < scan.index :: Occupied(x) in scan.squares)
  }

  /** A piece letter keeps the row placed. */
  lemma PiecePlaced(scan: RowScan, piece: Piece, pieceIndex: nat, piecePosition: nat, slots: seq<nat>)
    requires RowPlaced(scan, pieceIndex, piecePosition, slots)
    ensures RowPlaced(RowScan(scan.pieces + [piece], [Occupied(scan.index)] + scan.squares,
                              scan.index + 1, scan.position + 1), pieceIndex, piecePosition,
                      slots + [scan.position])
  {
    var squares := [Occupied(scan.index)] + scan.squares;
    var after := slots + [scan.position];
    forall j | 0 <= j < |squares| && squares[j].Occupied?
      ensures && pieceIndex <= squares[j].piece < scan.index + 1
              && after[squares[j].piece - pieceIndex] == piecePosition + |squares| - 1 - j
    {
      if j > 0 {
        assert squares[j] == scan.squares[j - 1];
      }
    }
    forall x | pieceIndex <= x < scan.index + 1
      ensures Occupied(x) in squares
    {
      if x < scan.index {
        var j :| 0 <= j < |scan.squares| && scan.squares[j] == Occupied(x);
        assert squares[j + 1] == Occupied(x);
      } else {
        assert squares[0] == Occupied(x);
      }
    }
  }

  /** A digit keeps the row placed. */
  lemma EmptiesPlaced(scan: RowScan, n: nat, pieceIndex: nat, piecePosition: nat, slots: seq<nat>)
    requires RowPlaced(scan, pieceIndex, piecePosition, slots)
    ensures RowPlaced(scan.(squares := Empties(n) + scan.squares, position := scan.position + n),
                      pieceIndex, piecePosition, slots)
  {
    var squares := Empties(n) + scan.squares;
    forall j | 0 <= j < |squares| && squares[j].Occupied?
      ensures && pieceIndex <= squares[j].piece < scan.index
              && slots[squares[j].piece - pieceIndex] == piecePosition + |squares| - 1 - j
    {
      assert j >= n && squares[j] == scan.squares[j - n];
    }
    forall x | pieceIndex <= x < scan.index
      ensures Occupied(x) in squares
    {
      var j :| 0 <= j < |scan.squares| && scan.squares[j] == Occupied(x);
      assert squares[j + n] == Occupied(x);
    }
  }

  /** Each piece of a parsed row sits at its slot. */
  lemma {:induction false} ScanRowBits(row: string, pieceIndex: nat, piecePosition: nat)
    requires ScanRow(row, pieceIndex, piecePosition).Ok?
    ensures AtSlots(ScanRow(row, pieceIndex, piecePosition).value.pieces, RowSlots(row, piecePosition))
  {
    if row != [] {
      var prefix := row[..|row| - 1];
      ScanRowBits(prefix, pieceIndex, piecePosition);
      ScanRowShape(prefix, pieceIndex, piecePosition);
    }
  }

  /** Every parsed row is placed. */
  lemma {:induction false} ScanRowPlaced(row: string, pieceIndex: nat, piecePosition: nat)
    requires ScanRow(row, pieceIndex, piecePosition).Ok?
    ensures RowPlaced(ScanRow(row, pieceIndex, piecePosition).value, pieceIndex, piecePosition,
                      RowSlots(row, piecePosition))
  {
    if row != [] {
      var prefix := row[..|row| - 1];
      var ch := row[|row| - 1];
      ScanRowPlaced(prefix, pieceIndex, piecePosition);
      ScanRowShape(prefix, pieceIndex, piecePosition);
      var scan := ScanRow(prefix, pieceIndex, piecePosition).value;
      var slots := RowSlots(prefix, piecePosition);
      match PieceOfLetter(Lower(ch)) {
        case Some(t) =>
          var color := if IsUpper(ch) then White else Black;
          var piece := Piece(Bit(scan.position), color, t, true);
          assert ScanRow(row, pieceIndex, piecePosition).value ==
                 RowScan(scan.pieces + [piece], [Occupied(scan.index)] + scan.squares, scan.index + 1, scan.position + 1);
          assert RowSlots(row, piecePosition) == slots + [scan.position];
          PiecePlaced(scan, piece, pieceIndex, piecePosition, slots);
        case None =>
          var n := ToDigit(Lower(ch)).value;
          assert ScanRow(row, pieceIndex, piecePosition).value ==
                 scan.(squares := Empties(n) + scan.squares, position := scan.position + n);
          assert RowSlots(row, piecePosition) == slots;
          EmptiesPlaced(scan, n, pieceIndex, piecePosition, slots);
      }
    }
  }

  /** The bit of each piece of the first rows, in piece order. */
  ghost function BoardSlots(rows: seq<string>): seq<nat>
    requires |rows| <= 8
  {
    if rows == [] then []
    else BoardSlots(rows[..|rows| - 1]) + RowSlots(rows[|rows| - 1], 64 - 8 * |rows|)
  }

  /** The board built from the rows above bit `offset`: square `i` of the deque is bit
      `offset + i`, a piece it names sits at that bit, and every piece has a square. */
  ghost predicate Ranked(b: Board, offset: nat, slots: seq<nat>)
  {
    && |slots| == |b.pieces|
    && offset + |b.squares| == 64
    && (forall i | 0 <= i < |b.squares| && b.squares[i].Occupied? ::
          b.squares[i].piece < |b.pieces| && slots[b.squares[i].piece] == offset + i)
    && (forall x | 0 <= x < |b.pieces| :: Occupied(x) in b.squares)
  }

  /** A row of eight squares below a ranked board keeps it ranked. */
  lemma NextRowRanked(board: Board, slots: seq<nat>, scan: RowScan, position: nat, rowSlots: seq<nat>,
                      next: Board)
    requires Ranked(board, position + 8, slots)
    requires RowPlaced(scan, |board.pieces|, position, rowSlots) && |scan.squares| == 8
    requires next.pieces == board.pieces + scan.pieces && next.squares == PushSquares(board.squares, scan.squares)
    ensures Ranked(next, position, slots + rowSlots)
  {
    var squares := PushSquares(board.squares, scan.squares);
    var pieces := board.pieces + scan.pieces;
    var n := |board.pieces|;
    PushSquaresAt(board.squares, scan.squares);
    forall i | 0 <= i < |squares| && squares[i].Occupied?
      ensures squares[i].piece < |pieces| && (slots + rowSlots)[squares[i].piece] == position + i
    {
      if i < 8 {
        assert squares[i] == scan.squares[7 - i];
      } else {
        assert squares[i] == board.squares[i - 8];
      }
    }
    forall x | 0 <= x < |pieces|
      ensures Occupied(x) in squares
    {
      if x < n {
        var j :| 0 <= j < |board.squares| && board.squares[j] == Occupied(x);
        assert squares[j + 8] == Occupied(x);
      } else {
        var j :| 0 <= j < 8 && scan.squares[j] == Occupied(x);
        assert squares[7 - j] == Occupied(x);
      }
    }
  }

  /** The rows of a placement whose rows each describe eight squares build a ranked
      board. */
  lemma {:induction false} ScanRowsRanked(rows: seq<string>, board: Board)
    requires |rows| <= 8 && ScanRows(rows) == Ok(board)
    requires forall k | 0 <= k < |rows| :: RowWidth(rows[k]) == 8
    ensures Ranked(board, 64 - 8 * |rows|, BoardSlots(rows))
  {
    if rows != [] {
      var k := |rows| - 1;
      var position := 64 - 8 * |rows|;
      ScanRowsLast(rows);
      var before := ScanRows(rows[..k]).value;
      WidthsPrefix(rows, k);
      ScanRowsRanked(rows[..k], before);
      RankedLast(rows, before, board);
    }
  }

  /** The rows before `k` of rows of eight squares are rows of eight squares. */
  lemma WidthsPrefix(rows: seq<string>, k: nat)
    requires k <= |rows| && forall j | 0 <= j < |rows| :: RowWidth(rows[j]) == 8
    ensures forall j | 0 <= j < k :: RowWidth(rows[..k][j]) == 8
  {
  }

  /** The step of `ScanRowsRanked` for the last row. */
  lemma RankedLast(rows: seq<string>, before: Board, board: Board)
    requires 0 < |rows| <= 8 && ScanRows(rows) == Ok(board) && ScanRows(rows[..|rows| - 1]) == Ok(before)
    requires RowWidth(rows[|rows| - 1]) == 8
    requires Ranked(before, 64 - 8 * (|rows| - 1), BoardSlots(rows[..|rows| - 1]))
    ensures Ranked(board, 64 - 8 * |rows|, BoardSlots(rows))
  {
    var k := |rows| - 1;
    var position := 64 - 8 * |rows|;
    ScanRowsLast(rows);
    RankedStep(rows[k], before, BoardSlots(rows[..k]), position, board);
  }

  /** A row of eight squares parsed below a ranked board and added to it keeps it
      ranked. */
  lemma RankedStep(row: string, before: Board, slots: seq<nat>, position: nat, board: Board)
    requires Ranked(before, position + 8, slots) && RowWidth(row) == 8
    requires ScanRow(row, |before.pieces|, position).Ok?
    requires var scan := ScanRow(row, |before.pieces|, position).value;
      board.pieces == before.pieces + scan.pieces && board.squares == PushSquares(before.squares, scan.squares)
    ensures Ranked(board, position, slots + RowSlots(row, position))
  {
    var scan := ScanRow(row, |before.pieces|, position).value;
    ScanRowShape(row, |before.pieces|, position);
    ScanRowPlaced(row, |before.pieces|, position);
    NextRowRanked(before, slots, scan, position, RowSlots(row, position), board);
  }

  /** Every piece of the rows sits at its slot. */
  lemma {:induction false} ScanRowsBits(rows: seq<string>, board: Board)
    requires |rows| <= 8 && ScanRows(rows) == Ok(board)
    ensures AtSlots(board.pieces, BoardSlots(rows))
  {
    if rows != [] {
      var k := |rows| - 1;
      var position := 64 - 8 * |rows|;
      ScanRowsLast(rows);
      var before := ScanRows(rows[..k]).value;
      ScanRowsBits(rows[..k], before);
      var scan := ScanRow(rows[k], |before.pieces|, position).value;
      ScanRowBits(rows[k], |before.pieces|, position);
      AtSlotsAppend(before.pieces, BoardSlots(rows[..k]), scan.pieces, RowSlots(rows[k], position));
    }
  }

  /** Each piece sits at the bit its slot names. */
  ghost predicate AtSlots(pieces: seq<Piece>, slots: seq<nat>)
  {
    |slots| == |pieces| && forall x | 0 <= x < |pieces| :: slots[x] < 64 && pieces[x].position == Bit(slots[x])
  }

  /** Pieces at their slots, followed by more pieces at theirs. */
  lemma AtSlotsAppend(pieces: seq<Piece>, slots: seq<nat>, more: seq<Piece>, moreSlots: seq<nat>)
    requires AtSlots(pieces, slots) && AtSlots(more, moreSlots)
    ensures AtSlots(pieces + more, slots + moreSlots)
  {
    forall x | 0 <= x < |pieces| + |more|
      ensures (slots + moreSlots)[x] < 64 && (pieces + more)[x].position == Bit((slots + moreSlots)[x])
    {
      if x < |pieces| {
        assert (slots + moreSlots)[x] == slots[x] && (pieces + more)[x] == pieces[x];
      } else {
        assert (slots + moreSlots)[x] == moreSlots[x - |pieces|] && (pieces + more)[x] == more[x - |pieces|];
      }
    }
  }

  /** `read_FEN` on a placement of eight rows of eight squares gives a consistent
      position: each square names the live piece standing on it, each live piece's
      square names it, and each occupancy word is the OR of its colour's pieces. */
  lemma FenConsistent(fen: string)
    requires FenState(fen).Ok? && EightRanks(Split(fen, ' ').0)
    ensures Consistent(FenState(fen).value)
  {
    var rows := SplitRows(Split(fen, ' ').0, 8);
    FenBoard(fen);
    FenTallied(fen);
    ScanRowsRanked(rows, ScanRows(rows).value);
    ScanRowsBits(rows, ScanRows(rows).value);
    RankedPlaced(FenState(fen).value, ScanRows(rows).value, BoardSlots(rows));
  }

  /** A full ranked board of live pieces at their slots is placed. */
  lemma RankedPlaced(st: State, board: Board, slots: seq<nat>)
    requires st.pieces == board.pieces && st.squares == board.squares
    requires Ranked(board, 0, slots) && AtSlots(board.pieces, slots)
    requires forall p | 0 <= p < |st.pieces| :: st.pieces[p].alive
    ensures Placed(st)
  {
    forall p | 0 <= p < |st.pieces| && st.pieces[p].alive
      ensures BitScan(st.pieces[p].position) < 64 && st.squares[BitScan(st.pieces[p].position)] == Occupied(p)
    {
      var j :| 0 <= j < 64 && st.squares[j] == Occupied(p);
      BitScanOfBit(j);
    }
  }
}
