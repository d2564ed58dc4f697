/** The position: the pieces, the 64 squares that refer to them, the side to move,
    castling rights, the en passant square, the move clocks and one occupancy word
    per colour; the square-name conversions; and the four operations that change a
    position (a move, an en passant capture, a promotion and adding a piece).

    Each operation is a function on `State`, the value of a position, and a method
    of the `Position` class proved to change the object exactly as that function
    says.  Strings are ASCII, so a byte is a character. */
module Positions {
  import opened Wrappers
  import opened Panics
  import opened Bitboards
  import opened Utils

  // ---------------------------------------------------------------------------
  // Square names

  /** Why a square name or a bitboard has no square-name counterpart. */
  datatype NotationError = BadLength | BadColumn | BadRow | NoPiece

  /** `COL_MAP`: the file letters. */
  const ColMap: string := "abcdefgh"

  /** `to_digit(10)`: the value of a decimal digit character. */
  function ToDigit(c: char): (r: Option<nat>)
    ensures r.Some? <==> '0' <= c <= '9'
    ensures r.Some? ==> r.value < 10 && c == '0' + r.value as char
  {
    if '0' <= c <= '9' then Some(c as int - '0' as int) else None
  }

  /** The decimal numeral of `n`, as `format!("{}", n)` writes it. */
  function Decimal(n: nat): (s: string)
    ensures |s| >= 1
    ensures forall i | 0 <= i < |s| :: ToDigit(s[i]).Some?
    ensures n < 10 ==> s == ['0' + n as char]
  {
    if n < 10 then ['0' + n as char] else Decimal(n / 10) + ['0' + (n % 10) as char]
  }

  /** A name `position_to_bit` accepts: a file letter `a`-`h`, then a rank digit `1`-`8`. */
  predicate IsSquareName(s: string)
  {
    |s| == 2 && 'a' <= s[0] <= 'h' && '1' <= s[1] <= '8'
  }

  /** The square a valid name denotes. */
  function SquareOfName(s: string): (square: nat)
    requires IsSquareName(s)
    ensures square < 64
  {
    (s[1] as int - '1' as int) * 8 + (s[0] as int - 'a' as int)
  }

  /** `position_to_bit`: the one-bit word of a square name. */
  function PositionToBit(position: string): (r: Result<Bitboard, NotationError>)
    ensures r.Ok? <==> IsSquareName(position)
    ensures r.Ok? ==> r.value == Bit(SquareOfName(position))
  {
    if |position| != 2 then Err(BadLength)
    else if position[0] < 'a' || position[0] >= 'a' + 8 as char then Err(BadColumn)
    else match ToDigit(position[1])
      case None => Err(BadRow)
      case Some(number) =>
        if number < 1 || number > 8 then Err(BadRow)
        else Ok(Bit((number - 1) * 8 + (position[0] as int - 'a' as int)))
  }

  /** `position_to_index`: the square of a square name. */
  function PositionToIndex(position: string): (r: Result<nat, NotationError>)
    ensures r.Ok? <==> IsSquareName(position)
  {
    var bit :- PositionToBit(position);
    Ok(BitScan(bit))
  }

  /** `index_to_position`: the name of a square; past the board the rank keeps counting. */
  function IndexToPosition(index: nat): (name: string)
    ensures |name| >= 2 && name[0] == ColMap[index % 8]
  {
    [ColMap[index % 8]] + Decimal(index / 8 + 1)
  }

  /** `bit_to_position`: the name of the lowest square of a word (via the bit scan). */
  function BitToPosition(bit: Bitboard): (r: Result<string, NotationError>)
    ensures r.Err? <==> bit == 0
  {
    if bit == 0 then Err(NoPiece) else Ok(IndexToPosition(BitScan(bit)))
  }

  /** `square_to_index`: the unchecked conversion `add` uses.  The byte subtractions
      and the byte-wide `row * 8 + col` must not overflow, or the source panics. */
  function SquareToIndex(square: string): (index: nat)
    requires |square| == 2 && square[0] >= 'a' && square[1] >= '1'
    requires (square[1] as int - '1' as int) * 8 + (square[0] as int - 'a' as int) < 256
  {
    (square[1] as int - '1' as int) * 8 + (square[0] as int - 'a' as int)
  }

  /** On valid names the unchecked conversion agrees with `position_to_index`. */
  lemma SquareToIndexAgrees(square: string)
    requires IsSquareName(square)
    ensures PositionToIndex(square) == Ok(SquareToIndex(square))
  {
    BitScanOfBit(SquareOfName(square));
  }

  /** A square's name denotes that square. */
  lemma NameOfIndex(index: nat)
    requires index < 64
    ensures IsSquareName(IndexToPosition(index))
    ensures SquareOfName(IndexToPosition(index)) == index
  {
    var name := IndexToPosition(index);
    assert name == [ColMap[index % 8], '0' + (index / 8 + 1) as char];
  }

  /** Every valid name is the name of the square it denotes. */
  lemma IndexOfName(s: string)
    requires IsSquareName(s)
    ensures IndexToPosition(SquareOfName(s)) == s
  {
    var square := SquareOfName(s);
    assert square % 8 == s[0] as int - 'a' as int;
    assert square / 8 + 1 == s[1] as int - '0' as int;
  }

  /** Naming a square and reading the name back gives the square, as bit and as index. */
  lemma PositionRoundTrip(index: nat)
    requires index < 64
    ensures PositionToBit(IndexToPosition(index)).Ok?
    ensures PositionToBit(IndexToPosition(index)).value == Bit(index)
    ensures PositionToIndex(IndexToPosition(index)) == Ok(index)
  {
    NameOfIndex(index);
    BitScanOfBit(index);
  }

  /** The name of a one-bit word is the name of its square, and it reads back as that word. */
  lemma BitRoundTrip(index: nat)
    requires index < 64
    ensures BitToPosition(Bit(index)) == Ok(IndexToPosition(index))
    ensures PositionToBit(BitToPosition(Bit(index)).value).value == Bit(index)
  {
    SquaresBit(index);
    SquaresEmptyIsZero(Bit(index));
    BitScanOfBit(index);
    PositionRoundTrip(index);
  }

  /** `square_to_index("e3")` is 20, the square `add` fills in the rook test. */
  lemma SquareToIndexExample(square: string)
    requires square == "e3"
    ensures SquareToIndex(square) == 20
  {
  }

  // ---------------------------------------------------------------------------
  // Pieces and the value of a position

  datatype Color = White | Black

  /** `opposite`: the other colour. */
  function Opposite(c: Color): (r: Color)
    ensures r != c
  {
    match c
    case White => Black
    case Black => White
  }

  datatype PieceType = Pawn | Rook | Knight | Bishop | Queen | King

  /** A piece keeps its entry in the piece list for the whole game: a capture only
      clears `alive`.  `position` is the one-bit word of its square. */
  datatype Piece = Piece(position: Bitboard, color: Color, pieceType: PieceType, alive: bool)

  /** A square is empty or names a piece by its index in the piece list. */
  datatype Square = Empty | Occupied(piece: nat)

  /** The four castling flags (a bit set in the source). */
  datatype CastlingRights = CastlingRights(whiteKingside: bool, whiteQueenside: bool,
                                           blackKingside: bool, blackQueenside: bool)

  /** The value of a position: everything `clone` copies. */
  datatype State = State(
    pieces: seq<Piece>,
    squares: seq<Square>,
    activeColor: Color,
    castlingRights: CastlingRights,
    enPassant: Option<Bitboard>,
    halfmoveClock: nat,
    fullmoveNumber: nat,
    whiteOccupancy: Bitboard,
    blackOccupancy: Bitboard)

  /** The occupancy word the source keeps for a colour. */
  function Occupancy(st: State, c: Color): Bitboard
  {
    match c
    case White => st.whiteOccupancy
    case Black => st.blackOccupancy
  }

  /** The shape every operation keeps: 64 squares, each naming a piece that exists. */
  ghost predicate WellFormed(st: State)
  {
    |st.squares| == 64 &&
    forall i | 0 <= i < 64 && st.squares[i].Occupied? :: st.squares[i].piece < |st.pieces|
  }

  /** The board and the piece list agree: a square names exactly the live piece whose
      position is that square. */
  ghost predicate Placed(st: State)
  {
    WellFormed(st) &&
    (forall i | 0 <= i < 64 && st.squares[i].Occupied? ::
       st.pieces[st.squares[i].piece].alive && st.pieces[st.squares[i].piece].position == Bit(i)) &&
    (forall p | 0 <= p < |st.pieces| && st.pieces[p].alive ::
       BitScan(st.pieces[p].position) < 64 && st.squares[BitScan(st.pieces[p].position)] == Occupied(p))
  }

  /** The OR of the positions of a colour's live pieces. */
  function OccupancyOf(pieces: seq<Piece>, c: Color): Bitboard
  {
    if pieces == [] then 0
    else
      var last := pieces[|pieces| - 1];
      var rest := OccupancyOf(pieces[..|pieces| - 1], c);
      if last.alive && last.color == c then Union(rest, last.position) else rest
  }

  /** A position as `read_FEN` and `add` leave it: placed, with each occupancy word
      the OR of its colour's pieces. */
  ghost predicate Consistent(st: State)
  {
    Placed(st) &&
    st.whiteOccupancy == OccupancyOf(st.pieces, White) &&
    st.blackOccupancy == OccupancyOf(st.pieces, Black)
  }

  /** The number of live pieces in a list. */
  function CountAlive(pieces: seq<Piece>): (n: nat)
    ensures n <= |pieces|
  {
    if pieces == [] then 0
    else CountAlive(pieces[..|pieces| - 1]) + (if pieces[|pieces| - 1].alive then 1 else 0)
  }

  /** `count_pieces`: the number of live pieces. */
  function CountPieces(st: State): nat
  {
    CountAlive(st.pieces)
  }

  /** `has_pawn`: whether the square at a 1-based row and column holds a pawn
      (of either colour, live or not); off the board there is none. */
  function HasPawn(st: State, row: int, col: int): (r: bool)
    requires WellFormed(st)
    ensures r ==> Index(row, col).Some?
  {
    match Index(row, col)
    case None => false
    case Some(i) => st.squares[i].Occupied? && st.pieces[st.squares[i].piece].pieceType == Pawn
  }

  // ---------------------------------------------------------------------------
  // The operations on the value of a position

  /** The piece found on `to` once `from` has been emptied. */
  function Occupant(st: State, from: nat, to: nat): Option<nat>
    requires WellFormed(st) && from < 64 && to < 64
  {
    if to != from && st.squares[to].Occupied? then Some(st.squares[to].piece) else None
  }

  /** `move_piece`: the piece on the square of `piecePosition` goes to square
      `newPosition`, capturing what stands there; then the en passant square is set. */
  function Moved(st: State, piecePosition: Bitboard, newPosition: nat): (r: Result<State, Panic>)
    requires WellFormed(st)
    ensures r.Ok? ==> WellFormed(r.value)
  {
    var from := BitScan(piecePosition);
    if from >= 64 then Err(IndexOutOfRange)
    else match st.squares[from]
    case Empty => Err(EmptySquare)
    case Occupied(p) =>
      if newPosition >= 64 then Err(ShiftOverflow)
      else
        var relocated :- Relocated(st, from, newPosition, p);
        Ok(AfterPawnMove(relocated, from, newPosition, p))
  }

  /** The board and piece-list part of `move_piece`: piece `p` leaves `from` for `to`
      and a piece found on `to` is captured, unless it has the mover's colour. */
  function Relocated(st: State, from: nat, to: nat, p: nat): (r: Result<State, Panic>)
    requires WellFormed(st) && from < 64 && to < 64 && st.squares[from] == Occupied(p)
    ensures r.Ok? ==> WellFormed(r.value)
  {
    var mover := st.pieces[p].(position := Bit(to));
    var pieces := st.pieces[p := mover];
    var squares := st.squares[from := Empty];
    match squares[to]
    case Empty =>
      Ok(st.(pieces := pieces, squares := squares[to := Occupied(p)]))
    case Occupied(other) =>
      if pieces[other].color == mover.color then Err(SameColorCapture)
      else Ok(st.(pieces := pieces[other := pieces[other].(alive := false)], squares := squares[to := Occupied(p)]))
  }

  /** The last step of `move_piece`: a pawn's double step opens en passant when a pawn
      stands beside its destination, any other double step closes it, other pawn moves
      leave it, and every other piece's move closes it. */
  function AfterPawnMove(st: State, from: nat, to: nat, mover: nat): (r: State)
    requires WellFormed(st) && from < 64 && to < 64 && mover < |st.pieces|
  {
    if st.pieces[mover].pieceType != Pawn then st.(enPassant := None)
    else
      var oldRow := RowCol(from).0;
      var col := RowCol(from).1;
      var newRow := RowCol(to).0;
      if Abs(oldRow - newRow) != 2 then st
      else
        var direction := Sign(newRow - oldRow);
        if HasPawn(st, oldRow + 2 * direction, col + 1) || HasPawn(st, oldRow + 2 * direction, col - 1)
        then st.(enPassant := Some(Bit(Index(oldRow + direction, col).value)))
        else st.(enPassant := None)
  }

  /** `take_en_passant`: the piece on the square of `piecePosition` takes the word
      `newPosition` as its position and the piece behind that square is captured.  As
      in the source, the destination square is not marked as occupied. */
  function EnPassantTaken(st: State, piecePosition: Bitboard, newPosition: Bitboard): (r: Result<State, Panic>)
    requires WellFormed(st)
    ensures r.Ok? ==> WellFormed(r.value)
  {
    var from := BitScan(piecePosition);
    if from >= 64 then Err(IndexOutOfRange)
    else match st.squares[from]
    case Empty => Err(EmptySquare)
    case Occupied(p) => CaptureBehind(st, from, p, newPosition)
  }

  /** `take_en_passant` once the capturing piece `p` has been found on `from`. */
  function CaptureBehind(st: State, from: nat, p: nat, newPosition: Bitboard): (r: Result<State, Panic>)
    requires WellFormed(st) && from < 64 && st.squares[from] == Occupied(p)
    ensures r.Ok? ==> WellFormed(r.value)
  {
    var pieces := st.pieces[p := st.pieces[p].(position := newPosition)];
    var squares := st.squares[from := Empty];
    var to := BitScan(newPosition);
    if to >= 64 then Err(IndexOutOfRange)
    else if squares[to].Occupied? then Err(SquareOccupied)
    else
      var oldRow := RowCol(from).0;
      var newRow := RowCol(to).0;
      var newCol := RowCol(to).1;
      var taken := Index(newRow - Sign(newRow - oldRow), newCol).value;
      match squares[taken]
      case Empty => Err(EmptySquare)
      case Occupied(q) =>
        Ok(st.(pieces := pieces[q := pieces[q].(alive := false)],
               squares := squares[taken := Empty],
               enPassant := None))
  }

  /** The piece types a pawn may become. */
  predicate Promotable(t: PieceType)
  {
    t == Queen || t == Bishop || t == Knight || t == Rook
  }

  /** `perform_promotion`: the pawn on the square of `piecePosition` is retired and a
      new live piece of its colour and of type `promotionType` is appended on square
      `newIndex`. */
  function Promoted(st: State, piecePosition: Bitboard, newIndex: nat, promotionType: PieceType)
    : (r: Result<State, Panic>)
    requires WellFormed(st)
    ensures r.Ok? ==> WellFormed(r.value)
  {
    var from := BitScan(piecePosition);
    if from >= 64 then Err(IndexOutOfRange)
    else match st.squares[from]
    case Empty => Err(EmptySquare)
    case Occupied(p) =>
      if newIndex >= 64 then Err(ShiftOverflow)
      else
        var current := st.pieces[p];
        var pieces := st.pieces[p := current.(alive := false)];
        var squares := st.squares[from := Empty];
        if squares[newIndex].Occupied? then Err(SquareOccupied)
        else if !Promotable(promotionType) then Err(NotPromotable)
        else
          Ok(st.(pieces := pieces + [Piece(Bit(newIndex), current.color, promotionType, true)],
                 squares := squares[newIndex := Occupied(|pieces|)]))
  }

  /** `add`: a new live piece on the empty square `index`, entered in the occupancy
      word of its colour. */
  function Added(st: State, color: Color, pieceType: PieceType, index: nat): (r: State)
    requires WellFormed(st) && index < 64 && st.squares[index] == Empty
    ensures WellFormed(r)
  {
    var pieces := st.pieces + [Piece(Bit(index), color, pieceType, true)];
    var squares := st.squares[index := Occupied(|st.pieces|)];
    match color
    case White => st.(pieces := pieces, squares := squares, whiteOccupancy := Union(st.whiteOccupancy, Bit(index)))
    case Black => st.(pieces := pieces, squares := squares, blackOccupancy := Union(st.blackOccupancy, Bit(index)))
  }

  // ---------------------------------------------------------------------------
  // What the operations do

  /** The fields no operation touches: side to move, castling, clocks and occupancy words. */
  predicate SameSettings(a: State, b: State)
  {
    a.activeColor == b.activeColor && a.castlingRights == b.castlingRights &&
    a.halfmoveClock == b.halfmoveClock && a.fullmoveNumber == b.fullmoveNumber &&
    a.whiteOccupancy == b.whiteOccupancy && a.blackOccupancy == b.blackOccupancy
  }

  /** Distinct squares have distinct words. */
  lemma BitInjective(i: nat, j: nat)
    requires i < 64 && j < 64 && Bit(i) == Bit(j)
    ensures i == j
  {
    BitScanOfBit(i);
    BitScanOfBit(j);
  }

  /** The en passant square `move_piece` leaves: a pawn's double step opens it when a
      pawn stands beside the destination and closes it otherwise, another pawn move
      keeps it, and any other piece's move closes it. */
  method NextEnPassant(st: State, from: nat, to: nat, mover: nat) returns (next: Option<Bitboard>)
    requires WellFormed(st) && from < 64 && to < 64 && mover < |st.pieces|
    ensures AfterPawnMove(st, from, to, mover) == st.(enPassant := next)
  {
    next := st.enPassant;
    if st.pieces[mover].pieceType == Pawn {
      var oldRow := RowCol(from).0;
      var col := RowCol(from).1;
      var newRow := RowCol(to).0;
      if Abs(oldRow - newRow) == 2 {
        var direction := Sign(newRow - oldRow);
        var pawnLeft := HasPawn(st, oldRow + 2 * direction, col + 1);
        var pawnRight := HasPawn(st, oldRow + 2 * direction, col - 1);
        if pawnLeft || pawnRight {
          next := Some(Bit(Index(oldRow + direction, col).value));
        } else {
          next := None;
        }
      }
    } else {
      next := None;
    }
  }

  /** The en passant step changes nothing but the en passant square. */
  lemma AfterPawnMoveKeeps(st: State, from: nat, to: nat, mover: nat)
    requires WellFormed(st) && from < 64 && to < 64 && mover < |st.pieces|
    ensures AfterPawnMove(st, from, to, mover) == st.(enPassant := AfterPawnMove(st, from, to, mover).enPassant)
  {
  }

  /** A move fails exactly when there is no square or no piece to move, the destination
      is off the board, or the destination holds a piece of the mover's colour. */
  lemma MovedFails(st: State, piecePosition: Bitboard, newPosition: nat)
    requires WellFormed(st)
    ensures var from := BitScan(piecePosition);
      Moved(st, piecePosition, newPosition).Err? <==>
        from >= 64 || st.squares[from].Empty? || newPosition >= 64 ||
        (Occupant(st, from, newPosition).Some? &&
         st.pieces[Occupant(st, from, newPosition).value].color == st.pieces[st.squares[from].piece].color)
  {
  }

  /** A move that succeeds is the relocation followed by the en passant step. */
  lemma MovedSteps(st: State, piecePosition: Bitboard, newPosition: nat)
    requires WellFormed(st) && Moved(st, piecePosition, newPosition).Ok?
    ensures BitScan(piecePosition) < 64 && newPosition < 64 && st.squares[BitScan(piecePosition)].Occupied?
    ensures var from := BitScan(piecePosition);
      var p := st.squares[from].piece;
      && Relocated(st, from, newPosition, p).Ok?
      && Moved(st, piecePosition, newPosition).value
         == AfterPawnMove(Relocated(st, from, newPosition, p).value, from, newPosition, p)
  {
  }

  /** The relocation empties `from`, puts `p` on `to` and retires the piece it finds
      there, which has the other colour; nothing else changes. */
  lemma RelocatedEffect(st: State, from: nat, to: nat, p: nat)
    requires WellFormed(st) && from < 64 && to < 64 && st.squares[from] == Occupied(p)
    requires Relocated(st, from, to, p).Ok?
    ensures var after := Relocated(st, from, to, p).value;
      var moved := st.pieces[p := st.pieces[p].(position := Bit(to))];
      && after.squares == st.squares[from := Empty][to := Occupied(p)]
      && after.pieces == (match Occupant(st, from, to)
                          case None => moved
                          case Some(other) => moved[other := moved[other].(alive := false)])
      && (Occupant(st, from, to).Some? ==> Occupant(st, from, to).value != p)
      && (Occupant(st, from, to).Some? ==> st.pieces[Occupant(st, from, to).value].color != st.pieces[p].color)
      && after == st.(pieces := after.pieces, squares := after.squares)
  {
    var mover := st.pieces[p].(position := Bit(to));
    var pieces := st.pieces[p := mover];
    var squares := st.squares[from := Empty];
    if squares[to].Occupied? {
      var other := squares[to].piece;
      assert pieces[other].color != mover.color;
      assert other != p;
    }
  }

  /** A move that succeeds takes the piece off its square and onto the new one, where
      the piece it finds, always of the other colour, is captured; no other square,
      piece or setting changes. */
  lemma MovedEffect(st: State, piecePosition: Bitboard, newPosition: nat)
    requires WellFormed(st) && Moved(st, piecePosition, newPosition).Ok?
    ensures BitScan(piecePosition) < 64 && newPosition < 64 && st.squares[BitScan(piecePosition)].Occupied?
    ensures var from := BitScan(piecePosition);
      var p := st.squares[from].piece;
      var after := Moved(st, piecePosition, newPosition).value;
      && after.squares == st.squares[from := Empty][newPosition := Occupied(p)]
      && |after.pieces| == |st.pieces|
      && after.pieces[p] == st.pieces[p].(position := Bit(newPosition))
      && (forall q | 0 <= q < |st.pieces| && q != p ::
            after.pieces[q] == (if Occupant(st, from, newPosition) == Some(q)
                                then st.pieces[q].(alive := false) else st.pieces[q]))
      && (Occupant(st, from, newPosition).Some? ==>
            st.pieces[Occupant(st, from, newPosition).value].color != st.pieces[p].color)
      && SameSettings(st, after)
  {
    MovedSteps(st, piecePosition, newPosition);
    var from := BitScan(piecePosition);
    var p := st.squares[from].piece;
    RelocatedEffect(st, from, newPosition, p);
    AfterPawnMoveKeeps(Relocated(st, from, newPosition, p).value, from, newPosition, p);
  }

  /** Two states with the same board agree on `has_pawn`. */
  lemma HasPawnSameBoard(a: State, b: State, row: int, col: int)
    requires WellFormed(a) && a.pieces == b.pieces && a.squares == b.squares
    ensures WellFormed(b) && HasPawn(a, row, col) == HasPawn(b, row, col)
  {
  }

  /** The square a double step passes over is the one next to its origin. */
  lemma PassedSquare(from: nat, to: nat)
    requires from < 64 && to < 64 && Abs(RowCol(from).0 - RowCol(to).0) == 2
    ensures Index(RowCol(from).0 + Sign(RowCol(to).0 - RowCol(from).0), RowCol(from).1)
         == Some(if to > from then from + 8 else from - 8)
  {
  }

  /** The en passant rule of `move_piece`, for a move of a piece (a pawn or not)
      from `from` to `to` that ends in `after`, where `previous` was the en passant
      square before: a pawn's double step opens en passant on the square it passed
      over exactly when a pawn stands beside its destination; any other pawn move
      keeps the en passant square and any other piece's move clears it. */
  ghost predicate EnPassantRule(pawn: bool, previous: Option<Bitboard>, after: State, from: nat, to: nat)
    requires WellFormed(after) && from < 64 && to < 64
  {
    var doubleStep := Abs(Row(to) - Row(from)) == 2;
    var newRow := RowCol(to).0;
    var col := RowCol(from).1;
    var beside := HasPawn(after, newRow, col - 1) || HasPawn(after, newRow, col + 1);
    && (!pawn ==> after.enPassant == None)
    && (pawn && !doubleStep ==> after.enPassant == previous)
    && (pawn && doubleStep && beside ==>
          after.enPassant.Some? && after.enPassant.value == Bit(if to > from then from + 8 else from - 8))
    && (pawn && doubleStep && !beside ==> after.enPassant == None)
  }

  /** The en passant step follows the rule. */
  lemma AfterPawnMoveRule(st: State, from: nat, to: nat, mover: nat)
    requires WellFormed(st) && from < 64 && to < 64 && mover < |st.pieces|
    ensures WellFormed(AfterPawnMove(st, from, to, mover))
    ensures EnPassantRule(st.pieces[mover].pieceType == Pawn, st.enPassant, AfterPawnMove(st, from, to, mover), from, to)
  {
    var after := AfterPawnMove(st, from, to, mover);
    var newRow := RowCol(to).0;
    var col := RowCol(from).1;
    HasPawnSameBoard(st, after, newRow, col - 1);
    HasPawnSameBoard(st, after, newRow, col + 1);
    if Abs(Row(to) - Row(from)) == 2 {
      PassedSquare(from, to);
    }
  }

  /** The relocation keeps the mover's type and the en passant square. */
  lemma RelocatedKeeps(st: State, from: nat, to: nat, p: nat)
    requires WellFormed(st) && from < 64 && to < 64 && st.squares[from] == Occupied(p)
    requires Relocated(st, from, to, p).Ok?
    ensures Relocated(st, from, to, p).value.pieces[p].pieceType == st.pieces[p].pieceType
    ensures Relocated(st, from, to, p).value.enPassant == st.enPassant
  {
    var mover := st.pieces[p].(position := Bit(to));
    var pieces := st.pieces[p := mover];
    var squares := st.squares[from := Empty];
    if squares[to].Occupied? {
      var other := squares[to].piece;
      assert pieces[other].color != mover.color;
      assert other != p;
    }
  }

  /** A pawn's double step opens en passant on the square it passed over exactly when
      a pawn stands beside its destination; any other pawn move keeps the en passant
      square and any other piece's move clears it. */
  lemma MovedEnPassant(st: State, piecePosition: Bitboard, newPosition: nat)
    requires WellFormed(st) && Moved(st, piecePosition, newPosition).Ok?
    ensures BitScan(piecePosition) < 64 && newPosition < 64 && st.squares[BitScan(piecePosition)].Occupied?
    ensures EnPassantRule(st.pieces[st.squares[BitScan(piecePosition)].piece].pieceType == Pawn, st.enPassant,
                          Moved(st, piecePosition, newPosition).value, BitScan(piecePosition), newPosition)
  {
    MovedSteps(st, piecePosition, newPosition);
    var from := BitScan(piecePosition);
    var p := st.squares[from].piece;
    RelocatedKeeps(st, from, newPosition, p);
    AfterPawnMoveRule(Relocated(st, from, newPosition, p).value, from, newPosition, p);
  }

  /** A move keeps the board and the piece list in agreement. */
  lemma MovedPlaced(st: State, piecePosition: Bitboard, newPosition: nat)
    requires Placed(st) && Moved(st, piecePosition, newPosition).Ok?
    ensures Placed(Moved(st, piecePosition, newPosition).value)
  {
    MovedEffect(st, piecePosition, newPosition);
    var from := BitScan(piecePosition);
    var p := st.squares[from].piece;
    var after := Moved(st, piecePosition, newPosition).value;
    var captured := Occupant(st, from, newPosition);
    BitScanOfBit(newPosition);
    forall i | 0 <= i < 64 && after.squares[i].Occupied?
      ensures after.pieces[after.squares[i].piece].alive
      ensures after.pieces[after.squares[i].piece].position == Bit(i)
    {
      if i != newPosition {
        var x := st.squares[i].piece;
        if x == p {
          BitInjective(i, from);
        }
        if captured == Some(x) {
          BitInjective(i, newPosition);
        }
      }
    }
    forall q | 0 <= q < |after.pieces| && after.pieces[q].alive
      ensures BitScan(after.pieces[q].position) < 64
      ensures after.squares[BitScan(after.pieces[q].position)] == Occupied(q)
    {
    }
  }

  /** Updating one entry changes the live count by the change in that entry's flag. */
  lemma {:induction false} CountAliveUpdate(pieces: seq<Piece>, q: nat, x: Piece)
    requires q < |pieces|
    ensures CountAlive(pieces[q := x]) + (if pieces[q].alive then 1 else 0)
         == CountAlive(pieces) + (if x.alive then 1 else 0)
  {
    var n := |pieces| - 1;
    if q < n {
      CountAliveUpdate(pieces[..n], q, x);
      assert pieces[q := x][..n] == pieces[..n][q := x];
    } else {
      assert pieces[q := x][..n] == pieces[..n];
    }
  }

  /** A move removes one live piece when it captures and none otherwise. */
  lemma MovedCount(st: State, piecePosition: Bitboard, newPosition: nat)
    requires Placed(st) && Moved(st, piecePosition, newPosition).Ok?
    ensures BitScan(piecePosition) < 64 && newPosition < 64
    ensures CountPieces(Moved(st, piecePosition, newPosition).value)
         == CountPieces(st) - (if Occupant(st, BitScan(piecePosition), newPosition).Some? then 1 else 0)
  {
    MovedSteps(st, piecePosition, newPosition);
    var from := BitScan(piecePosition);
    var p := st.squares[from].piece;
    var mid := Relocated(st, from, newPosition, p).value;
    RelocatedEffect(st, from, newPosition, p);
    AfterPawnMoveKeeps(mid, from, newPosition, p);
    var mover := st.pieces[p].(position := Bit(newPosition));
    var moved := st.pieces[p := mover];
    CountAliveUpdate(st.pieces, p, mover);
    match Occupant(st, from, newPosition)
    case None =>
    case Some(other) =>
      CountAliveUpdate(moved, other, moved[other].(alive := false));
  }

  /** `has_pawn` on a placed board: a live pawn's position is that square. */
  lemma HasPawnPlaced(st: State, row: int, col: int)
    requires Placed(st) && Index(row, col).Some?
    ensures HasPawn(st, row, col) <==>
      exists p | 0 <= p < |st.pieces| ::
        st.pieces[p].alive && st.pieces[p].pieceType == Pawn && st.pieces[p].position == Bit(Index(row, col).value)
  {
    var i := Index(row, col).value;
    if p :| 0 <= p < |st.pieces| && st.pieces[p].alive && st.pieces[p].pieceType == Pawn && st.pieces[p].position == Bit(i) {
      BitScanOfBit(i);
    }
  }

  /** The square `take_en_passant` captures on: one rank back from the destination,
      towards the origin, on the destination's file. */
  function Behind(from: nat, to: nat): (taken: nat)
    requires from < 64 && to < 64
    ensures taken < 64 && Col(taken) == Col(to)
  {
    if Row(to) > Row(from) then to - 8 else if Row(to) < Row(from) then to + 8 else to
  }

  lemma BehindIndex(from: nat, to: nat)
    requires from < 64 && to < 64
    ensures Index(RowCol(to).0 - Sign(RowCol(to).0 - RowCol(from).0), RowCol(to).1) == Some(Behind(from, to))
  {
  }

  /** An en passant capture that succeeds moves the capturing piece's word to
      `newPosition`, empties its square and the square behind the destination, whose
      piece is captured, and clears en passant.  The destination square itself stays
      empty, and origin and destination lie on different ranks. */
  lemma EnPassantTakenEffect(st: State, piecePosition: Bitboard, newPosition: Bitboard)
    requires WellFormed(st) && EnPassantTaken(st, piecePosition, newPosition).Ok?
    ensures var from := BitScan(piecePosition);
      var to := BitScan(newPosition);
      && from < 64 && to < 64 && st.squares[from].Occupied? && Row(from) != Row(to)
      && st.squares[from := Empty][to].Empty?
      && st.squares[from := Empty][Behind(from, to)].Occupied?
    ensures var from := BitScan(piecePosition);
      var to := BitScan(newPosition);
      var p := st.squares[from].piece;
      var q := st.squares[from := Empty][Behind(from, to)].piece;
      var moved := st.pieces[p := st.pieces[p].(position := newPosition)];
      var after := EnPassantTaken(st, piecePosition, newPosition).value;
      && after.squares == st.squares[from := Empty][Behind(from, to) := Empty]
      && after.squares[to] == Empty
      && after.pieces == moved[q := moved[q].(alive := false)]
      && after.enPassant == None
      && SameSettings(st, after)
  {
    EnPassantTakenChecks(st, piecePosition, newPosition);
    var from := BitScan(piecePosition);
    var p := st.squares[from].piece;
    assert EnPassantTaken(st, piecePosition, newPosition) == CaptureBehind(st, from, p, newPosition);
    CaptureBehindValue(st, from, p, newPosition, BitScan(newPosition));
  }

  /** The outcomes of an en passant capture from `from`, one for each check it makes. */
  lemma CaptureBehindOutcome(st: State, from: nat, p: nat, newPosition: Bitboard)
    requires WellFormed(st) && from < 64 && st.squares[from] == Occupied(p)
    ensures var r := CaptureBehind(st, from, p, newPosition);
      var to := BitScan(newPosition);
      var squares := st.squares[from := Empty];
      && (to >= 64 ==> r == Err(IndexOutOfRange))
      && (to < 64 && squares[to].Occupied? ==> r == Err(SquareOccupied))
      && (to < 64 && squares[to].Empty? && squares[Behind(from, to)].Empty? ==> r == Err(EmptySquare))
      && (to < 64 && squares[to].Empty? && squares[Behind(from, to)].Occupied? ==>
            var q := squares[Behind(from, to)].piece;
            var moved := st.pieces[p := st.pieces[p].(position := newPosition)];
            r == Ok(st.(pieces := moved[q := moved[q].(alive := false)],
                        squares := squares[Behind(from, to) := Empty], enPassant := None)))
  {
    var to := BitScan(newPosition);
    if to < 64 {
      BehindIndex(from, to);
    }
  }

  /** The state an en passant capture from `from` to `to` leaves when it succeeds. */
  lemma CaptureBehindValue(st: State, from: nat, p: nat, newPosition: Bitboard, to: nat)
    requires WellFormed(st) && from < 64 && st.squares[from] == Occupied(p)
    requires CaptureBehind(st, from, p, newPosition).Ok? && to == BitScan(newPosition)
    ensures to < 64 && st.squares[from := Empty][Behind(from, to)].Occupied?
    ensures var q := st.squares[from := Empty][Behind(from, to)].piece;
      var moved := st.pieces[p := st.pieces[p].(position := newPosition)];
      CaptureBehind(st, from, p, newPosition).value ==
        st.(pieces := moved[q := moved[q].(alive := false)],
            squares := st.squares[from := Empty][Behind(from, to) := Empty], enPassant := None)
  {
    BehindIndex(from, to);
  }

  /** The checks an en passant capture that succeeds has passed. */
  lemma EnPassantTakenChecks(st: State, piecePosition: Bitboard, newPosition: Bitboard)
    requires WellFormed(st) && EnPassantTaken(st, piecePosition, newPosition).Ok?
    ensures var from := BitScan(piecePosition);
      var to := BitScan(newPosition);
      && from < 64 && to < 64 && st.squares[from].Occupied? && Row(from) != Row(to)
      && st.squares[from := Empty][to].Empty?
      && st.squares[from := Empty][Behind(from, to)].Occupied?
  {
    var from := BitScan(piecePosition);
    var to := BitScan(newPosition);
    BehindIndex(from, to);
  }

  /** An en passant capture fails exactly when there is no square or no piece to move,
      the destination word has no square or an occupied one, or no piece stands behind it. */
  lemma EnPassantTakenFails(st: State, piecePosition: Bitboard, newPosition: Bitboard)
    requires WellFormed(st)
    ensures var from := BitScan(piecePosition);
      var to := BitScan(newPosition);
      EnPassantTaken(st, piecePosition, newPosition).Err? <==>
        from >= 64 || st.squares[from].Empty? || to >= 64 ||
        st.squares[from := Empty][to].Occupied? || st.squares[from := Empty][Behind(from, to)].Empty?
  {
    var from := BitScan(piecePosition);
    var to := BitScan(newPosition);
    if from < 64 && to < 64 {
      BehindIndex(from, to);
    }
  }

  /** On a placed board an en passant capture removes exactly one live piece. */
  lemma EnPassantTakenCount(st: State, piecePosition: Bitboard, newPosition: Bitboard)
    requires Placed(st) && EnPassantTaken(st, piecePosition, newPosition).Ok?
    ensures CountPieces(EnPassantTaken(st, piecePosition, newPosition).value) == CountPieces(st) - 1
  {
    EnPassantTakenEffect(st, piecePosition, newPosition);
    var from := BitScan(piecePosition);
    var to := BitScan(newPosition);
    var taken := Behind(from, to);
    var p := st.squares[from].piece;
    var q := st.squares[taken].piece;
    if q == p {
      BitInjective(taken, from);
    }
    var moved := st.pieces[p := st.pieces[p].(position := newPosition)];
    CountAliveUpdate(st.pieces, p, st.pieces[p].(position := newPosition));
    CountAliveUpdate(moved, q, moved[q].(alive := false));
  }

  /** The capturing piece is left off the board: after an en passant capture on a
      placed board, its word names the destination but the destination square is empty,
      so board and piece list no longer agree. */
  lemma EnPassantTakenUnplaced(st: State, piecePosition: Bitboard, newPosition: Bitboard)
    requires Placed(st) && EnPassantTaken(st, piecePosition, newPosition).Ok?
    ensures !Placed(EnPassantTaken(st, piecePosition, newPosition).value)
  {
    EnPassantTakenEffect(st, piecePosition, newPosition);
    var from := BitScan(piecePosition);
    var to := BitScan(newPosition);
    var taken := Behind(from, to);
    var p := st.squares[from].piece;
    var q := st.squares[taken].piece;
    if q == p {
      BitInjective(taken, from);
    }
    var after := EnPassantTaken(st, piecePosition, newPosition).value;
    assert after.pieces[p].alive && after.pieces[p].position == newPosition;
  }

  /** A promotion that succeeds retires the pawn, empties its square and appends the new
      piece, of the pawn's colour, on the empty destination; en passant and the other
      settings stay. */
  lemma PromotedEffect(st: State, piecePosition: Bitboard, newIndex: nat, promotionType: PieceType)
    requires WellFormed(st) && Promoted(st, piecePosition, newIndex, promotionType).Ok?
    ensures var from := BitScan(piecePosition);
      && from < 64 && newIndex < 64 && st.squares[from].Occupied?
      && st.squares[from := Empty][newIndex].Empty? && Promotable(promotionType)
    ensures var from := BitScan(piecePosition);
      var p := st.squares[from].piece;
      var after := Promoted(st, piecePosition, newIndex, promotionType).value;
      && after.pieces == st.pieces[p := st.pieces[p].(alive := false)]
                         + [Piece(Bit(newIndex), st.pieces[p].color, promotionType, true)]
      && after.squares == st.squares[from := Empty][newIndex := Occupied(|st.pieces|)]
      && after.enPassant == st.enPassant
      && SameSettings(st, after)
  {
  }

  /** A promotion fails exactly when there is no square or no piece to move, the
      destination is off the board or occupied, or the new type is a pawn or a king. */
  lemma PromotedFails(st: State, piecePosition: Bitboard, newIndex: nat, promotionType: PieceType)
    requires WellFormed(st)
    ensures var from := BitScan(piecePosition);
      Promoted(st, piecePosition, newIndex, promotionType).Err? <==>
        from >= 64 || st.squares[from].Empty? || newIndex >= 64 ||
        st.squares[from := Empty][newIndex].Occupied? || !Promotable(promotionType)
  {
  }

  /** A promotion keeps the board and the piece list in agreement. */
  lemma PromotedPlaced(st: State, piecePosition: Bitboard, newIndex: nat, promotionType: PieceType)
    requires Placed(st) && Promoted(st, piecePosition, newIndex, promotionType).Ok?
    ensures Placed(Promoted(st, piecePosition, newIndex, promotionType).value)
  {
    PromotedEffect(st, piecePosition, newIndex, promotionType);
    var from := BitScan(piecePosition);
    var p := st.squares[from].piece;
    var n := |st.pieces|;
    var after := Promoted(st, piecePosition, newIndex, promotionType).value;
    BitScanOfBit(newIndex);
    forall i | 0 <= i < 64 && after.squares[i].Occupied?
      ensures after.pieces[after.squares[i].piece].alive
      ensures after.pieces[after.squares[i].piece].position == Bit(i)
    {
      if i != newIndex {
        var x := st.squares[i].piece;
        if x == p {
          BitInjective(i, from);
        }
      }
    }
    forall q | 0 <= q < |after.pieces| && after.pieces[q].alive
      ensures BitScan(after.pieces[q].position) < 64
      ensures after.squares[BitScan(after.pieces[q].position)] == Occupied(q)
    {
      if q < n {
        var j := BitScan(st.pieces[q].position);
        assert st.squares[j] == Occupied(q);
      }
    }
  }

  /** The live count of a list with one more entry. */
  lemma CountAliveAppend(pieces: seq<Piece>, x: Piece)
    ensures CountAlive(pieces + [x]) == CountAlive(pieces) + (if x.alive then 1 else 0)
  {
    assert (pieces + [x])[..|pieces|] == pieces;
  }

  /** On a placed board a promotion keeps the number of live pieces. */
  lemma PromotedCount(st: State, piecePosition: Bitboard, newIndex: nat, promotionType: PieceType)
    requires Placed(st) && Promoted(st, piecePosition, newIndex, promotionType).Ok?
    ensures CountPieces(Promoted(st, piecePosition, newIndex, promotionType).value) == CountPieces(st)
  {
    PromotedEffect(st, piecePosition, newIndex, promotionType);
    var p := st.squares[BitScan(piecePosition)].piece;
    var retired := st.pieces[p := st.pieces[p].(alive := false)];
    CountAliveUpdate(st.pieces, p, st.pieces[p].(alive := false));
    CountAliveAppend(retired, Piece(Bit(newIndex), st.pieces[p].color, promotionType, true));
  }

  /** The occupancy word of a list with one more entry. */
  lemma OccupancyOfAppend(pieces: seq<Piece>, x: Piece, c: Color)
    ensures OccupancyOf(pieces + [x], c)
         == if x.alive && x.color == c then Union(OccupancyOf(pieces, c), x.position) else OccupancyOf(pieces, c)
  {
    assert (pieces + [x])[..|pieces|] == pieces;
  }

  /** Adding a piece to an empty square of a consistent position keeps it consistent,
      with one more live piece. */
  lemma AddedConsistent(st: State, color: Color, pieceType: PieceType, index: nat)
    requires Consistent(st) && index < 64 && st.squares[index] == Empty
    ensures Consistent(Added(st, color, pieceType, index))
    ensures CountPieces(Added(st, color, pieceType, index)) == CountPieces(st) + 1
  {
    var x := Piece(Bit(index), color, pieceType, true);
    var after := Added(st, color, pieceType, index);
    var n := |st.pieces|;
    assert after.pieces == st.pieces + [x];
    OccupancyOfAppend(st.pieces, x, White);
    OccupancyOfAppend(st.pieces, x, Black);
    CountAliveAppend(st.pieces, x);
    BitScanOfBit(index);
    forall i | 0 <= i < 64 && after.squares[i].Occupied?
      ensures after.pieces[after.squares[i].piece].alive
      ensures after.pieces[after.squares[i].piece].position == Bit(i)
    {
    }
    forall q | 0 <= q < |after.pieces| && after.pieces[q].alive
      ensures BitScan(after.pieces[q].position) < 64
      ensures after.squares[BitScan(after.pieces[q].position)] == Occupied(q)
    {
      if q < n {
        var j := BitScan(st.pieces[q].position);
        assert st.squares[j] == Occupied(q);
      }
    }
  }

  // ---------------------------------------------------------------------------
  // The position object

  /** A position as the program mutates it: the 64 squares are an array written in
      place, the piece list grows on promotion and on `add`. */
  class Position {
    var pieces: seq<Piece>
    const squares: array<Square>
    var activeColor: Color
    var castlingRights: CastlingRights
    var enPassant: Option<Bitboard>
    var halfmoveClock: nat
    var fullmoveNumber: nat
    var whiteOccupancy: Bitboard
    var blackOccupancy: Bitboard

    /** The value of the object: what `clone` copies. */
    function Snapshot(): State
      reads this, squares
    {
      State(pieces, squares[..], activeColor, castlingRights, enPassant,
            halfmoveClock, fullmoveNumber, whiteOccupancy, blackOccupancy)
    }

    ghost predicate Valid()
      reads this, squares
    {
      WellFormed(Snapshot())
    }

    /** A new object holding the value `st`. */
    constructor FromState(st: State)
      requires WellFormed(st)
      ensures Valid() && Snapshot() == st && fresh(squares)
    {
      pieces := st.pieces;
      squares := new Square[64](i requires 0 <= i < |st.squares| => st.squares[i]);
      activeColor := st.activeColor;
      castlingRights := st.castlingRights;
      enPassant := st.enPassant;
      halfmoveClock := st.halfmoveClock;
      fullmoveNumber := st.fullmoveNumber;
      whiteOccupancy := st.whiteOccupancy;
      blackOccupancy := st.blackOccupancy;
      new;
      assert squares[..] == st.squares;
    }

    /** `clone`: an independent copy. */
    method Clone() returns (copy: Position)
      requires Valid()
      ensures fresh(copy) && fresh(copy.squares)
      ensures copy.Valid() && copy.Snapshot() == Snapshot()
    {
      copy := new Position.FromState(Snapshot());
    }

    /** `move_piece`, as `Moved` describes it; a failure changes nothing. */
    method MovePiece(piecePosition: Bitboard, newPosition: nat) returns (failure: Option<Panic>)
      requires Valid()
      modifies this, squares
      ensures Valid()
      ensures var r := Moved(old(Snapshot()), piecePosition, newPosition);
        && (r.Ok? ==> failure == None && Snapshot() == r.value)
        && (r.Err? ==> failure == Some(r.error) && Snapshot() == old(Snapshot()))
    {
      var from := BitScan(piecePosition);
      if from >= 64 {
        return Some(IndexOutOfRange);
      }
      if squares[from].Empty? {
        return Some(EmptySquare);
      }
      var p := squares[from].piece;
      if newPosition >= 64 {
        return Some(ShiftOverflow);
      }
      failure := Relocate(from, newPosition, p);
      if failure == None {
        UpdateEnPassant(from, newPosition, p);
      }
    }

    /** The board and piece-list part of `move_piece`, as `Relocated` describes it. */
    method Relocate(from: nat, to: nat, p: nat) returns (failure: Option<Panic>)
      requires Valid() && from < 64 && to < 64 && squares[from] == Occupied(p)
      modifies this, squares
      ensures Valid()
      ensures var r := Relocated(old(Snapshot()), from, to, p);
        && (r.Ok? ==> failure == None && Snapshot() == r.value)
        && (r.Err? ==> failure == Some(r.error) && Snapshot() == old(Snapshot()))
    {
      // what the destination holds once the origin has been emptied
      var target := if to == from then Empty else squares[to];
      if target.Occupied? && pieces[target.piece].color == pieces[p].color {
        return Some(SameColorCapture);
      }
      pieces := pieces[p := pieces[p].(position := Bit(to))];
      squares[from] := Empty;
      if target.Occupied? {
        pieces := pieces[target.piece := pieces[target.piece].(alive := false)];
      }
      squares[to] := Occupied(p);
      failure := None;
    }

    /** The en passant part of `move_piece`, as `AfterPawnMove` describes it. */
    method UpdateEnPassant(from: nat, to: nat, mover: nat)
      requires Valid() && from < 64 && to < 64 && mover < |pieces|
      modifies this
      ensures Valid() && Snapshot() == AfterPawnMove(old(Snapshot()), from, to, mover)
    {
      enPassant := NextEnPassant(Snapshot(), from, to, mover);
    }

    /** `take_en_passant`, as `EnPassantTaken` describes it; a failure changes nothing. */
    method TakeEnPassant(piecePosition: Bitboard, newPosition: Bitboard) returns (failure: Option<Panic>)
      requires Valid()
      modifies this, squares
      ensures Valid()
      ensures var r := EnPassantTaken(old(Snapshot()), piecePosition, newPosition);
        && (r.Ok? ==> failure == None && Snapshot() == r.value)
        && (r.Err? ==> failure == Some(r.error) && Snapshot() == old(Snapshot()))
    {
      var from := BitScan(piecePosition);
      if from >= 64 {
        return Some(IndexOutOfRange);
      }
      if squares[from].Empty? {
        return Some(EmptySquare);
      }
      failure := CaptureBehindFrom(from, squares[from].piece, newPosition);
    }

    /** The part of `take_en_passant` after the capturing piece `p` is found, as
        `CaptureBehind` describes it. */
    method CaptureBehindFrom(from: nat, p: nat, newPosition: Bitboard) returns (failure: Option<Panic>)
      requires Valid() && from < 64 && squares[from] == Occupied(p)
      modifies this, squares
      ensures Valid()
      ensures var r := CaptureBehind(old(Snapshot()), from, p, newPosition);
        && (r.Ok? ==> failure == None && Snapshot() == r.value)
        && (r.Err? ==> failure == Some(r.error) && Snapshot() == old(Snapshot()))
    {
      CaptureBehindOutcome(Snapshot(), from, p, newPosition);
      var to := BitScan(newPosition);
      if to >= 64 {
        return Some(IndexOutOfRange);
      }
      // the checks look at the board with the origin already emptied
      if to != from && squares[to].Occupied? {
        return Some(SquareOccupied);
      }
      var oldRow := RowCol(from).0;
      var newRow := RowCol(to).0;
      var newCol := RowCol(to).1;
      BehindIndex(from, to);
      var taken := Index(newRow - Sign(newRow - oldRow), newCol).value;
      assert taken == Behind(from, to);
      if taken == from || squares[taken].Empty? {
        return Some(EmptySquare);
      }
      var q := squares[taken].piece;
      pieces := pieces[p := pieces[p].(position := newPosition)];
      squares[from] := Empty;
      pieces := pieces[q := pieces[q].(alive := false)];
      squares[taken] := Empty;
      enPassant := None;
      failure := None;
    }

    /** `perform_promotion`, as `Promoted` describes it; a failure changes nothing. */
    method PerformPromotion(piecePosition: Bitboard, newIndex: nat, promotionType: PieceType)
      returns (failure: Option<Panic>)
      requires Valid()
      modifies this, squares
      ensures Valid()
      ensures var r := Promoted(old(Snapshot()), piecePosition, newIndex, promotionType);
        && (r.Ok? ==> failure == None && Snapshot() == r.value)
        && (r.Err? ==> failure == Some(r.error) && Snapshot() == old(Snapshot()))
    {
      var from := BitScan(piecePosition);
      if from >= 64 {
        return Some(IndexOutOfRange);
      }
      if squares[from].Empty? {
        return Some(EmptySquare);
      }
      var p := squares[from].piece;
      var current := pieces[p];
      if newIndex >= 64 {
        return Some(ShiftOverflow);
      }
      var newPosition := Bit(newIndex);
      if newIndex != from && squares[newIndex].Occupied? {
        return Some(SquareOccupied);
      }
      if !Promotable(promotionType) {
        return Some(NotPromotable);
      }
      pieces := pieces[p := current.(alive := false)];
      squares[from] := Empty;
      pieces := pieces + [Piece(newPosition, current.color, promotionType, true)];
      squares[newIndex] := Occupied(|pieces| - 1);
      failure := None;
    }

    /** `add`: a new live piece of `color` and `pieceType` on the named square, which
        must exist and be empty (the source panics otherwise). */
    method Add(color: Color, pieceType: PieceType, square: string)
      requires Valid()
      requires |square| == 2 && square[0] >= 'a' && square[1] >= '1'
      requires (square[1] as int - '1' as int) * 8 + (square[0] as int - 'a' as int) < 64
      requires squares[SquareToIndex(square)] == Empty
      modifies this, squares
      ensures Valid() && Snapshot() == Added(old(Snapshot()), color, pieceType, SquareToIndex(square))
    {
      var index := SquareToIndex(square);
      pieces := pieces + [Piece(Bit(index), color, pieceType, true)];
      squares[index] := Occupied(|pieces| - 1);
      match color
      case White => whiteOccupancy := Union(whiteOccupancy, Bit(index));
      case Black => blackOccupancy := Union(blackOccupancy, Bit(index));
    }
  }
}
