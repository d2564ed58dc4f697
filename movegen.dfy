/** Pseudo-legal move generation for each kind of piece, the check test that filters
    the candidates, and `generate_moves`, which puts the two together.  Every
    generator clones the position, applies one move to the clone and collects the
    result; the model collects the value of each clone. */
module MoveGeneration {
  import opened Wrappers
  import opened Panics
  import opened Bitboards
  import opened Utils
  import opened Knights
  import opened RayAttacks
  import opened Positions

  /** The tables and the position a generator reads. */
  datatype Game = Game(position: Position, rayAttacks: Rays, knightAttacks: seq<Bitboard>)

  // ---------------------------------------------------------------------------
  // Applying a list of moves

  /** Clone the position and move the piece on `from` to each target in turn; the
      first move that fails aborts the whole list. */
  function MoveAll(st: State, from: Bitboard, targets: seq<nat>): (r: Result<seq<State>, Panic>)
    requires WellFormed(st)
    ensures r.Ok? ==> |r.value| == |targets| && forall i | 0 <= i < |r.value| :: WellFormed(r.value[i])
  {
    if targets == [] then Ok([])
    else
      var earlier :- MoveAll(st, from, targets[..|targets| - 1]);
      var last :- Moved(st, from, targets[|targets| - 1]);
      Ok(earlier + [last])
  }

  // ---------------------------------------------------------------------------
  // Knights

  /** The squares a knight may move to: its table entry less its own side's squares. */
  function KnightTargets(st: State, entry: Bitboard, color: Color): seq<nat>
  {
    ExtractBits(entry & !Occupancy(st, color))
  }

  /** `generate_knight_moves`. */
  function KnightMoves(st: State, knights: seq<Bitboard>, piece: Piece): (r: Result<seq<State>, Panic>)
    requires WellFormed(st)
    ensures r.Ok? ==> forall i | 0 <= i < |r.value| :: WellFormed(r.value[i])
  {
    var s := BitScan(piece.position);
    if s >= |knights| then Err(IndexOutOfRange)
    else MoveAll(st, piece.position, KnightTargets(st, knights[s], piece.color))
  }

  // ---------------------------------------------------------------------------
  // Sliding pieces

  /** The squares a sliding piece reaches along one direction (`get_attacks`). */
  function SliderTargets(st: State, table: seq<Bitboard>, forward: bool, piece: Piece)
    : (r: Result<seq<nat>, Panic>)
  {
    var s := BitScan(piece.position);
    if s >= |table| then Err(IndexOutOfRange)
    else
      var attacks :- BlockedRayAttack(table[s], table, forward, Occupancy(st, piece.color),
                                      Occupancy(st, Opposite(piece.color)));
      Ok(ExtractBits(attacks))
  }

  /** `get_attacks`: the moves along one direction. */
  function SliderMoves(st: State, rays: Rays, d: Direction, piece: Piece): (r: Result<seq<State>, Panic>)
    requires WellFormed(st)
    ensures r.Ok? ==> forall i | 0 <= i < |r.value| :: WellFormed(r.value[i])
  {
    var targets :- SliderTargets(st, rays.Table(d), Forward(d), piece);
    MoveAll(st, piece.position, targets)
  }

  /** The moves along each of `dirs` in turn, concatenated. */
  function DirectionMoves(st: State, rays: Rays, dirs: seq<Direction>, piece: Piece)
    : (r: Result<seq<State>, Panic>)
    requires WellFormed(st)
    ensures r.Ok? ==> forall i | 0 <= i < |r.value| :: WellFormed(r.value[i])
  {
    if dirs == [] then Ok([])
    else
      var earlier :- DirectionMoves(st, rays, dirs[..|dirs| - 1], piece);
      var moves :- SliderMoves(st, rays, dirs[|dirs| - 1], piece);
      Ok(earlier + moves)
  }

  const BishopDirections: seq<Direction> := [NW, SW, NE, SE]
  const RookDirections: seq<Direction> := [N, S, E, W]

  /** `generate_queen_moves`: the bishop's moves are generated first, so their failure
      wins, but the rook's moves come first in the list. */
  function QueenMoves(st: State, rays: Rays, piece: Piece): (r: Result<seq<State>, Panic>)
    requires WellFormed(st)
    ensures r.Ok? ==> forall i | 0 <= i < |r.value| :: WellFormed(r.value[i])
  {
    var bishop :- DirectionMoves(st, rays, BishopDirections, piece);
    var rook :- DirectionMoves(st, rays, RookDirections, piece);
    Ok(rook + bishop)
  }

  // ---------------------------------------------------------------------------
  // Kings

  /** The `k`-th of the nine (row, column) offsets of a square's neighbourhood, row by
      row from (-1, -1) to (1, 1), including (0, 0) for the square itself. */
  function KingOffset(k: nat): (int, int)
  {
    (k / 3 - 1, k % 3 - 1)
  }

  /** The square at a 0-based row and column, if it is on the board and not one of
      the side's own. */
  function KingSquare(row: int, col: int, own: Bitboard): seq<nat>
  {
    if 0 <= row < 8 && 0 <= col < 8 && !HasBit(own, row * 8 + col) then [row * 8 + col] else []
  }

  /** The king's target at an offset from `s`; none at the zero offset. */
  function KingStep(s: nat, own: Bitboard, offset: (int, int)): seq<nat>
  {
    if offset == (0, 0) then [] else KingSquare(s / 8 + offset.0, s % 8 + offset.1, own)
  }

  /** The king's target squares over the first `k` offsets, in order. */
  function KingTargets(s: nat, own: Bitboard, k: nat): (targets: seq<nat>)
    requires k <= 9
  {
    if k == 0 then [] else KingTargets(s, own, k - 1) + KingStep(s, own, KingOffset(k - 1))
  }

  /** `generate_king_moves`. */
  function KingMoves(st: State, piece: Piece): (r: Result<seq<State>, Panic>)
    requires WellFormed(st)
    ensures r.Ok? ==> forall i | 0 <= i < |r.value| :: WellFormed(r.value[i])
  {
    MoveAll(st, piece.position,
            KingTargets(BitScan(piece.position), Occupancy(st, piece.color), 9))
  }

  // ---------------------------------------------------------------------------
  // Pawns

  /** The row step of a colour's pawns. */
  function PawnStep(c: Color): int
  {
    match c
    case White => 1
    case Black => -1
  }

  /** The 1-based row from which a colour's pawns promote. */
  function LastRow(c: Color): int
  {
    match c
    case White => 7
    case Black => 2
  }

  /** A diagonal target: the square at a 1-based row and column, if it is on the
      board and holds an enemy. */
  function Diagonal(row: int, col: int, enemy: Bitboard): seq<nat>
  {
    match Index(row, col)
    case None => []
    case Some(i) => if HasBit(enemy, i) then [i] else []
  }

  /** The one-square advance to `ahead`, when it is not an enemy's and the pawn is not
      on the row from which it promotes. */
  function SingleStep(c: Color, row: int, ahead: nat, enemy: Bitboard): seq<nat>
    requires ahead < 64
  {
    if !HasBit(enemy, ahead) && row != LastRow(c) then [ahead] else []
  }

  /** The two-square advance to `two` over `one`, when neither is an enemy's. */
  function Advance(two: nat, one: nat, enemy: Bitboard): seq<nat>
    requires two < 64 && one < 64
  {
    if !HasBit(enemy, two) && !HasBit(enemy, one) then [two] else []
  }

  /** The two-square advance from the starting row (the second for White, the seventh
      for Black), when neither square ahead is an enemy's. */
  function DoubleStep(c: Color, row: int, col: int, enemy: Bitboard): seq<nat>
    requires 1 <= col <= 8
  {
    match c
    case White => if row == 2 then Advance(Index(row + 2, col).value, Index(row + 1, col).value, enemy) else []
    case Black => if row == 7 then Advance(Index(row - 2, col).value, Index(row - 1, col).value, enemy) else []
  }

  /** The squares a pawn on the 1-based `row` and `col` moves or captures to, before
      promotion and en passant, given the square `ahead` of it. */
  function PawnTargets(color: Color, row: int, col: int, ahead: nat, enemy: Bitboard): (targets: seq<nat>)
    requires Index(row + PawnStep(color), col) == Some(ahead)
  {
    var dir := PawnStep(color);
    SingleStep(color, row, ahead, enemy) + DoubleStep(color, row, col, enemy)
    + Diagonal(row + dir, col + 1, enemy) + Diagonal(row + dir, col - 1, enemy)
  }

  const PromotionTypes: seq<PieceType> := [Queen, Bishop, Knight, Rook]

  /** A clone promoted to each type in turn; the first failure aborts. */
  function PromoteAll(st: State, from: Bitboard, to: nat, types: seq<PieceType>)
    : (r: Result<seq<State>, Panic>)
    requires WellFormed(st)
    ensures r.Ok? ==> |r.value| == |types| && forall i | 0 <= i < |r.value| :: WellFormed(r.value[i])
  {
    if types == [] then Ok([])
    else
      var earlier :- PromoteAll(st, from, to, types[..|types| - 1]);
      var last :- Promoted(st, from, to, types[|types| - 1]);
      Ok(earlier + [last])
  }

  /** The en passant capture, when the position has an en passant square on the next
      row and in a neighbouring column. */
  function EnPassantMoves(st: State, piece: Piece): (r: Result<seq<State>, Panic>)
    requires WellFormed(st)
    ensures r.Ok? ==> forall i | 0 <= i < |r.value| :: WellFormed(r.value[i])
  {
    var (row, col) := RowCol(BitScan(piece.position));
    match st.enPassant
    case None => Ok([])
    case Some(square) =>
      var (epRow, epCol) := RowCol(BitScan(square));
      if row + PawnStep(piece.color) == epRow && Abs(col - epCol) == 1 then
        var taken :- EnPassantTaken(st, piece.position, square);
        Ok([taken])
      else Ok([])
  }

  /** `generate_pawn_moves`: a pawn with no square ahead aborts; otherwise the
      ordinary moves, then the four promotions from the last row, then the en passant
      capture. */
  function PawnMoves(st: State, piece: Piece): (r: Result<seq<State>, Panic>)
    requires WellFormed(st)
    ensures r.Ok? ==> forall i | 0 <= i < |r.value| :: WellFormed(r.value[i])
  {
    var (row, col) := RowCol(BitScan(piece.position));
    match Index(row + PawnStep(piece.color), col)
    case None => Err(OffBoard)
    case Some(ahead) =>
      var moves :- MoveAll(st, piece.position, PawnTargets(piece.color, row, col, ahead, Occupancy(st, Opposite(piece.color))));
      var promotions :-
        if row == LastRow(piece.color) then PromoteAll(st, piece.position, ahead, PromotionTypes)
        else Ok([]);
      var captures :- EnPassantMoves(st, piece);
      Ok(moves + promotions + captures)
  }

  // ---------------------------------------------------------------------------
  // Check detection

  predicate IsKing(piece: Piece, color: Color)
  {
    piece.pieceType == King && piece.color == color
  }

  /** The first king of `color` in `pieces[k..]`, if there is one. */
  function FindKing(pieces: seq<Piece>, color: Color, k: nat): (r: Option<nat>)
    requires k <= |pieces|
    ensures r.Some? ==> k <= r.value < |pieces| && IsKing(pieces[r.value], color)
    ensures forall j | k <= j < |pieces| && (r.None? || j < r.value) :: !IsKing(pieces[j], color)
    decreases |pieces| - k
  {
    if k == |pieces| then None
    else if IsKing(pieces[k], color) then Some(k)
    else FindKing(pieces, color, k + 1)
  }

  /** The pieces that attack along a direction: rooks orthogonally, bishops
      diagonally, queens both ways. */
  function AttackerTypes(d: Direction): seq<PieceType>
  {
    match d
    case N => [Queen, Rook]
    case E => [Queen, Rook]
    case S => [Queen, Rook]
    case W => [Queen, Rook]
    case NE => [Queen, Bishop]
    case SE => [Queen, Bishop]
    case SW => [Queen, Bishop]
    case NW => [Queen, Bishop]
  }

  /** The order in which `king_is_in_check` looks along the rays. */
  const CheckOrder: seq<Direction> := [N, NE, E, SE, S, SW, W, NW]

  /** The loop of `check_if_attacked` over the enemy squares a ray reaches: an empty
      square or a dead piece aborts, an attacker of one of `types` ends the scan. */
  function ScanAttackers(st: State, locs: seq<nat>, types: seq<PieceType>): (r: Result<bool, Panic>)
    requires WellFormed(st) && forall i | 0 <= i < |locs| :: locs[i] < 64
  {
    if locs == [] then Ok(false)
    else match st.squares[locs[0]]
      case Empty => Err(EmptySquare)
      case Occupied(p) =>
        if !st.pieces[p].alive then Err(DeadAttacker)
        else if st.pieces[p].pieceType in types then Ok(true)
        else ScanAttackers(st, locs[1..], types)
  }

  /** `check_if_attacked`: whether an enemy of one of `types` stands on the king's ray
      in one direction. */
  function RayCheck(st: State, table: seq<Bitboard>, forward: bool, king: Piece, types: seq<PieceType>)
    : (r: Result<bool, Panic>)
    requires WellFormed(st)
  {
    var s := BitScan(king.position);
    var enemy := Occupancy(st, Opposite(king.color));
    if s >= |table| then Err(IndexOutOfRange)
    else
      var attacks :- BlockedRayAttack(table[s], table, forward, Occupancy(st, king.color), enemy);
      AttackersIn(st, attacks & enemy, types)
  }

  /** Whether the enemy squares `overlap` on a ray hold an attacker of one of `types`. */
  function AttackersIn(st: State, overlap: Bitboard, types: seq<PieceType>): (r: Result<bool, Panic>)
    requires WellFormed(st)
  {
    if overlap == 0 then Ok(false) else ScanAttackers(st, ExtractBits(overlap), types)
  }

  /** The ray checks in the order of `dirs`, stopping at the first that finds an
      attacker. */
  function RayAttacked(st: State, rays: Rays, king: Piece, dirs: seq<Direction>): (r: Result<bool, Panic>)
    requires WellFormed(st)
  {
    if dirs == [] then Ok(false)
    else
      var hit :- RayCheck(st, rays.Table(dirs[0]), Forward(dirs[0]), king, AttackerTypes(dirs[0]));
      if hit then Ok(true) else RayAttacked(st, rays, king, dirs[1..])
  }

  /** The loop over the enemy squares a knight's jump from the king reaches: an empty
      square aborts, an enemy knight ends the scan. */
  function ScanKnights(st: State, locs: seq<nat>): (r: Result<bool, Panic>)
    requires WellFormed(st) && forall i | 0 <= i < |locs| :: locs[i] < 64
  {
    if locs == [] then Ok(false)
    else match st.squares[locs[0]]
      case Empty => Err(EmptySquare)
      case Occupied(p) =>
        if st.pieces[p].pieceType == Knight then Ok(true) else ScanKnights(st, locs[1..])
  }

  /** Whether a knight stands a knight's jump from the king on an enemy square. */
  function KnightCheck(st: State, knights: seq<Bitboard>, king: Piece): (r: Result<bool, Panic>)
    requires WellFormed(st)
  {
    var s := BitScan(king.position);
    if s >= |knights| then Err(IndexOutOfRange)
    else
      KnightsIn(st, knights[s] & Occupancy(st, Opposite(king.color)))
  }

  /** Whether the enemy squares `overlap` a knight's jump away hold a knight. */
  function KnightsIn(st: State, overlap: Bitboard): (r: Result<bool, Panic>)
    requires WellFormed(st)
  {
    if overlap == 0 then Ok(false) else ScanKnights(st, ExtractBits(overlap))
  }

  /** The square at `offset` from the king holds an enemy king, or an enemy pawn on a
      neighbouring column one row ahead in the direction the king's own pawns move. */
  predicate Threat(st: State, king: Piece, offset: (int, int))
    requires WellFormed(st)
  {
    var (row, col) := RowCol(BitScan(king.position));
    match Index(row + offset.0, col + offset.1)
    case None => false
    case Some(i) =>
      match st.squares[i]
      case Empty => false
      case Occupied(p) =>
        var piece := st.pieces[p];
        piece.color != king.color &&
        (piece.pieceType == King ||
         (Abs(offset.1) == 1 && offset.0 == PawnStep(king.color) && piece.pieceType == Pawn))
  }

  /** Some square of the row at `rowOffset` from the king, within a column of it,
      holds a threat to it. */
  predicate RowThreat(st: State, king: Piece, rowOffset: int)
    requires WellFormed(st)
  {
    exists colOffset | -1 <= colOffset <= 1 :: Threat(st, king, (rowOffset, colOffset))
  }

  /** Some square next to the king, or under it, holds a threat to it. */
  predicate NearThreat(st: State, king: Piece)
    requires WellFormed(st)
  {
    exists rowOffset | -1 <= rowOffset <= 1 :: RowThreat(st, king, rowOffset)
  }

  /** `king_is_in_check`: the eight rays, then the knights, then the neighbourhood. */
  function KingInCheck(st: State, color: Color, rays: Rays, knights: seq<Bitboard>): (r: Result<bool, Panic>)
    requires WellFormed(st)
  {
    match FindKing(st.pieces, color, 0)
    case None => Err(NoKing)
    case Some(k) =>
      var king := st.pieces[k];
      var rayHit :- RayAttacked(st, rays, king, CheckOrder);
      if rayHit then Ok(true)
      else
        var knightHit :- KnightCheck(st, knights, king);
        if knightHit then Ok(true)
        else Ok(NearThreat(st, king))
  }

  // ---------------------------------------------------------------------------
  // All moves

  /** The generator for the piece's type. */
  function PieceMoves(st: State, rays: Rays, knights: seq<Bitboard>, piece: Piece): (r: Result<seq<State>, Panic>)
    requires WellFormed(st)
    ensures r.Ok? ==> forall i | 0 <= i < |r.value| :: WellFormed(r.value[i])
  {
    match piece.pieceType
    case Knight => KnightMoves(st, knights, piece)
    case Bishop => DirectionMoves(st, rays, BishopDirections, piece)
    case Rook => DirectionMoves(st, rays, RookDirections, piece)
    case Queen => QueenMoves(st, rays, piece)
    case King => KingMoves(st, piece)
    case Pawn => PawnMoves(st, piece)
  }

  /** The candidates that do not leave the king of `color` in check, in order. */
  function Legal(candidates: seq<State>, color: Color, rays: Rays, knights: seq<Bitboard>)
    : (r: Result<seq<State>, Panic>)
    requires forall i | 0 <= i < |candidates| :: WellFormed(candidates[i])
  {
    if candidates == [] then Ok([])
    else
      var last := candidates[|candidates| - 1];
      var earlier :- Legal(candidates[..|candidates| - 1], color, rays, knights);
      var check :- KingInCheck(last, color, rays, knights);
      Ok(if check then earlier else earlier + [last])
  }

  /** The legal moves of the pieces in `pieces` that have the colour to move. */
  function Generated(st: State, rays: Rays, knights: seq<Bitboard>, pieces: seq<Piece>)
    : (r: Result<seq<State>, Panic>)
    requires WellFormed(st)
  {
    if pieces == [] then Ok([])
    else
      var earlier :- Generated(st, rays, knights, pieces[..|pieces| - 1]);
      var piece := pieces[|pieces| - 1];
      if piece.color != st.activeColor then Ok(earlier)
      else
        var candidates :- PieceMoves(st, rays, knights, piece);
        var legal :- Legal(candidates, st.activeColor, rays, knights);
        Ok(earlier + legal)
  }

  /** `generate_moves`: the legal moves of every piece of the colour to move. */
  function AllMoves(st: State, rays: Rays, knights: seq<Bitboard>): (r: Result<seq<State>, Panic>)
    requires WellFormed(st)
  {
    Generated(st, rays, knights, st.pieces)
  }

  // ---------------------------------------------------------------------------
  // The generators

  /** Once a prefix of the targets fails, the whole list fails the same way. */
  lemma {:induction false} MoveAllAborts(st: State, from: Bitboard, targets: seq<nat>, i: nat)
    requires WellFormed(st) && i <= |targets| && MoveAll(st, from, targets[..i]).Err?
    ensures MoveAll(st, from, targets) == MoveAll(st, from, targets[..i])
    decreases |targets| - i
  {
    if i == |targets| {
      assert targets[..i] == targets;
    } else {
      assert targets[..i + 1][..i] == targets[..i];
      MoveAllAborts(st, from, targets, i + 1);
    }
  }

  /** The loop shared by every generator: clone, move, collect. */
  method MoveEach(position: Position, from: Bitboard, targets: seq<nat>) returns (r: Result<seq<State>, Panic>)
    requires position.Valid()
    ensures r == MoveAll(position.Snapshot(), from, targets)
  {
    var moves: seq<State> := [];
    for i := 0 to |targets|
      invariant MoveAll(position.Snapshot(), from, targets[..i]) == Ok(moves)
    {
      var copy := position.Clone();
      var failure := copy.MovePiece(from, targets[i]);
      assert targets[..i + 1][..i] == targets[..i];
      if failure.Some? {
        MoveAllAborts(position.Snapshot(), from, targets, i + 1);
        return Err(failure.value);
      }
      moves := moves + [copy.Snapshot()];
    }
    assert targets[..|targets|] == targets;
    return Ok(moves);
  }

  /** The occupancy word of a colour, read from the object. */
  function OccupancyFor(position: Position, c: Color): (b: Bitboard)
    reads position, position.squares
    ensures b == Occupancy(position.Snapshot(), c)
  {
    if c == White then position.whiteOccupancy else position.blackOccupancy
  }

  /** `generate_knight_moves`. */
  method GenerateKnightMoves(piece: Piece, game: Game) returns (r: Result<seq<State>, Panic>)
    requires game.position.Valid()
    ensures r == KnightMoves(game.position.Snapshot(), game.knightAttacks, piece)
  {
    var s := BitScan(piece.position);
    if s >= |game.knightAttacks| {
      return Err(IndexOutOfRange);
    }
    var attacks := game.knightAttacks[s] & !OccupancyFor(game.position, piece.color);
    r := MoveEach(game.position, piece.position, ExtractBits(attacks));
  }

  /** `get_attacks`: the moves of a sliding piece along one direction. */
  method GetAttacks(piece: Piece, game: Game, d: Direction) returns (r: Result<seq<State>, Panic>)
    requires game.position.Valid()
    ensures r == SliderMoves(game.position.Snapshot(), game.rayAttacks, d, piece)
  {
    var table := game.rayAttacks.Table(d);
    var s := BitScan(piece.position);
    if s >= |table| {
      return Err(IndexOutOfRange);
    }
    var attacks := BlockedRayAttack(table[s], table, Forward(d), OccupancyFor(game.position, piece.color),
                                    OccupancyFor(game.position, Opposite(piece.color)));
    if attacks.Err? {
      return Err(attacks.error);
    }
    r := MoveEach(game.position, piece.position, ExtractBits(attacks.value));
  }

  /** Once a prefix of the directions fails, the whole list fails the same way. */
  lemma {:induction false} DirectionMovesAborts(st: State, rays: Rays, dirs: seq<Direction>, piece: Piece, i: nat)
    requires WellFormed(st) && i <= |dirs| && DirectionMoves(st, rays, dirs[..i], piece).Err?
    ensures DirectionMoves(st, rays, dirs, piece) == DirectionMoves(st, rays, dirs[..i], piece)
    decreases |dirs| - i
  {
    if i == |dirs| {
      assert dirs[..i] == dirs;
    } else {
      assert dirs[..i + 1][..i] == dirs[..i];
      DirectionMovesAborts(st, rays, dirs, piece, i + 1);
    }
  }

  /** The moves along each of `dirs`, one `get_attacks` after another. */
  method SlidingMoves(piece: Piece, game: Game, dirs: seq<Direction>) returns (r: Result<seq<State>, Panic>)
    requires game.position.Valid()
    ensures r == DirectionMoves(game.position.Snapshot(), game.rayAttacks, dirs, piece)
  {
    var moves: seq<State> := [];
    for i := 0 to |dirs|
      invariant DirectionMoves(game.position.Snapshot(), game.rayAttacks, dirs[..i], piece) == Ok(moves)
    {
      var more := GetAttacks(piece, game, dirs[i]);
      assert dirs[..i + 1][..i] == dirs[..i];
      if more.Err? {
        DirectionMovesAborts(game.position.Snapshot(), game.rayAttacks, dirs, piece, i + 1);
        return Err(more.error);
      }
      moves := moves + more.value;
    }
    assert dirs[..|dirs|] == dirs;
    return Ok(moves);
  }

  /** `generate_bishop_moves`. */
  method GenerateBishopMoves(piece: Piece, game: Game) returns (r: Result<seq<State>, Panic>)
    requires game.position.Valid()
    ensures r == DirectionMoves(game.position.Snapshot(), game.rayAttacks, BishopDirections, piece)
  {
    r := SlidingMoves(piece, game, BishopDirections);
  }

  /** `generate_rook_moves`. */
  method GenerateRookMoves(piece: Piece, game: Game) returns (r: Result<seq<State>, Panic>)
    requires game.position.Valid()
    ensures r == DirectionMoves(game.position.Snapshot(), game.rayAttacks, RookDirections, piece)
  {
    r := SlidingMoves(piece, game, RookDirections);
  }

  /** `generate_queen_moves`. */
  method GenerateQueenMoves(piece: Piece, game: Game) returns (r: Result<seq<State>, Panic>)
    requires game.position.Valid()
    ensures r == QueenMoves(game.position.Snapshot(), game.rayAttacks, piece)
  {
    var bishopMoves := GenerateBishopMoves(piece, game);
    if bishopMoves.Err? {
      return Err(bishopMoves.error);
    }
    var rookMoves := GenerateRookMoves(piece, game);
    if rookMoves.Err? {
      return Err(rookMoves.error);
    }
    return Ok(rookMoves.value + bishopMoves.value);
  }

  /** One step of the nested loops of `generate_king_moves` adds the target at the
      next offset. */
  lemma KingTargetsNext(s: nat, own: Bitboard, targets: seq<nat>, step: seq<nat>, rowOffset: int, colOffset: int)
    requires -1 <= rowOffset <= 1 && -1 <= colOffset <= 1
    requires targets == KingTargets(s, own, 3 * (rowOffset + 1) + colOffset + 1)
    requires step == if rowOffset == 0 && colOffset == 0 then []
                     else KingSquare(s / 8 + rowOffset, s % 8 + colOffset, own)
    ensures targets + step == KingTargets(s, own, 3 * (rowOffset + 1) + colOffset + 2)
  {
    var k := 3 * (rowOffset + 1) + colOffset + 1;
    assert k / 3 == rowOffset + 1 && k % 3 == colOffset + 1;
    assert KingStep(s, own, KingOffset(k)) == step;
  }

  /** The test inside the loops of `generate_king_moves`: the square, if it is on the
      board and free of the side's own pieces. */
  method KingSquareFree(row: int, col: int, own: Bitboard) returns (step: seq<nat>)
    ensures step == KingSquare(row, col, own)
  {
    step := [];
    if 0 <= row < 8 && 0 <= col < 8 && !HasBit(own, row * 8 + col) {
      step := [row * 8 + col];
    }
  }

  /** The nested loops of `generate_king_moves`: the nine offsets row by row,
      skipping the king's own square. */
  method KingTargetSquares(s: nat, own: Bitboard) returns (targets: seq<nat>)
    ensures targets == KingTargets(s, own, 9)
  {
    targets := [];
    for rowOffset: int := -1 to 2
      invariant targets == KingTargets(s, own, 3 * (rowOffset + 1))
    {
      targets := KingRowTargets(s, own, rowOffset, targets);
    }
  }

  /** The inner loop of `generate_king_moves`, over the columns of one row offset. */
  method KingRowTargets(s: nat, own: Bitboard, rowOffset: int, before: seq<nat>) returns (targets: seq<nat>)
    requires -1 <= rowOffset <= 1
    requires before == KingTargets(s, own, 3 * (rowOffset + 1))
    ensures targets == KingTargets(s, own, 3 * (rowOffset + 1) + 3)
  {
    targets := before;
    for colOffset: int := -1 to 2
      invariant targets == KingTargets(s, own, 3 * (rowOffset + 1) + colOffset + 1)
    {
      var step: seq<nat> := [];
      if !(rowOffset == 0 && colOffset == 0) {
        step := KingSquareFree(s / 8 + rowOffset, s % 8 + colOffset, own);
      }
      KingTargetsNext(s, own, targets, step, rowOffset, colOffset);
      targets := targets + step;
    }
  }

  /** `generate_king_moves`. */
  method GenerateKingMoves(piece: Piece, game: Game) returns (r: Result<seq<State>, Panic>)
    requires game.position.Valid()
    ensures r == KingMoves(game.position.Snapshot(), piece)
  {
    var targets := KingTargetSquares(BitScan(piece.position), OccupancyFor(game.position, piece.color));
    r := MoveEach(game.position, piece.position, targets);
  }

  /** Once a prefix of the promotion types fails, the whole list fails the same way. */
  lemma {:induction false} PromoteAllAborts(st: State, from: Bitboard, to: nat, types: seq<PieceType>, i: nat)
    requires WellFormed(st) && i <= |types| && PromoteAll(st, from, to, types[..i]).Err?
    ensures PromoteAll(st, from, to, types) == PromoteAll(st, from, to, types[..i])
    decreases |types| - i
  {
    if i == |types| {
      assert types[..i] == types;
    } else {
      assert types[..i + 1][..i] == types[..i];
      PromoteAllAborts(st, from, to, types, i + 1);
    }
  }

  /** The promotion loop of `generate_pawn_moves`: clone, promote, collect. */
  method PromoteEach(position: Position, from: Bitboard, to: nat, types: seq<PieceType>)
    returns (r: Result<seq<State>, Panic>)
    requires position.Valid()
    ensures r == PromoteAll(position.Snapshot(), from, to, types)
  {
    var promotions: seq<State> := [];
    for i := 0 to |types|
      invariant PromoteAll(position.Snapshot(), from, to, types[..i]) == Ok(promotions)
    {
      var copy := position.Clone();
      var failure := copy.PerformPromotion(from, to, types[i]);
      assert types[..i + 1][..i] == types[..i];
      if failure.Some? {
        PromoteAllAborts(position.Snapshot(), from, to, types, i + 1);
        return Err(failure.value);
      }
      promotions := promotions + [copy.Snapshot()];
    }
    assert types[..|types|] == types;
    return Ok(promotions);
  }

  /** The squares of `generate_pawn_moves` before promotion and en passant. */
  method PawnTargetSquares(color: Color, row: int, col: int, ahead: nat, enemy: Bitboard)
    returns (squares: seq<nat>)
    requires Index(row + PawnStep(color), col) == Some(ahead)
    ensures squares == PawnTargets(color, row, col, ahead, enemy)
  {
    var direction := PawnStep(color);
    var single: seq<nat> := [];
    if !HasBit(enemy, ahead) && row != LastRow(color) {
      single := [ahead];
    }
    assert single == SingleStep(color, row, ahead, enemy);
    var double: seq<nat> := [];
    if color == White && row == 2 {
      double := AdvanceFrom(Index(row + 2, col).value, Index(row + 1, col).value, enemy);
    }
    if color == Black && row == 7 {
      double := AdvanceFrom(Index(row - 2, col).value, Index(row - 1, col).value, enemy);
    }
    assert double == DoubleStep(color, row, col, enemy);
    var right := CaptureAt(row + direction, col + 1, enemy);
    var left := CaptureAt(row + direction, col - 1, enemy);
    squares := single + double + right + left;
  }

  /** The two-square advance of `generate_pawn_moves`. */
  method AdvanceFrom(two: nat, one: nat, enemy: Bitboard) returns (squares: seq<nat>)
    requires two < 64 && one < 64
    ensures squares == Advance(two, one, enemy)
  {
    squares := [];
    if !HasBit(enemy, two) && !HasBit(enemy, one) {
      squares := [two];
    }
  }

  /** A diagonal capture of `generate_pawn_moves`. */
  method CaptureAt(row: int, col: int, enemy: Bitboard) returns (squares: seq<nat>)
    ensures squares == Diagonal(row, col, enemy)
  {
    squares := [];
    match Index(row, col)
    case Some(target) =>
      if HasBit(enemy, target) {
        squares := [target];
      }
    case None =>
  }

  /** `generate_pawn_moves`. */
  method GeneratePawnMoves(piece: Piece, game: Game) returns (r: Result<seq<State>, Panic>)
    requires game.position.Valid()
    ensures r == PawnMoves(game.position.Snapshot(), piece)
  {
    var (row, col) := RowCol(BitScan(piece.position));
    var enemy := OccupancyFor(game.position, Opposite(piece.color));
    var direction := PawnStep(piece.color);
    var lastRow := LastRow(piece.color);
    var ahead := Index(row + direction, col);
    if ahead.None? {
      return Err(OffBoard);
    }
    var newSquares := PawnTargetSquares(piece.color, row, col, ahead.value, enemy);
    var moves := MoveEach(game.position, piece.position, newSquares);
    if moves.Err? {
      return Err(moves.error);
    }
    var promotions: seq<State> := [];
    if row == lastRow {
      var promoted := PromoteEach(game.position, piece.position, ahead.value, PromotionTypes);
      if promoted.Err? {
        return Err(promoted.error);
      }
      promotions := promoted.value;
    }
    var captures := EnPassantCapture(piece, game);
    if captures.Err? {
      return Err(captures.error);
    }
    return Ok(moves.value + promotions + captures.value);
  }

  /** The en passant part of `generate_pawn_moves`. */
  method EnPassantCapture(piece: Piece, game: Game) returns (r: Result<seq<State>, Panic>)
    requires game.position.Valid()
    ensures r == EnPassantMoves(game.position.Snapshot(), piece)
  {
    var (row, col) := RowCol(BitScan(piece.position));
    r := Ok([]);
    if game.position.enPassant.Some? {
      var square := game.position.enPassant.value;
      var (epRow, epCol) := RowCol(BitScan(square));
      if row + PawnStep(piece.color) == epRow && Abs(col - epCol) == 1 {
        var copy := game.position.Clone();
        var failure := copy.TakeEnPassant(piece.position, square);
        if failure.Some? {
          return Err(failure.value);
        }
        r := Ok([copy.Snapshot()]);
      }
    }
  }

  // ---------------------------------------------------------------------------
  // Check detection, step by step

  /** The `find` of `king_is_in_check`: the index of the first king of `color`. */
  method FindKingIndex(position: Position, color: Color) returns (k: Option<nat>)
    ensures k == FindKing(position.pieces, color, 0)
  {
    var i := 0;
    while i < |position.pieces|
      invariant i <= |position.pieces|
      invariant FindKing(position.pieces, color, i) == FindKing(position.pieces, color, 0)
    {
      if IsKing(position.pieces[i], color) {
        return Some(i);
      }
      i := i + 1;
    }
    return None;
  }

  /** The inner loop of `check_if_attacked`: whether `t` is one of `types`. */
  method TypeAmong(t: PieceType, types: seq<PieceType>) returns (found: bool)
    ensures found <==> t in types
  {
    found := false;
    for i := 0 to |types|
      invariant found <==> t in types[..i]
    {
      found := found || t == types[i];
      if found {
        return;
      }
    }
    assert types[..|types|] == types;
  }

  /** The scan of `check_if_attacked` over the enemy squares on the ray. */
  method ScanRay(position: Position, locations: seq<nat>, types: seq<PieceType>) returns (r: Result<bool, Panic>)
    requires position.Valid() && forall i | 0 <= i < |locations| :: locations[i] < 64
    ensures r == ScanAttackers(position.Snapshot(), locations, types)
  {
    ghost var st := position.Snapshot();
    var attacked := false;
    var i := 0;
    while i < |locations| && !attacked
      invariant 0 <= i <= |locations|
      invariant ScanAttackers(st, locations, types)
             == if attacked then Ok(true) else ScanAttackers(st, locations[i..], types)
    {
      assert locations[i..][0] == locations[i] && locations[i..][1..] == locations[i + 1..];
      match position.squares[locations[i]]
      case Empty =>
        return Err(EmptySquare);
      case Occupied(p) =>
        assert st.squares[locations[i]] == Occupied(p);
        var attacker := position.pieces[p];
        if !attacker.alive {
          return Err(DeadAttacker);
        }
        attacked := TypeAmong(attacker.pieceType, types);
      i := i + 1;
    }
    return Ok(attacked);
  }

  /** `check_if_attacked`. */
  method CheckIfAttacked(table: seq<Bitboard>, forward: bool, king: Piece, position: Position, types: seq<PieceType>)
    returns (r: Result<bool, Panic>)
    requires position.Valid()
    ensures r == RayCheck(position.Snapshot(), table, forward, king, types)
  {
    var own := OccupancyFor(position, king.color);
    var enemy := OccupancyFor(position, Opposite(king.color));
    var s := BitScan(king.position);
    if s >= |table| {
      return Err(IndexOutOfRange);
    }
    var rayAttacks := BlockedRayAttack(table[s], table, forward, own, enemy);
    if rayAttacks.Err? {
      return Err(rayAttacks.error);
    }
    r := ScanOverlap(position, rayAttacks.value & enemy, types);
  }

  /** The end of `check_if_attacked`: no attacker when the ray meets no enemy,
      otherwise the scan. */
  method ScanOverlap(position: Position, overlap: Bitboard, types: seq<PieceType>) returns (r: Result<bool, Panic>)
    requires position.Valid()
    ensures r == AttackersIn(position.Snapshot(), overlap, types)
  {
    if overlap == 0 {
      return Ok(false);
    }
    r := ScanRay(position, ExtractBits(overlap), types);
  }

  /** The eight ray checks of `king_is_in_check`, joined by a short-circuit `||`. */
  method RaysAttacked(position: Position, rays: Rays, king: Piece) returns (r: Result<bool, Panic>)
    requires position.Valid()
    ensures r == RayAttacked(position.Snapshot(), rays, king, CheckOrder)
  {
    ghost var st := position.Snapshot();
    for i := 0 to |CheckOrder|
      invariant RayAttacked(st, rays, king, CheckOrder) == RayAttacked(st, rays, king, CheckOrder[i..])
    {
      var d := CheckOrder[i];
      assert CheckOrder[i..][0] == d && CheckOrder[i..][1..] == CheckOrder[i + 1..];
      var hit := CheckIfAttacked(rays.Table(d), Forward(d), king, position, AttackerTypes(d));
      if hit.Err? {
        return Err(hit.error);
      }
      if hit.value {
        return Ok(true);
      }
    }
    return Ok(false);
  }

  /** The knight check of `king_is_in_check`. */
  method KnightAttacked(position: Position, knights: seq<Bitboard>, king: Piece) returns (r: Result<bool, Panic>)
    requires position.Valid()
    ensures r == KnightCheck(position.Snapshot(), knights, king)
  {
    var s := BitScan(king.position);
    if s >= |knights| {
      return Err(IndexOutOfRange);
    }
    r := ScanKnightSquares(position, knights[s] & OccupancyFor(position, Opposite(king.color)));
  }

  /** The end of the knight check: none when no enemy is a knight's jump away,
      otherwise the scan. */
  method ScanKnightSquares(position: Position, overlap: Bitboard) returns (r: Result<bool, Panic>)
    requires position.Valid()
    ensures r == KnightsIn(position.Snapshot(), overlap)
  {
    if overlap == 0 {
      return Ok(false);
    }
    r := ScanKnightLoop(position, ExtractBits(overlap));
  }

  /** The loop of the knight check over the enemy squares a knight's jump away. */
  method ScanKnightLoop(position: Position, positions: seq<nat>) returns (r: Result<bool, Panic>)
    requires position.Valid() && forall i | 0 <= i < |positions| :: positions[i] < 64
    ensures r == ScanKnights(position.Snapshot(), positions)
  {
    ghost var st := position.Snapshot();
    for i := 0 to |positions|
      invariant ScanKnights(st, positions) == ScanKnights(st, positions[i..])
    {
      assert positions[i..][0] == positions[i] && positions[i..][1..] == positions[i + 1..];
      match position.squares[positions[i]]
      case Empty =>
        return Err(EmptySquare);
      case Occupied(p) =>
        assert st.squares[positions[i]] == Occupied(p);
        if position.pieces[p].pieceType == Knight {
          return Ok(true);
        }
    }
    return Ok(false);
  }

  /** The inner loop of the neighbourhood check of `king_is_in_check`, over the
      columns of one row offset. */
  method NeighbourRowAttacked(position: Position, king: Piece, rowOffset: int) returns (found: bool)
    requires position.Valid()
    ensures found == RowThreat(position.Snapshot(), king, rowOffset)
  {
    var (row, col) := RowCol(BitScan(king.position));
    for colOffset: int := -1 to 2
      invariant forall c | -1 <= c < colOffset :: !Threat(position.Snapshot(), king, (rowOffset, c))
    {
      var threat := NeighbourThreat(position, king, row, col, rowOffset, colOffset);
      if threat {
        return true;
      }
    }
    return false;
  }

  /** The body of the nested loops of the neighbourhood check, for the king on the
      1-based `row` and `col`. */
  method NeighbourThreat(position: Position, king: Piece, row: int, col: int, rowOffset: int, colOffset: int)
    returns (threat: bool)
    requires position.Valid() && (row, col) == RowCol(BitScan(king.position))
    ensures threat == Threat(position.Snapshot(), king, (rowOffset, colOffset))
  {
    ghost var st := position.Snapshot();
    var direction := PawnStep(king.color);
    threat := false;
    var index := Index(row + rowOffset, col + colOffset);
    if index.Some? {
      match position.squares[index.value]
      case Empty =>
      case Occupied(p) =>
        assert st.squares[index.value] == Occupied(p);
        var piece := position.pieces[p];
        if piece.color != king.color {
          if piece.pieceType == King {
            threat := true;
          }
          if Abs(colOffset) == 1 && rowOffset == direction && piece.pieceType == Pawn {
            threat := true;
          }
        }
    }
  }

  /** The neighbourhood check of `king_is_in_check`: an enemy king next to the king,
      or an enemy pawn diagonally ahead of it. */
  method NeighbourAttacked(position: Position, king: Piece) returns (found: bool)
    requires position.Valid()
    ensures found == NearThreat(position.Snapshot(), king)
  {
    for rowOffset: int := -1 to 2
      invariant forall r | -1 <= r < rowOffset :: !RowThreat(position.Snapshot(), king, r)
    {
      found := NeighbourRowAttacked(position, king, rowOffset);
      if found {
        return;
      }
    }
    return false;
  }

  /** `king_is_in_check`. */
  method KingIsInCheck(position: Position, color: Color, rays: Rays, knights: seq<Bitboard>)
    returns (r: Result<bool, Panic>)
    requires position.Valid()
    ensures r == KingInCheck(position.Snapshot(), color, rays, knights)
  {
    var k := FindKingIndex(position, color);
    if k.None? {
      return Err(NoKing);
    }
    var king := position.pieces[k.value];
    var rayHit := RaysAttacked(position, rays, king);
    if rayHit.Err? {
      return Err(rayHit.error);
    }
    if rayHit.value {
      return Ok(true);
    }
    var knightHit := KnightAttacked(position, knights, king);
    if knightHit.Err? {
      return Err(knightHit.error);
    }
    if knightHit.value {
      return Ok(true);
    }
    var near := NeighbourAttacked(position, king);
    return Ok(near);
  }

  // ---------------------------------------------------------------------------
  // All moves, step by step

  /** Once a prefix of the candidates fails, the whole filter fails the same way. */
  lemma {:induction false} LegalAborts(candidates: seq<State>, color: Color, rays: Rays, knights: seq<Bitboard>, i: nat)
    requires forall j | 0 <= j < |candidates| :: WellFormed(candidates[j])
    requires i <= |candidates| && Legal(candidates[..i], color, rays, knights).Err?
    ensures Legal(candidates, color, rays, knights) == Legal(candidates[..i], color, rays, knights)
    decreases |candidates| - i
  {
    if i == |candidates| {
      assert candidates[..i] == candidates;
    } else {
      assert candidates[..i + 1][..i] == candidates[..i];
      LegalAborts(candidates, color, rays, knights, i + 1);
    }
  }

  /** The filter of `generate_moves`: the candidates after which the king of `color`
      is not in check. */
  method KeepLegal(candidates: seq<State>, color: Color, rays: Rays, knights: seq<Bitboard>)
    returns (r: Result<seq<State>, Panic>)
    requires forall i | 0 <= i < |candidates| :: WellFormed(candidates[i])
    ensures r == Legal(candidates, color, rays, knights)
  {
    var legal: seq<State> := [];
    for i := 0 to |candidates|
      invariant Legal(candidates[..i], color, rays, knights) == Ok(legal)
    {
      var position := new Position.FromState(candidates[i]);
      var check := KingIsInCheck(position, color, rays, knights);
      assert candidates[..i + 1][..i] == candidates[..i];
      if check.Err? {
        LegalAborts(candidates, color, rays, knights, i + 1);
        return Err(check.error);
      }
      if !check.value {
        legal := legal + [candidates[i]];
      }
    }
    assert candidates[..|candidates|] == candidates;
    return Ok(legal);
  }

  /** The `match` of `generate_moves` on the type of a piece. */
  method GeneratePieceMoves(piece: Piece, game: Game) returns (r: Result<seq<State>, Panic>)
    requires game.position.Valid()
    ensures r == PieceMoves(game.position.Snapshot(), game.rayAttacks, game.knightAttacks, piece)
  {
    match piece.pieceType
    case Knight => r := GenerateKnightMoves(piece, game);
    case Bishop => r := GenerateBishopMoves(piece, game);
    case Rook => r := GenerateRookMoves(piece, game);
    case Queen => r := GenerateQueenMoves(piece, game);
    case King => r := GenerateKingMoves(piece, game);
    case Pawn => r := GeneratePawnMoves(piece, game);
  }

  /** Once a prefix of the pieces fails, the whole generation fails the same way. */
  lemma {:induction false} GeneratedAborts(st: State, rays: Rays, knights: seq<Bitboard>, pieces: seq<Piece>, i: nat)
    requires WellFormed(st) && i <= |pieces| && Generated(st, rays, knights, pieces[..i]).Err?
    ensures Generated(st, rays, knights, pieces) == Generated(st, rays, knights, pieces[..i])
    decreases |pieces| - i
  {
    if i == |pieces| {
      assert pieces[..i] == pieces;
    } else {
      assert pieces[..i + 1][..i] == pieces[..i];
      GeneratedAborts(st, rays, knights, pieces, i + 1);
    }
  }

  /** `generate_moves`. */
  method GenerateMoves(game: Game) returns (r: Result<seq<State>, Panic>)
    requires game.position.Valid()
    ensures r == AllMoves(game.position.Snapshot(), game.rayAttacks, game.knightAttacks)
  {
    ghost var st := game.position.Snapshot();
    var pieces := game.position.pieces;
    var newPositions: seq<State> := [];
    for i := 0 to |pieces|
      invariant Generated(st, game.rayAttacks, game.knightAttacks, pieces[..i]) == Ok(newPositions)
    {
      var piece := pieces[i];
      assert pieces[..i + 1][..i] == pieces[..i];
      if piece.color == game.position.activeColor {
        var positions := GeneratePieceMoves(piece, game);
        if positions.Err? {
          GeneratedAborts(st, game.rayAttacks, game.knightAttacks, pieces, i + 1);
          return Err(positions.error);
        }
        var legal := KeepLegal(positions.value, game.position.activeColor, game.rayAttacks, game.knightAttacks);
        if legal.Err? {
          GeneratedAborts(st, game.rayAttacks, game.knightAttacks, pieces, i + 1);
          return Err(legal.error);
        }
        newPositions := newPositions + legal.value;
      }
    }
    assert pieces[..|pieces|] == pieces;
    return Ok(newPositions);
  }
}
