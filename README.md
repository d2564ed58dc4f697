# Bitboard chess move generator, modelled in Dafny

This project models the core of a bitboard chess move generator. A board is a list of
pieces, a 64-entry square vector naming the piece on each square, and one 64-bit
occupancy word per colour. Square `i` is bit `i`: a1 is 0, h1 is 7 and h8 is 63.
Rows and columns are numbered from 1. The core has five parts, leaves first:

- **Bit primitives** (`Utils`, over `Bitboards`):
  - `bit_scan` is a lookup of `bit % 67` in a 67-entry table;
  - `split_on` splits a string at its first separator;
  - the helpers the generator imports: `index`, `rowcol`, `extract_bits`,
    `bit_scan_backwards` and the two-argument `set_bit`.
- **Knight table** (`Knights`): 64 words built from the eight knight offsets by a nested
  loop.
- **Ray tables and the blocked-ray resolver** (`RayAttacks`):
  - eight 64-entry tables, one per direction;
  - `set_bit` and `first_hit`;
  - `blocked_ray_attack`, which cuts a ray at the nearest own piece (exclusive) or the
    nearest enemy piece (inclusive) by XOR-ing away the ray that continues past the
    blocker.
- **Position** (`Positions`, `Fen`):
  - a `Position` class whose squares are an array written in place;
  - the mutators `move_piece`, `take_en_passant`, `perform_promotion` and `add`;
  - algebraic square names;
  - the reading of a record in Forsyth–Edwards Notation (section 16.1 of the PGN
    standard).
- **Move generation and check detection** (`MoveGeneration`, `MoveRules`):
  - one generator per piece type, each of which clones the position and applies one
    mutator per destination;
  - `king_is_in_check`;
  - `generate_moves`, which keeps the candidates that leave the mover's king out of
    check.

Each imperative routine is a method proved against a specification function:
- `NewKnightAttacks` against `KnightEntry`;
- `MakeRays` against `RayEntry`;
- `ReadPlacement` against `ScanRows`;
- `Position.MovePiece` against `Moved`;
- `KingIsInCheck` against `KingInCheck`;
- `GenerateMoves` against `AllMoves`.

Lemmas then say what those functions mean in chess terms:
- knight jumps;
- squares along a ray up to the first blocker;
- king steps;
- pawn pushes and captures (article 3.7 of the FIDE Laws of Chess, as far as the program
  follows it);
- attacks on the king;
- the set of legal successors.

A Rust panic is modelled in one of two ways:
- as a `Panic` value in a `Result`, returned with the state left unchanged;
- as a `requires` on `add` only: the square it names must be on the board and empty.
  The move generator itself never calls `add`, but the program's own test
  `test_cannot_add_to_occupied_square` relies on its panic (listed under "## Left out").

`index`, `rowcol`, `extract_bits`, `bit_scan_backwards`, the two-argument `set_bit` and
`Game` are imported by the program but not defined in the files modelled here. They are
specified from their uses:
- the import at src/movegeneration.rs:8;
- `set_bit(r, c)` at src/knightattacks.rs:43;
- the `has_pawn(7, 6)` = f7 expectation at src/position.rs:738;
- white double pushes from row 2 at src/movegeneration.rs:356.

## Model

| member | source | states |
|---|---|---|
| Utils.SentinelRemainders | src/utils.rs:1-9 | the table holds the sentinel 64 exactly at remainders 0, 17 and 34 |
| Utils.TableInvertsResidueLow | src/utils.rs:1-9 | for k below 32 the table stores k at the remainder of 2^k modulo 67 |
| Utils.TableInvertsResidueHigh | src/utils.rs:1-9 | for k from 32 to 63 the table stores k at the remainder of 2^k modulo 67 |
| Utils.Pow2Residue | src/utils.rs:13-16 | 2^k modulo 67 equals the residue reached by doubling k times modulo 67 |
| Utils.ResiduesDistinct | src/utils.rs:13-16 | 2^j and 2^k have the same remainder modulo 67 only when j = k, for j, k < 64 |
| Utils.BitScan | src/utils.rs:13-16 | the result is at most 64 for every 64-bit word |
| Utils.BitScanOfBit | src/utils.rs:13-16 | `bit_scan(1 << k) == k` for every k < 64 |
| Utils.BitScanNotLowest | src/utils.rs:67-78 | on a word with bits 0 and 63 set, `bit_scan` gives 9, not the lowest bit 0 |
| Utils.Split | src/utils.rs:19-27 | if the separator occurs, s = before + [sep] + after with no separator in before; otherwise the result is (s, "") |
| Utils.SplitOn | src/utils.rs:19-27 | the search loop returns exactly `Split` |
| Utils.SplitUnique | src/utils.rs:19-24 | any decomposition at a first separator is the one `Split` returns |
| Utils.Index | src/movegeneration.rs:349 | `index(r, c)` is defined exactly for 1 ≤ r, c ≤ 8, and its square is below 64 |
| Utils.IndexOfRowCol | src/movegeneration.rs:336 | `index` inverts `rowcol` on every square |
| Utils.RowColOfIndex | src/movegeneration.rs:159-170 | `rowcol` inverts `index` wherever it is defined |
| Utils.RowColOfSquare | src/movegeneration.rs:336 | `rowcol(i)` is (i / 8 + 1, i % 8 + 1) |
| Utils.SquareBit | src/knightattacks.rs:42-44 | the two-argument `set_bit` gives 0 exactly off the board |
| Utils.SquareBitSquares | src/knightattacks.rs:42-44 | the word holds exactly the square at (r, c), or nothing off the board |
| Utils.UnionSquareBit | src/knightattacks.rs:42-44 | OR-ing it in adds exactly that square to the accumulator's squares |
| Utils.ExtractBits | src/movegeneration.rs:206 | the list holds exactly the set squares of the word, each below 64 |
| Utils.ExtractBitsAscending | src/movegeneration.rs:206 | the list is strictly ascending |
| Utils.BitScanBackwards | src/rayattacks.rs:91-93 | the result is a set square of the word and no set square is higher |
| Bitboards.HasBitSquares | src/movegeneration.rs:314 | testing bit i of a word agrees with i being among its squares |
| Bitboards.SquaresBit | src/position.rs:452 | `1 << i` holds exactly square i |
| Bitboards.SquaresEmptyIsZero | src/rayattacks.rs:86 | a word has no squares exactly when it is 0 |
| Knights.KnightAttacksFrom | src/knightattacks.rs:22-46 | the loop that ORs the eight offsets computes `JumpBits` over the offset list |
| Knights.NewKnightAttacks | src/knightattacks.rs:8-19 | the table has exactly 64 entries, and entry s is `KnightEntry(s)`, the jumps from 1-based (row, col) of s |
| Knights.JumpSquares | src/knightattacks.rs:29-44 | the word built from an offset list holds exactly the on-board landing squares of those offsets |
| Knights.KnightEntryMeaning | src/knightattacks.rs:29-46 | t is in entry s iff t is on the board and (abs Δrow, abs Δcol) is (1, 2) or (2, 1) |
| Knights.KnightEntriesJump | src/knightattacks.rs:8-19 | the built table is a knight-jump table in the sense used by check detection |
| Knights.KnightSymmetric | src/knightattacks.rs:29-38 | t is in entry s iff s is in entry t |
| Knights.KnightNotOrigin | src/knightattacks.rs:29-46 | no entry contains its own square |
| Knights.KnightAtMostEight | src/knightattacks.rs:29-46 | no entry has more than eight squares |
| Knights.CornerEntry | src/knightattacks.rs:58-68 | entry 0 is {10, 17} |
| Knights.EdgeEntry | src/knightattacks.rs:58-68 | entry 40 is {25, 34, 50, 57} |
| Knights.InnerEntry | src/knightattacks.rs:58-68 | entry 18 is {1, 3, 8, 12, 24, 28, 33, 35} |
| RayAttacks.SetBit | src/rayattacks.rs:75-82 | off the board the word is returned unchanged |
| RayAttacks.SetBitSquares | src/rayattacks.rs:75-82 | on the board it ORs in bit (col−1)+(row−1)·8, adding exactly that square |
| RayAttacks.DefineRay | src/rayattacks.rs:53-65 | the accumulating loop computes the first eight steps of the direction, `RayBits(d, row, col, 8)` |
| RayAttacks.MakeRays | src/rayattacks.rs:16-27 | the table has 64 entries, and entry (row−1)·8+(col−1) is the ray from that origin |
| RayAttacks.NewRays | src/rayattacks.rs:29-51 | all eight tables are ray tables of their direction |
| RayAttacks.RaySquares | src/rayattacks.rs:53-65 | the word of n steps holds exactly the on-board squares reached in 1..n steps |
| RayAttacks.RayEntryMeaning | src/rayattacks.rs:53-73 | t is in entry s of direction d iff t lies on the ray from s in direction d |
| RayAttacks.EntrySquares | src/rayattacks.rs:53-73 | the squares of entry s are the ray set of s |
| RayAttacks.RayOrder | src/rayattacks.rs:66-73 | a ray never contains its origin; n, e, ne and nw rays hold only higher squares and s, w, sw and se only lower ones |
| RayAttacks.RayTransitive | src/rayattacks.rs:66-73 | a square on the ray of a square on the ray of s is on the ray of s |
| RayAttacks.RayTotal | src/rayattacks.rs:66-73 | two squares on one ray are ordered along it |
| RayAttacks.RaySetNesting | src/rayattacks.rs:66-73 | the ray from a square on the ray of s is contained in the ray of s |
| RayAttacks.RayNesting | src/rayattacks.rs:111-123 | for t in entry s, entry t is a subset of entry s and t is not in entry t, so each XOR removes squares of the ray only |
| RayAttacks.SouthWestOfG6 | src/rayattacks.rs:200-230 | the sw ray from row 6, col 7 is {37, 28, 19, 10, 1} |
| RayAttacks.WestOfG6 | src/rayattacks.rs:200-230 | the w ray from row 6, col 7 is {40, …, 45} |
| RayAttacks.NorthEastOfG6 | src/rayattacks.rs:200-230 | the ne ray from row 6, col 7 is {55} |
| RayAttacks.FirstHit | src/rayattacks.rs:84-95 | None iff the ray and the occupancy do not meet; the result is at most 64; backward it is the highest common square |
| RayAttacks.FirstHitSingle | src/rayattacks.rs:89-90 | forward, on a one-square overlap, the hit is that square |
| RayAttacks.FirstHitNearest | src/rayattacks.rs:84-95 | the hit is the blocker nearest the origin along the ray (forward only when the overlap has at most one square) |
| RayAttacks.BlockedRayAttack | src/rayattacks.rs:110 | with no own and no enemy overlap the ray is returned unchanged |
| RayAttacks.EnemyBranch | src/rayattacks.rs:111-114 | with only an enemy hit e, the result is `ray ^ ray_family[e]` |
| RayAttacks.OwnBranch | src/rayattacks.rs:115-118 | with only an own hit o, the result is `ray ^ (ray_family[o] \| 1 << o)` |
| RayAttacks.BothBranch | src/rayattacks.rs:119-123 | with both hits, the result is `ray ^ ((ray_family[o] \| 1 << o) \| ray_family[e])` |
| RayAttacks.ResolveEnemy | src/rayattacks.rs:111-114 | as sets: the ray minus everything past e (e itself kept) |
| RayAttacks.ResolveOwn | src/rayattacks.rs:115-118 | as sets: the ray minus o and everything past it |
| RayAttacks.ResolveBoth | src/rayattacks.rs:119-123 | as sets: the ray minus both cuts, which keeps only squares before the nearer blocker |
| RayAttacks.ResolveCut | src/rayattacks.rs:110-123 | every branch yields the ray minus the cut its hits define |
| RayAttacks.ReachCut | src/rayattacks.rs:97-125 | the squares reachable along the ray (empty squares up to and including the first enemy, excluding the first own piece) are the ray minus the cut at the nearest blockers |
| RayAttacks.ResolveReach | src/rayattacks.rs:97-125 | given the nearest hits, the resolver's result is exactly the reachable squares |
| RayAttacks.BlockedRayAttackReach | src/rayattacks.rs:97-125 | `blocked_ray_attack` returns exactly the reachable squares (forward rays: each overlap has at most one square) |
| RayAttacks.ValidSquares | src/rayattacks.rs:29-51 | every table of the built `Rays` has the ray sets as its entries |
| Positions.PositionToBit | src/position.rs:22-68 | Ok exactly on two-character names a–h then 1–8, and then the single bit of that square |
| Positions.PositionToIndex | src/position.rs:16-20 | Ok exactly on square names |
| Positions.IndexToPosition | src/position.rs:72-76 | the name starts with the column letter of the index |
| Positions.BitToPosition | src/position.rs:7-14 | Err exactly for the empty word |
| Positions.NameOfIndex | src/position.rs:72-76 | the name of every square below 64 is a square name that denotes that square |
| Positions.IndexOfName | src/position.rs:16-20 | naming the square of a square name gives back the name |
| Positions.PositionRoundTrip | src/position.rs:16-76 | `position_to_index(index_to_position(i)) == Ok(i)` and `position_to_bit` of it is `1 << i` |
| Positions.BitRoundTrip | src/position.rs:7-14 | `bit_to_position(1 << i)` is the name of i, and reading it back gives `1 << i` |
| Positions.SquareToIndexAgrees | src/position.rs:471-478 | `square_to_index` agrees with `position_to_index` on every square name |
| Positions.SquareToIndexExample | src/position.rs:471-478 | "e3" is square 20 |
| Positions.Opposite | src/position.rs:85-91 | the opposite colour differs from the given one |
| Positions.CountAlive | src/position.rs:310-312 | the count of live pieces is at most the number of pieces |
| Positions.HasPawn | src/position.rs:358-369 | true only for an on-board (row, col) |
| Positions.HasPawnPlaced | src/position.rs:358-369 | on a placed position, true iff a live pawn sits on that square |
| Positions.Moved | src/position.rs:314-356 | a successful move leaves a well-formed state |
| Positions.Relocated | src/position.rs:314-335 | a successful relocation leaves a well-formed state |
| Positions.MovedFails | src/position.rs:314-335 | `move_piece` fails iff the origin is off the board or empty, the target is off the board, or a piece of the mover's colour is on the target |
| Positions.MovedSteps | src/position.rs:314-356 | `move_piece` is the relocation followed by the en passant update |
| Positions.RelocatedEffect | src/position.rs:314-335 | the mover goes to `1 << to`, the origin empties, the target names the mover, any previous occupant (of the other colour) dies, and nothing else changes |
| Positions.MovedEffect | src/position.rs:314-356 | the whole new piece list and squares of a move, and the clocks, castling, colour and occupancy words unchanged |
| Positions.AfterPawnMove | src/position.rs:337-355 | the state after the en passant rule (its partner lemmas state the rule) |
| Positions.AfterPawnMoveKeeps | src/position.rs:337-355 | only `en_passant` is changed by the update |
| Positions.PassedSquare | src/position.rs:347 | for a two-row move the passed square is one row back toward the origin |
| Positions.AfterPawnMoveRule | src/position.rs:337-368 | non-pawns clear en passant; a two-row pawn move sets it to the passed square iff a pawn (any colour) stands beside the landing square, else clears it; other pawn moves keep it |
| Positions.MovedEnPassant | src/position.rs:314-356 | the same rule holds for the whole `move_piece` |
| Positions.NextEnPassant | src/position.rs:337-355 | the branch code computes the en passant field of `AfterPawnMove` |
| Positions.MovedPlaced | src/position.rs:314-356 | a move keeps every live piece on the square that names it, and vice versa |
| Positions.CountAliveUpdate | src/position.rs:310-312 | replacing one piece changes the live count by the change in that piece's liveness |
| Positions.MovedCount | src/position.rs:310-356 | a move lowers `count_pieces` by one exactly when it captures |
| Positions.Behind | src/position.rs:388-393 | the taken square is on the board, in the target's column |
| Positions.BehindIndex | src/position.rs:388-393 | it is one row back from the target toward the origin |
| Positions.EnPassantTaken | src/position.rs:370-403 | a successful capture leaves a well-formed state |
| Positions.CaptureBehind | src/position.rs:381-402 | a successful capture after the origin is emptied leaves a well-formed state |
| Positions.EnPassantTakenFails | src/position.rs:370-403 | it fails iff the origin is off the board or empty, the target is off the board or occupied, or the square behind it is empty |
| Positions.EnPassantTakenChecks | src/position.rs:370-403 | a success had an occupied origin, a free target and a piece behind it |
| Positions.EnPassantTakenEffect | src/position.rs:370-403 | the mover's position becomes the target bit, the origin and the square behind empty, the piece behind dies, en passant is cleared, the target stays Empty, and nothing else changes |
| Positions.CaptureBehindOutcome | src/position.rs:384-402 | each of the four outcomes after the origin is emptied: off-board target, occupied target, nothing behind, or the capture |
| Positions.CaptureBehindValue | src/position.rs:394-402 | the state a successful capture produces |
| Positions.EnPassantTakenCount | src/position.rs:370-403 | it lowers `count_pieces` by one |
| Positions.EnPassantTakenUnplaced | src/position.rs:381-402 | afterwards the mover's square no longer names it |
| Positions.Promoted | src/position.rs:405-446 | a successful promotion leaves a well-formed state |
| Positions.PromotedFails | src/position.rs:405-446 | it fails iff the origin is off the board or empty, the target is off the board or occupied, or the type is not Queen, Bishop, Knight or Rook |
| Positions.PromotedEffect | src/position.rs:405-446 | the pawn dies, its square empties, one live piece of its colour and the requested type is appended, the target names it, and en passant and every other field are kept |
| Positions.PromotedPlaced | src/position.rs:405-446 | promotion keeps pieces and squares in agreement |
| Positions.CountAliveAppend | src/position.rs:310-312 | appending a piece adds one to the live count iff it is alive |
| Positions.PromotedCount | src/position.rs:405-446 | promotion keeps `count_pieces` |
| Positions.Added | src/position.rs:448-468 | the new state is well formed |
| Positions.OccupancyOfAppend | src/position.rs:464-467 | appending a live piece ORs its bit into its colour's union |
| Positions.AddedConsistent | src/position.rs:448-468 | `add` keeps squares, live pieces and both occupancy words in agreement, and adds one to `count_pieces` |
| Positions.Position.FromState | src/position.rs:153-165 | the new object holds the given value, with a fresh square array |
| Positions.Position.Clone | src/position.rs:153 | the copy holds the same value in fresh storage |
| Positions.Position.MovePiece | src/position.rs:314-356 | the object's new value is `Moved` of the old one, or unchanged with the panic reported |
| Positions.Position.Relocate | src/position.rs:314-335 | the new value is `Relocated` of the old one, or unchanged with the panic |
| Positions.Position.UpdateEnPassant | src/position.rs:337-355 | the new value is `AfterPawnMove` of the old one |
| Positions.Position.TakeEnPassant | src/position.rs:370-403 | the new value is `EnPassantTaken` of the old one, or unchanged with the panic |
| Positions.Position.CaptureBehindFrom | src/position.rs:381-402 | the new value is `CaptureBehind` of the old one, or unchanged with the panic |
| Positions.Position.PerformPromotion | src/position.rs:405-446 | the new value is `Promoted` of the old one, or unchanged with the panic |
| Positions.Position.Add | src/position.rs:448-468 | the new value is `Added` of the old one |
| Fen.PieceOfLetter | src/position.rs:509-515 | a piece type exactly for the letters r, n, b, q, k and p |
| Fen.ScanRowFailed | src/position.rs:516-517 | once a prefix of a row hits a bad character, the whole row fails with that panic |
| Fen.ParseRow | src/position.rs:480-528 | the character loop returns the pieces and squares of `ScanRow`, or its panic |
| Fen.ParseChar | src/position.rs:506-525 | one character is read as `ScanChar` reads it |
| Fen.PushEmpties | src/position.rs:518-523 | a digit n pushes n Empty squares to the front and advances the position by n |
| Fen.SplitRows | src/position.rs:245 | `splitn(8, '/')` yields between one and eight rows |
| Fen.PushPieces | src/position.rs:249-257 | the row's pieces are appended and the squares kept |
| Fen.PushSquares | src/position.rs:258-260 | pushing a row to the front of the deque adds its length |
| Fen.PushSquaresAt | src/position.rs:258-260 | the row's squares come first, in reverse, followed by the old deque |
| Fen.AddRow | src/position.rs:247-260 | the board after one row has the row's pieces appended and its squares pushed in front |
| Fen.ScanRowsFailed | src/position.rs:245-261 | once a prefix of the rows fails, the whole placement fails with that panic |
| Fen.ScanRowsStep | src/position.rs:245-261 | one more row either fails with its panic or adds its pieces and squares |
| Fen.ReadPlacement | src/position.rs:241-263 | the row loop computes `ScanRows` of the split placement |
| Fen.ReadRow | src/position.rs:246-260 | one row is parsed and added to the board, or its panic is returned |
| Fen.AppendPieces | src/position.rs:249-257 | the loop appends the row's pieces |
| Fen.PushFront | src/position.rs:258-260 | the loop pushes the row's squares to the front |
| Fen.ColorOf | src/position.rs:265-270 | Ok exactly for "w" and "b", and White exactly for "w" |
| Fen.ReadCastling | src/position.rs:272-284 | the loop computes `CastlingOf` |
| Fen.CastlingFailed | src/position.rs:274-283 | a bad character in a prefix decides the result |
| Fen.CastlingLetters | src/position.rs:272-284 | the field is accepted iff every character is one of `KQkq-`, and each right is granted iff its letter occurs |
| Fen.GrantLetter | src/position.rs:275-282 | one character is accepted iff it is one of `KQkq-`, and the rights then match the letters read so far |
| Fen.EnPassantOf | src/position.rs:286-293 | Ok exactly for "-" or a square name, and then the bit of that square |
| Fen.ClockOf | src/position.rs:295-305 | an accepted clock fits in a 64-bit `usize` |
| Fen.ClockRoundTrip | src/position.rs:295-305 | every `usize` written in decimal reads back as itself |
| Fen.DecimalDigits | src/position.rs:295-305 | a decimal numeral is all digits and denotes its number |
| Fen.WithFields | src/position.rs:265-307 | an accepted record keeps the board's pieces, squares (exactly 64) and occupancy words |
| Fen.ReadFen | src/position.rs:226-308 | a failing record reports its panic; otherwise a fresh valid object holding `FenState(fen)` |
| Fen.ScanRowShape | src/position.rs:480-528 | a row's pieces are alive, numbered on from the starting index, its squares as many as its width, and each occupied square names one of its pieces |
| Fen.ScanRowsTallied | src/position.rs:241-261 | after all rows, each occupancy word is the OR of its colour's piece bits and every square names an existing piece |
| Fen.TalliedStep | src/position.rs:247-260 | adding one row keeps that tally |
| Fen.NextRowTallied | src/position.rs:249-260 | adding a well-shaped row keeps that tally |
| Fen.PushPiecesTallies | src/position.rs:249-257 | appending live pieces keeps each occupancy word equal to the OR of its colour's bits |
| Fen.FenBoard | src/position.rs:226-308 | an accepted record's pieces, squares and occupancy come from its placement |
| Fen.FenTallied | src/position.rs:226-308 | an accepted record is well formed, all pieces are alive, and each occupancy word is the OR of its colour's bits |
| Fen.PiecePlaced | src/position.rs:497-502 | adding a piece keeps a row's pieces and squares in agreement |
| Fen.EmptiesPlaced | src/position.rs:518-523 | adding empty squares keeps a row's pieces and squares in agreement |
| Fen.ScanRowBits | src/position.rs:493-494 | each piece of a row has the bit of its slot |
| Fen.ScanRowPlaced | src/position.rs:480-528 | each row's squares name exactly its pieces at their slots |
| Fen.NextRowRanked | src/position.rs:258-263 | pushing a full row in front of the ranks read so far keeps square indices and piece slots aligned |
| Fen.ScanRowsRanked | src/position.rs:241-263 | when every row is eight squares wide, square i of the board names the piece whose bit is i |
| Fen.RankedStep | src/position.rs:246-260 | one full-width row keeps the alignment |
| Fen.RankedLast | src/position.rs:245-261 | the alignment for all rows follows from the one for all rows but the last |
| Fen.ScanRowsBits | src/position.rs:241-261 | each piece of the placement has the bit of its slot |
| Fen.AtSlotsAppend | src/position.rs:249-257 | slot agreement is kept by appending |
| Fen.FenConsistent | src/position.rs:226-308 | a record with eight full ranks gives a consistent position: squares[i] = Occupied(p) exactly when piece p is alive at bit i, with each occupancy word the OR of its colour's bits |
| Fen.RankedPlaced | src/position.rs:241-263 | aligned slots with live pieces give a placed position |
| MoveGeneration.MoveAll | src/movegeneration.rs:206-216 | one well-formed candidate per target square |
| MoveGeneration.MoveAllAborts | src/movegeneration.rs:206-216 | a panic on a prefix of the targets is the panic of the whole loop |
| MoveGeneration.MoveEach | src/movegeneration.rs:206-216 | the clone-and-move loop computes `MoveAll` |
| MoveGeneration.OccupancyFor | src/movegeneration.rs:200-203 | the occupancy word of a colour is read from the object's value |
| MoveGeneration.GenerateKnightMoves | src/movegeneration.rs:194-217 | the method computes `KnightMoves` of the position's value |
| MoveGeneration.GetAttacks | src/movegeneration.rs:219-247 | one direction's candidates are `SliderMoves` |
| MoveGeneration.SlidingMoves | src/movegeneration.rs:249-278 | the directions are resolved in order and their candidates concatenated |
| MoveGeneration.DirectionMovesAborts | src/movegeneration.rs:249-278 | a panic in an earlier direction is the panic of the whole list |
| MoveGeneration.GenerateBishopMoves | src/movegeneration.rs:249-260 | bishop candidates resolve nw, sw, ne and se in that order |
| MoveGeneration.GenerateRookMoves | src/movegeneration.rs:262-278 | rook candidates resolve n, s, e and w in that order |
| MoveGeneration.GenerateQueenMoves | src/movegeneration.rs:280-287 | queen candidates are the rook list followed by the bishop list |
| MoveGeneration.KingTargetsNext | src/movegeneration.rs:289-329 | each neighbour offset, taken in order, appends that neighbour's target |
| MoveGeneration.KingSquareFree | src/movegeneration.rs:306-317 | one neighbour is a target iff it is on the board and not own-occupied |
| MoveGeneration.KingTargetSquares | src/movegeneration.rs:289-329 | the nested loop gives `KingTargets` over all nine offsets |
| MoveGeneration.KingRowTargets | src/movegeneration.rs:289-329 | one row of offsets extends the targets by three offsets |
| MoveGeneration.GenerateKingMoves | src/movegeneration.rs:289-329 | the method computes `KingMoves` |
| MoveGeneration.PromoteAll | src/movegeneration.rs:394-401 | one well-formed candidate per promotion type |
| MoveGeneration.PromoteAllAborts | src/movegeneration.rs:394-401 | a panic on an earlier type is the panic of the whole loop |
| MoveGeneration.PromoteEach | src/movegeneration.rs:394-401 | the clone-and-promote loop computes `PromoteAll` |
| MoveGeneration.PawnTargetSquares | src/movegeneration.rs:343-385 | the push and capture targets are those of `PawnTargets` |
| MoveGeneration.AdvanceFrom | src/movegeneration.rs:356-374 | a double push is added iff neither square holds an enemy |
| MoveGeneration.CaptureAt | src/movegeneration.rs:376-385 | a diagonal is a target iff it is on the board and holds an enemy |
| MoveGeneration.GeneratePawnMoves | src/movegeneration.rs:331-413 | the method computes `PawnMoves` |
| MoveGeneration.EnPassantCapture | src/movegeneration.rs:403-410 | the en passant candidate is `EnPassantMoves` |
| MoveGeneration.FindKing | src/movegeneration.rs:110-114 | the first piece that is a king of the colour, with none before it |
| MoveGeneration.FindKingIndex | src/movegeneration.rs:110-114 | the search loop finds `FindKing` |
| MoveGeneration.TypeAmong | src/movegeneration.rs:82-88 | true iff the attacker's type is among the listed types |
| MoveGeneration.ScanRay | src/movegeneration.rs:74-95 | the attacker loop computes `ScanAttackers` |
| MoveGeneration.CheckIfAttacked | src/movegeneration.rs:55-98 | the macro computes `RayCheck` |
| MoveGeneration.ScanOverlap | src/movegeneration.rs:70-96 | the overlap test computes `AttackersIn` |
| MoveGeneration.RaysAttacked | src/movegeneration.rs:122-132 | the eight ray checks, in order with short-circuit, compute `RayAttacked` |
| MoveGeneration.KnightAttacked | src/movegeneration.rs:134-156 | the knight check computes `KnightCheck` |
| MoveGeneration.ScanKnightSquares | src/movegeneration.rs:141-156 | the overlap test computes `KnightsIn` |
| MoveGeneration.ScanKnightLoop | src/movegeneration.rs:143-155 | the knight loop computes `ScanKnights` |
| MoveGeneration.NeighbourRowAttacked | src/movegeneration.rs:158-189 | one row of neighbours is scanned as `RowThreat` |
| MoveGeneration.NeighbourThreat | src/movegeneration.rs:168-187 | one neighbour is a threat as `Threat` states |
| MoveGeneration.NeighbourAttacked | src/movegeneration.rs:158-189 | the nested loop computes `NearThreat` |
| MoveGeneration.KingIsInCheck | src/movegeneration.rs:100-192 | the method computes `KingInCheck` |
| MoveGeneration.LegalAborts | src/movegeneration.rs:38-48 | a panic on an earlier candidate is the panic of the whole filter |
| MoveGeneration.KeepLegal | src/movegeneration.rs:38-48 | the filter loop computes `Legal` |
| MoveGeneration.PieceMoves | src/movegeneration.rs:17-36 | each generator yields well-formed candidates |
| MoveGeneration.GeneratePieceMoves | src/movegeneration.rs:17-36 | the dispatch on piece type computes `PieceMoves` |
| MoveGeneration.GeneratedAborts | src/movegeneration.rs:14-50 | a panic for an earlier piece is the panic of the whole loop |
| MoveGeneration.GenerateMoves | src/movegeneration.rs:11-53 | the method computes `AllMoves` of the position's value |
| MoveRules.MoveAllCollect | src/movegeneration.rs:206-216 | the candidate loop is the collection of the individual `move_piece` results |
| MoveRules.MoveAllEach | src/movegeneration.rs:206-216 | the candidates exist iff every `move_piece` succeeds, and candidate i is the move to target i |
| MoveRules.MoveAllMembers | src/movegeneration.rs:206-216 | every target's move is a candidate, and every candidate is the move to some target |
| MoveRules.KnightTargetAt | src/movegeneration.rs:194-206 | t is a knight target iff it is a knight jump from s not held by the mover's colour |
| MoveRules.KnightTargetsMeaning | src/movegeneration.rs:194-206 | the same for all t at once |
| MoveRules.KnightMovesMeaning | src/movegeneration.rs:194-217 | the knight candidates are exactly the moves to the knight jumps not held by the mover's colour |
| MoveRules.SliderTargetsMeaning | src/movegeneration.rs:219-247 | a direction's targets are exactly the squares reachable along the ray |
| MoveRules.SliderTargetsWithin | src/movegeneration.rs:219-247 | the same, with the reachable set given |
| MoveRules.RayWordOk | src/movegeneration.rs:232-238 | `blocked_ray_attack` does not panic on a ray of the table |
| MoveRules.RayWordSquares | src/movegeneration.rs:232-238 | its result's squares are the reachable set |
| MoveRules.SliderTargetsFromWord | src/movegeneration.rs:232-239 | the targets are `extract_bits` of the resolved word |
| MoveRules.SliderMovesMeaning | src/movegeneration.rs:219-247 | a direction's candidates are exactly the moves to the reachable squares |
| MoveRules.DirectionMovesSplit | src/movegeneration.rs:249-287 | one more direction appends its candidates |
| MoveRules.FourDirections | src/movegeneration.rs:249-287 | a four-direction list is the concatenation of the four directions' candidates |
| MoveRules.KingStepMeaning | src/movegeneration.rs:301-317 | offset k gives t iff k is not the centre, t is on the board and not own-occupied, and t is that offset from s |
| MoveRules.KingTargetsPrefix | src/movegeneration.rs:299-319 | the first k offsets give exactly the union of their steps |
| MoveRules.KingTargetsMeaning | src/movegeneration.rs:289-329 | the king targets are exactly the adjacent squares not own-occupied |
| MoveRules.KingMovesMeaning | src/movegeneration.rs:289-329 | the king candidates are exactly the moves to those squares |
| MoveRules.IndexAt | src/movegeneration.rs:349 | `index(r, c) == Some(t)` iff t is on the board at row r and column c |
| MoveRules.SingleStepAt | src/movegeneration.rs:348-354 | the single push is a target iff the square ahead holds no enemy and the pawn is not on its last row |
| MoveRules.DiagonalAt | src/movegeneration.rs:376-385 | a diagonal is a target iff it is on the board and holds an enemy |
| MoveRules.DoubleStepAt | src/movegeneration.rs:356-374 | the double push is a target iff the pawn is on its start row and neither square ahead holds an enemy |
| MoveRules.PawnTargetsMeaning | src/movegeneration.rs:343-385 | the pawn targets are exactly the single pushes, double pushes and captures |
| MoveRules.PromoteAllCollect | src/movegeneration.rs:394-401 | the promotion loop is the collection of the individual results |
| MoveRules.PromoteAllEach | src/movegeneration.rs:394-401 | promotions exist iff every `perform_promotion` succeeds, and candidate i is promotion to type i |
| MoveRules.EnPassantMovesMeaning | src/movegeneration.rs:403-410 | the en passant candidates are exactly the `take_en_passant` results onto a recorded en passant square one row ahead on a neighbouring column, and the step fails iff such a square is recorded and that capture panics |
| MoveRules.PawnMovesSplit | src/movegeneration.rs:386-412 | a pawn's candidates are its ordinary moves, then its promotions, then its en passant capture |
| MoveRules.PawnRuleMoves | src/movegeneration.rs:387-392 | the ordinary moves are exactly the moves to the push, double-push and capture squares |
| MoveRules.PawnPromotions | src/movegeneration.rs:394-401 | the promotions are exactly the four `perform_promotion` results onto the square ahead |
| MoveRules.PawnMovesMeaning | src/movegeneration.rs:331-413 | every push or capture target's move is a candidate; on the last row so is each of the four promotions; so is the capture onto a recorded en passant square one row ahead on a neighbouring column; and nothing else is |
| MoveRules.ScanAttackersMeaning | src/movegeneration.rs:74-95 | whenever the attacker loop returns, it answers whether some listed square holds a piece of a listed type; it returns when every listed square holds a live piece |
| MoveRules.ScanKnightsMeaning | src/movegeneration.rs:143-155 | whenever the knight loop returns, it answers whether some listed square holds a knight; it returns when every listed square is occupied |
| MoveRules.AttackersInMeaning | src/movegeneration.rs:70-96 | whenever the overlap test returns, it answers whether a square of the overlap holds a piece of a listed type; it returns when every such square holds a live piece |
| MoveRules.KnightsInMeaning | src/movegeneration.rs:141-156 | whenever the overlap test returns, it answers whether a square of the overlap holds a knight; it returns when every such square is occupied |
| MoveRules.RayCheckMeaning | src/movegeneration.rs:55-98 | whenever a ray check returns, it is true iff a square of the stored enemy word that the ray reaches holds a piece of a listed type (of either colour); it returns when every enemy-word square holds a live piece |
| MoveRules.RayCheckOn | src/movegeneration.rs:55-98 | the same for a given table |
| MoveRules.RayCheckWithin | src/movegeneration.rs:55-98 | the same with the reachable set given |
| MoveRules.RayCheckLooksAt | src/movegeneration.rs:62-70 | the ray check examines exactly the resolved ray intersected with enemy occupancy |
| MoveRules.AttackersOn | src/movegeneration.rs:70-96 | the overlap of a word with enemy occupancy is tested square by square, with the same answer and the same condition for returning |
| MoveRules.KnightCheckMeaning | src/movegeneration.rs:134-156 | whenever the knight check returns, it is true iff a knight (of either colour) stands a knight's jump from the king on a square of the stored enemy word; it returns when every enemy-word square is occupied |
| MoveRules.KnightCheckWith | src/movegeneration.rs:134-156 | the same with the jump set given |
| MoveRules.KnightsOn | src/movegeneration.rs:141-156 | the knight overlap is tested square by square |
| MoveRules.KnightCheckLooksAt | src/movegeneration.rs:134-141 | the knight check examines the king's table entry intersected with enemy occupancy |
| MoveRules.ThreatAt | src/movegeneration.rs:166-187 | a neighbour is a threat iff it holds an enemy king, or an enemy pawn one row ahead of the king diagonally |
| MoveRules.NearThreatMeaning | src/movegeneration.rs:158-189 | the neighbourhood scan is true iff some neighbour is such a threat |
| MoveRules.RayAttackedMeaning | src/movegeneration.rs:122-132 | whenever the eight ray checks return, they are true iff some direction has a piece of its attacker types on an enemy-word square its ray reaches; they return when every enemy-word square holds a live piece |
| MoveRules.RayAttackedCombine | src/movegeneration.rs:122-129 | the first direction's answer ORed with the rest's |
| MoveRules.RayAttackedStep | src/movegeneration.rs:122-129 | the short-circuit OR of the first check and the rest |
| MoveRules.AnyRayThreatSplit | src/movegeneration.rs:122-129 | a threat along some direction is one along the first or along the rest |
| MoveRules.FirstKing | src/movegeneration.rs:110-114 | the search finds the first king of the colour |
| MoveRules.KingInCheckNoKing | src/movegeneration.rs:110-114 | without a king of the colour, check detection panics |
| MoveRules.KingInCheckSteps | src/movegeneration.rs:100-192 | check detection runs the ray checks, then the knight check, then the neighbourhood scan, stopping at the first true answer or panic |
| MoveRules.KingInCheckMeaning | src/movegeneration.rs:100-192 | whenever check detection returns, it is true iff the first king of the colour is attacked: along a ray or by a knight standing on a square of the stored enemy word, or by an adjacent enemy king or pawn; it returns when every enemy-word square holds a live piece |
| MoveRules.LegalFilter | src/movegeneration.rs:38-48 | the filter is the selection by the individual check results |
| MoveRules.FilterMeaning | src/movegeneration.rs:38-48 | the selection succeeds iff every check does, and keeps exactly the candidates not in check |
| MoveRules.LegalMeaning | src/movegeneration.rs:38-48 | the legal filter succeeds iff every check does, and keeps exactly the candidates that leave the king out of check |
| MoveRules.GeneratedGather | src/movegeneration.rs:14-50 | the piece loop is the concatenation of the per-piece results |
| MoveRules.GatherMeaning | src/movegeneration.rs:14-50 | the concatenation succeeds iff every part does, and holds exactly the members of the parts |
| MoveRules.AllMovesMeaning | src/movegeneration.rs:11-53 | `generate_moves` succeeds iff every piece's part does, and returns exactly the candidates of pieces of the active colour (dead pieces included) whose king is not in check afterwards |

## Left out

- Generated positions are values (`State`), not objects. Each generator reads the position object through `Snapshot` and returns the list of successor values the source would build by cloning and mutating. The mutators themselves act on the `Position` object in place.
- Panics: a mutator that would panic returns a `Panic` and leaves the object unchanged. The program aborts there after a partial write, at src/position.rs:321-322, 381-382 and 420-421. `add` onto an occupied square (src/position.rs:458-461) is a precondition of `Positions.Position.Add` instead.
- `OffBoard`: a pawn whose step forward would leave the board is reported as a panic, as the `expect` at src/movegeneration.rs:349 and 395 would.
- RayAttacks.FirstHit: on a forward ray whose overlap has several squares, `first_hit` calls `bit_scan` on a multi-bit word (src/rayattacks.rs:89-90). That can give a wrong square or 64, and then `ray_family[64]` is out of range; the model reports the latter as `IndexOutOfRange`. `Utils.BitScanNotLowest` exhibits the wrong scan. The nearest-blocker results (`RayAttacks.FirstHitNearest`, `RayAttacks.BlockedRayAttackReach`, and the `MoveRules` slider and ray-check lemmas) are stated only when each forward overlap has at most one square.
- Stale occupancy words: no move mutator updates the stored occupancy words (src/position.rs:314-446), so after a move or an en passant capture they can name empty squares. The empty-square panics at src/movegeneration.rs:79 and 147 are then reachable and are modelled as `EmptySquare`. The failed `assert!` on a dead attacker at src/movegeneration.rs:81 is modelled as `DeadAttacker`. The check-detection lemmas (`ScanAttackersMeaning` to `KingInCheckMeaning`) state the meaning of every answer the check returns, for all positions. They give a sufficient condition for the check to return (every enemy-word square holds a live piece) rather than the exact set of positions on which it panics.
- The check-detection tests read the squares of the stored enemy word without checking colour (src/movegeneration.rs:78-86, 146-150). After a capture such a square can hold a piece of the king's own side, and the model counts it as the source does.
- Pawn pushes test only enemy occupancy (src/movegeneration.rs:352, 361, 371), so a push onto a friendly piece reaches `move_piece`, which panics. The model keeps this as written.
- `generate_moves` generates for dead pieces of the active colour as well (src/movegeneration.rs:14-15). `AllMovesMeaning` states this as written.
- `take_en_passant` never writes `Occupied` into its destination (src/position.rs:381-402). The model keeps this as written, and `EnPassantTakenUnplaced` proves that the resulting position is not placed.
- Occupancy agreement is proved after `read_FEN` and `add` only. Moves leave the occupancy words stale, and nothing flips `active_color`.
- Fen.FenState: a placement that does not describe exactly 64 squares is refused with `BadPlacement`. The program would build a squares vector of another length and fail only later, when it is indexed.
- The clocks are read as an optional leading `+` followed by ASCII decimal digits, with a value below 2^64, as `str::parse::<usize>` accepts them; every other spelling is refused. Strings are ASCII `seq<char>`, so the byte-offset behaviour of `split_on` on non-ASCII text is not modelled.
- `Position::to_string` and `Piece::to_string` (src/position.rs:113-130, 200-219) are debug output and are not modelled. The `bitflags!` machinery (src/position.rs:139-152) is represented by four booleans.
- `Position::new` and `Position::empty` (src/position.rs:196-198, 221-224) are `read_FEN` of fixed strings, covered by `Fen.ReadFen`.
- The concrete expectations of the generator tests are not evaluated, because they need whole-board computation on 64-bit words. They cover the rook count 14, the queen count 27, the king counts 8 and 7, four promotions, and f1/f2 as the only legal moves. The general characterisations above (`KnightMovesMeaning`, `SliderMovesMeaning`, `KingMovesMeaning`, `PawnMovesMeaning`, `AllMovesMeaning`) state the rules those expectations instance. Likewise, the start-position occupancy (bits 0–15 white, 48–63 black) is not evaluated.
- src/main.rs is not part of this model. `Game` is modelled as a record of the position object, the ray tables and the knight table.
- `index`, `rowcol`, `extract_bits`, `bit_scan_backwards` and the two-argument `set_bit` are not defined in the files modelled here. They are specified from their uses, as described above.
