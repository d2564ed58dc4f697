/** Bit primitives shared by the move generator: the modulo-67 bit scan, the
    1-based row/column helpers, the set-bit enumeration and the string split. */
module Utils {
  import opened Wrappers
  import opened Bitboards

  // ---------------------------------------------------------------------------
  // The modulo-67 bit scan

  /** `MOD67TABLE`: entry `r` is the square whose bit leaves remainder `r` modulo 67;
      the three remainders no power of two leaves hold the sentinel 64. */
  function Mod67Table(r: nat): nat
    requires r < 67
  {
    match r
    case 0 => 64 case 1 => 0 case 2 => 1 case 3 => 39
    case 4 => 2 case 5 => 15 case 6 => 40 case 7 => 23
    case 8 => 3 case 9 => 12 case 10 => 16 case 11 => 59
    case 12 => 41 case 13 => 19 case 14 => 24 case 15 => 54
    case 16 => 4 case 17 => 64 case 18 => 13 case 19 => 10
    case 20 => 17 case 21 => 62 case 22 => 60 case 23 => 28
    case 24 => 42 case 25 => 30 case 26 => 20 case 27 => 51
    case 28 => 25 case 29 => 44 case 30 => 55 case 31 => 47
    case 32 => 5 case 33 => 32 case 34 => 64 case 35 => 38
    case 36 => 14 case 37 => 22 case 38 => 11 case 39 => 58
    case 40 => 18 case 41 => 53 case 42 => 63 case 43 => 9
    case 44 => 61 case 45 => 27 case 46 => 29 case 47 => 50
    case 48 => 43 case 49 => 46 case 50 => 31 case 51 => 37
    case 52 => 21 case 53 => 57 case 54 => 52 case 55 => 8
    case 56 => 26 case 57 => 49 case 58 => 45 case 59 => 36
    case 60 => 56 case 61 => 7 case 62 => 48 case 63 => 35
    case 64 => 6 case 65 => 34 case 66 => 33
    case _ => 64
  }

  /** `bit_scan`: the square of a one-bit word, found from the word's remainder modulo 67. */
  function BitScan(bit: Bitboard): (square: nat)
    ensures square <= 64
  {
    Mod67Table((bit as int) % 67)
  }

  /** The sentinel 64 sits at exactly the remainders 0, 17 and 34. */
  lemma SentinelRemainders(r: nat)
    requires r < 67
    ensures Mod67Table(r) == 64 <==> r == 0 || r == 17 || r == 34
  {
  }

  /** 2^k modulo 67, for the 64 squares. */
  ghost function PowerResidue(k: nat): nat
    requires k < 64
  {
    match k
    case 0 => 1 case 1 => 2 case 2 => 4 case 3 => 8
    case 4 => 16 case 5 => 32 case 6 => 64 case 7 => 61
    case 8 => 55 case 9 => 43 case 10 => 19 case 11 => 38
    case 12 => 9 case 13 => 18 case 14 => 36 case 15 => 5
    case 16 => 10 case 17 => 20 case 18 => 40 case 19 => 13
    case 20 => 26 case 21 => 52 case 22 => 37 case 23 => 7
    case 24 => 14 case 25 => 28 case 26 => 56 case 27 => 45
    case 28 => 23 case 29 => 46 case 30 => 25 case 31 => 50
    case 32 => 33 case 33 => 66 case 34 => 65 case 35 => 63
    case 36 => 59 case 37 => 51 case 38 => 35 case 39 => 3
    case 40 => 6 case 41 => 12 case 42 => 24 case 43 => 48
    case 44 => 29 case 45 => 58 case 46 => 49 case 47 => 31
    case 48 => 62 case 49 => 57 case 50 => 47 case 51 => 27
    case 52 => 54 case 53 => 41 case 54 => 15 case 55 => 30
    case 56 => 60 case 57 => 53 case 58 => 39 case 59 => 11
    case 60 => 22 case 61 => 44 case 62 => 21 case 63 => 42
    case _ => 0
  }

  lemma ResidueStepLow(k: nat)
    requires 0 < k < 32
    ensures PowerResidue(k) == (2 * PowerResidue(k - 1)) % 67
  {
  }

  lemma ResidueStepHigh(k: nat)
    requires 32 <= k < 64
    ensures PowerResidue(k) == (2 * PowerResidue(k - 1)) % 67
  {
  }

  lemma TableInvertsResidueLow(k: nat)
    requires k < 32
    ensures PowerResidue(k) < 67 && Mod67Table(PowerResidue(k)) == k
  {
  }

  lemma TableInvertsResidueHigh(k: nat)
    requires 32 <= k < 64
    ensures PowerResidue(k) < 67 && Mod67Table(PowerResidue(k)) == k
  {
  }

  lemma ModDouble(x: nat)
    ensures (2 * x) % 67 == (2 * (x % 67)) % 67
  {
    var q, r := x / 67, x % 67;
    assert 2 * x == 67 * (2 * q) + 2 * r;
  }

  /** The remainder of 2^k modulo 67 is the tabulated residue. */
  lemma {:induction false} Pow2Residue(k: nat)
    requires k < 64
    ensures Pow2(k) % 67 == PowerResidue(k)
  {
    if k > 0 {
      Pow2Residue(k - 1);
      ModDouble(Pow2(k - 1));
      if k < 32 {
        ResidueStepLow(k);
      } else {
        ResidueStepHigh(k);
      }
    }
  }

  /** `bit_scan` inverts `1 << k` for every square `k`. */
  lemma BitScanOfBit(k: nat)
    requires k < 64
    ensures BitScan(Bit(k)) == k
  {
    BitValue(k);
    Pow2Residue(k);
    if k < 32 {
      TableInvertsResidueLow(k);
    } else {
      TableInvertsResidueHigh(k);
    }
  }

  /** The 64 powers of two leave pairwise distinct remainders modulo 67. */
  lemma ResiduesDistinct(j: nat, k: nat)
    requires j < 64 && k < 64 && Pow2(j) % 67 == Pow2(k) % 67
    ensures j == k
  {
    BitScanOfBit(j);
    BitScanOfBit(k);
    BitValue(j);
    BitValue(k);
  }

  /** `bit_scan` is not a lowest-set-bit scan: with the top bit also set, square 0
      is reported as square 9. */
  lemma BitScanNotLowest()
    ensures BitScan(Bit(0) | Bit(63)) == 9
  {
    BitTop(63);
    assert Bit(0) | Bit(63) == 0x8000_0000_0000_0001;
  }

  // ---------------------------------------------------------------------------
  // Squares as 1-based rows and columns

  /** `abs` of a row or column difference. */
  function Abs(x: int): nat
  {
    if x < 0 then -x else x
  }

  /** `signum` of a row difference. */
  function Sign(x: int): int
  {
    if x > 0 then 1 else if x < 0 then -1 else 0
  }

  /** `rowcol`: the 1-based row and column of a square. */
  function RowCol(square: nat): (int, int)
  {
    (square / 8 + 1, square % 8 + 1)
  }

  /** `index`: the square at a 1-based row and column, if it is on the board. */
  function Index(row: int, col: int): (r: Option<nat>)
    ensures r.Some? <==> 1 <= row <= 8 && 1 <= col <= 8
    ensures r.Some? ==> r.value < 64
  {
    if 1 <= row <= 8 && 1 <= col <= 8 then Some((row - 1) * 8 + (col - 1)) else None
  }

  /** `index` inverts `rowcol` on the board. */
  lemma IndexOfRowCol(square: nat)
    requires square < 64
    ensures Index(RowCol(square).0, RowCol(square).1) == Some(square)
  {
  }

  /** `rowcol` inverts `index`. */
  lemma RowColOfIndex(row: int, col: int)
    requires Index(row, col).Some?
    ensures RowCol(Index(row, col).value) == (row, col)
  {
  }

  /** Rows and columns agree with the 0-based `Row` and `Col` of a square. */
  lemma RowColOfSquare(square: nat)
    ensures RowCol(square) == (Row(square) + 1, Col(square) + 1)
  {
  }

  /** The two-argument `set_bit`: the one-bit word of an on-board square, else 0. */
  function SquareBit(row: int, col: int): (b: Bitboard)
    ensures Index(row, col).None? <==> b == 0
  {
    match Index(row, col)
    case None => 0
    case Some(square) => SquaresBit(square); SquaresEmptyIsZero(Bit(square)); Bit(square)
  }

  /** The square at a 1-based row and column as a set: empty when off the board. */
  ghost function SquareAt(row: int, col: int): set<nat>
  {
    match Index(row, col)
    case None => {}
    case Some(t) => {t}
  }

  /** The squares of `SquareBit`: the on-board square, or none. */
  lemma SquareBitSquares(row: int, col: int)
    ensures Squares(SquareBit(row, col)) == SquareAt(row, col)
  {
    match Index(row, col)
    case None => SquaresEmptyIsZero(0);
    case Some(t) => SquaresBit(t);
  }

  /** Adding one `SquareBit` to a word adds its square to the word's squares. */
  lemma UnionSquareBit(acc: Bitboard, row: int, col: int)
    ensures Squares(Union(acc, SquareBit(row, col))) == Squares(acc) + SquareAt(row, col)
  {
    SquaresUnion(acc, SquareBit(row, col));
    SquareBitSquares(row, col);
  }

  // ---------------------------------------------------------------------------
  // Enumerating and scanning set bits

  /** The squares `k + j` with bit `j` of `b` set, in ascending order. */
  function ExtractFrom(b: Bitboard, k: nat): (squares: seq<nat>)
    requires k <= 64
    ensures forall i | 0 <= i < |squares| :: k <= squares[i] < 64
    ensures forall t :: t in squares <==> t in SquaresFrom(b, k)
    decreases 64 - k
  {
    if k == 64 then [] else (if b & 1 == 1 then [k] else []) + ExtractFrom(b >> 1, k + 1)
  }

  lemma {:induction false} ExtractFromAscending(b: Bitboard, k: nat)
    requires k <= 64
    ensures forall i, j | 0 <= i < j < |ExtractFrom(b, k)| :: ExtractFrom(b, k)[i] < ExtractFrom(b, k)[j]
    decreases 64 - k
  {
    if k < 64 {
      ExtractFromAscending(b >> 1, k + 1);
    }
  }

  /** `extract_bits`: the squares of a word. */
  function ExtractBits(b: Bitboard): (squares: seq<nat>)
    ensures forall i | 0 <= i < |squares| :: squares[i] < 64
    ensures forall t :: t in squares <==> t in Squares(b)
  {
    ExtractFrom(b, 0)
  }

  /** `extract_bits` lists the squares in ascending order. */
  lemma ExtractBitsAscending(b: Bitboard)
    ensures forall i, j | 0 <= i < j < |ExtractBits(b)| :: ExtractBits(b)[i] < ExtractBits(b)[j]
  {
    ExtractFromAscending(b, 0);
  }

  lemma LastIsLargest(squares: seq<nat>)
    requires squares != []
    requires forall i, j | 0 <= i < j < |squares| :: squares[i] < squares[j]
    ensures forall t | t in squares :: t <= squares[|squares| - 1]
  {
  }

  lemma NonZeroHasSquare(b: Bitboard)
    requires b != 0
    ensures ExtractBits(b) != []
  {
    SquaresEmptyIsZero(b);
    var t :| t in Squares(b);
    assert t in ExtractBits(b);
  }

  /** `bit_scan_backwards`: the highest square of a non-zero word. */
  function BitScanBackwards(b: Bitboard): (square: nat)
    requires b != 0
    ensures square in Squares(b)
    ensures forall t | t in Squares(b) :: t <= square
  {
    NonZeroHasSquare(b);
    var squares := ExtractBits(b);
    ExtractBitsAscending(b);
    LastIsLargest(squares);
    squares[|squares| - 1]
  }

  // ---------------------------------------------------------------------------
  // Splitting a string

  /** `split_on`: the text before the first `sep` and the text after it; the whole
      string and the empty string when `sep` does not occur. */
  function Split(s: string, sep: char): (parts: (string, string))
    ensures sep in s ==> s == parts.0 + [sep] + parts.1 && sep !in parts.0
    ensures sep !in s ==> parts == (s, "")
  {
    if s == [] then ("", "")
    else if s[0] == sep then ("", s[1..])
    else
      var rest := Split(s[1..], sep);
      assert s == [s[0]] + s[1..];
      ([s[0]] + rest.0, rest.1)
  }

  /** `split_on` as the source writes it: a scan for the first `sep`. */
  method SplitOn(s: string, sep: char) returns (before: string, after: string)
    ensures (before, after) == Split(s, sep)
  {
    var i := 0;
    while i < |s|
      invariant i <= |s| && sep !in s[..i]
    {
      if s[i] == sep {
        assert s == s[..i] + [sep] + s[i + 1..];
        SplitUnique(s, sep, s[..i], s[i + 1..]);
        return s[..i], s[i + 1..];
      }
      i := i + 1;
    }
    assert s[..i] == s;
    return s, "";
  }

  /** The split at the first `sep` is the only one whose first part has no `sep`. */
  lemma {:induction false} SplitUnique(s: string, sep: char, before: string, after: string)
    requires s == before + [sep] + after && sep !in before
    ensures Split(s, sep) == (before, after)
  {
    if before != [] {
      assert s[1..] == before[1..] + [sep] + after;
      SplitUnique(s[1..], sep, before[1..], after);
      assert s[0] == before[0] != sep;
      assert [before[0]] + before[1..] == before;
    }
  }
}
