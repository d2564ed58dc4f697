/** Bitboards: a 64-bit word with one bit per square.  Square `i` is bit `i`,
    with a1 = 0, b1 = 1, ..., h1 = 7, a2 = 8, ..., h8 = 63.

    The words are `bv64`.  The ghost function `Squares` abstracts a word to the
    set of squares whose bit is set; the lemmas below translate each bitwise
    operator the move generator uses into the corresponding set operation.
    `Squares` looks at the word one bit at a time by shifting it right, so no
    lemma here has to convert a square number into a shift amount. */
module Bitboards {

  type Bitboard = bv64

  /** The top bit of a word; a word below it can be doubled without overflow. */
  const TopBit: Bitboard := 0x8000_0000_0000_0000

  function Pow2(n: nat): nat
  {
    if n == 0 then 1 else 2 * Pow2(n - 1)
  }

  /** The one-bit word for square `i`, that is `1 << i`, built by doubling. */
  function Bit(i: nat): Bitboard
    requires i < 64
  {
    if i == 0 then 1 else Bit(i - 1) << 1
  }

  /** `a | b` under a name: proofs that mix unions of unknown words with integer
      arithmetic stay small when the union is not unfolded. */
  function Union(a: Bitboard, b: Bitboard): Bitboard
  {
    a | b
  }

  /** Whether square `i` is in the word `b`, that is `(1 << i) & b != 0`.  Proofs
      that compare two such tests stay small when the test is not unfolded. */
  predicate HasBit(b: Bitboard, i: nat)
    requires i < 64
  {
    Bit(i) & b != 0
  }

  /** Row (0 = first rank) and column (0 = a-file) of a square. */
  function Row(i: nat): nat { i / 8 }
  function Col(i: nat): nat { i % 8 }

  // ---------------------------------------------------------------------------
  // Powers of two

  lemma {:induction false} Pow2Add(a: nat, b: nat)
    ensures Pow2(a + b) == Pow2(a) * Pow2(b)
    decreases a
  {
    if a > 0 {
      Pow2Add(a - 1, b);
    }
  }

  lemma {:induction false} Pow2Monotone(a: nat, b: nat)
    requires a <= b
    ensures Pow2(a) <= Pow2(b)
    decreases b
  {
    if a < b {
      Pow2Monotone(a, b - 1);
    }
  }

  lemma Pow2Sixty()
    ensures Pow2(60) == 0x1000_0000_0000_0000
  {
    assert Pow2(5) == 32;
    Pow2Add(5, 5);
    Pow2Add(10, 10);
    Pow2Add(20, 20);
    Pow2Add(40, 20);
  }

  lemma Pow2Values()
    ensures Pow2(62) == 0x4000_0000_0000_0000
    ensures Pow2(63) == 0x8000_0000_0000_0000
    ensures Pow2(64) == 0x1_0000_0000_0000_0000
  {
    Pow2Sixty();
    Pow2Add(60, 2);
    Pow2Add(60, 3);
    Pow2Add(60, 4);
  }

  // ---------------------------------------------------------------------------
  // The shape of a one-bit word

  lemma Doubling(x: Bitboard)
    requires x < TopBit
    ensures (x << 1) as int == 2 * x as int
    ensures (x << 1) >> 1 == x && (x << 1) & 1 == 0
  {
  }

  lemma BelowTop(x: Bitboard)
    requires x as int < 0x8000_0000_0000_0000
    ensures x < TopBit
  {
  }

  /** A word standing for a power of two below 2^63 has its top bit clear. */
  lemma PowerBelowTop(x: Bitboard, n: nat)
    requires n < 63 && x as int == Pow2(n)
    ensures x < TopBit
  {
    Pow2Monotone(n, 62);
    Pow2Values();
    BelowTop(x);
  }

  /** `Bit(i)` is the number 2^i. */
  lemma {:induction false} BitValue(i: nat)
    requires i < 64
    ensures Bit(i) as int == Pow2(i)
    decreases i, 0
  {
    if i > 0 {
      BitValue(i - 1);
      BitBelowTop(i - 1);
      Doubling(Bit(i - 1));
    }
  }

  lemma {:induction false} BitBelowTop(i: nat)
    requires i < 63
    ensures Bit(i) < TopBit
    decreases i, 1
  {
    BitValue(i);
    PowerBelowTop(Bit(i), i);
  }

  lemma TopFromValue(x: Bitboard)
    requires x as int == 0x8000_0000_0000_0000
    ensures x == TopBit
  {
  }

  /** The bit of the last square is the top bit.  (The square is a parameter so
      that the verifier does not unfold `Bit` on a literal.) */
  lemma BitTop(i: nat)
    requires i == 63
    ensures Bit(i) == TopBit
  {
    BitValue(i);
    Pow2Values();
    TopFromValue(Bit(i));
  }

  /** Shifting `Bit(i)` right by one gives `Bit(i - 1)`, and its lowest bit is clear. */
  lemma BitShape(i: nat)
    requires 0 < i < 64
    ensures Bit(i) & 1 == 0 && Bit(i) >> 1 == Bit(i - 1)
  {
    BitBelowTop(i - 1);
    Doubling(Bit(i - 1));
  }

  // ---------------------------------------------------------------------------
  // The set abstraction

  /** The squares `k + j` for which bit `j` of `b` is set (squares below 64 only). */
  ghost function SquaresFrom(b: Bitboard, k: nat): set<nat>
    requires k <= 64
    decreases 64 - k
  {
    if k == 64 then {} else (if b & 1 == 1 then {k} else {}) + SquaresFrom(b >> 1, k + 1)
  }

  /** The set of squares a bitboard holds. */
  ghost function Squares(b: Bitboard): set<nat>
  {
    SquaresFrom(b, 0)
  }

  lemma {:induction false} SquaresFromBounded(b: Bitboard, k: nat)
    requires k <= 64
    ensures forall t | t in SquaresFrom(b, k) :: k <= t < 64
    decreases 64 - k
  {
    if k < 64 {
      SquaresFromBounded(b >> 1, k + 1);
    }
  }

  lemma SquaresBounded(b: Bitboard)
    ensures forall t | t in Squares(b) :: t < 64
  {
    SquaresFromBounded(b, 0);
  }

  lemma ShiftOr(a: Bitboard, b: Bitboard)
    ensures (a | b) >> 1 == (a >> 1) | (b >> 1)
    ensures (a | b) & 1 == 1 <==> a & 1 == 1 || b & 1 == 1
  {
  }

  lemma ShiftAnd(a: Bitboard, b: Bitboard)
    ensures (a & b) >> 1 == (a >> 1) & (b >> 1)
    ensures (a & b) & 1 == 1 <==> a & 1 == 1 && b & 1 == 1
  {
  }

  lemma ShiftXor(a: Bitboard, b: Bitboard)
    ensures (a ^ b) >> 1 == (a >> 1) ^ (b >> 1)
    ensures (a ^ b) & 1 == 1 <==> (a & 1 == 1) != (b & 1 == 1)
  {
  }

  lemma {:induction false} SquaresFromOr(a: Bitboard, b: Bitboard, k: nat)
    requires k <= 64
    ensures SquaresFrom(a | b, k) == SquaresFrom(a, k) + SquaresFrom(b, k)
    decreases 64 - k
  {
    if k < 64 {
      ShiftOr(a, b);
      SquaresFromOr(a >> 1, b >> 1, k + 1);
      UnionStep(a & 1 == 1, b & 1 == 1, SquaresFrom(a >> 1, k + 1), SquaresFrom(b >> 1, k + 1), k);
    }
  }

  lemma {:induction false} SquaresFromAnd(a: Bitboard, b: Bitboard, k: nat)
    requires k <= 64
    ensures SquaresFrom(a & b, k) == SquaresFrom(a, k) * SquaresFrom(b, k)
    decreases 64 - k
  {
    if k < 64 {
      AndStep(a, b, k);
      SquaresFromAnd(a >> 1, b >> 1, k + 1);
      SquaresFromBounded(a >> 1, k + 1);
      SquaresFromBounded(b >> 1, k + 1);
      IntersectionStep(a & 1 == 1, b & 1 == 1, SquaresFrom(a >> 1, k + 1), SquaresFrom(b >> 1, k + 1), k);
    }
  }

  lemma AndStep(a: Bitboard, b: Bitboard, k: nat)
    requires k < 64
    ensures SquaresFrom(a & b, k)
         == (if a & 1 == 1 && b & 1 == 1 then {k} else {}) + SquaresFrom((a >> 1) & (b >> 1), k + 1)
  {
    ShiftAnd(a, b);
  }

  lemma {:induction false} SquaresFromXor(a: Bitboard, b: Bitboard, k: nat)
    requires k <= 64
    ensures SquaresFrom(a ^ b, k) == (SquaresFrom(a, k) - SquaresFrom(b, k)) + (SquaresFrom(b, k) - SquaresFrom(a, k))
    decreases 64 - k
  {
    if k < 64 {
      ShiftXor(a, b);
      SquaresFromXor(a >> 1, b >> 1, k + 1);
      SquaresFromBounded(a >> 1, k + 1);
      SquaresFromBounded(b >> 1, k + 1);
      SymmetricDifferenceStep(a & 1 == 1, b & 1 == 1, SquaresFrom(a >> 1, k + 1), SquaresFrom(b >> 1, k + 1), k);
    }
  }

  lemma UnionStep(p: bool, q: bool, A: set<nat>, B: set<nat>, k: nat)
    ensures (if p || q then {k} else {}) + (A + B)
         == ((if p then {k} else {}) + A) + ((if q then {k} else {}) + B)
  {
  }

  lemma IntersectionStep(p: bool, q: bool, A: set<nat>, B: set<nat>, k: nat)
    requires k !in A && k !in B
    ensures (if p && q then {k} else {}) + (A * B)
         == ((if p then {k} else {}) + A) * ((if q then {k} else {}) + B)
  {
  }

  lemma SymmetricDifferenceStep(p: bool, q: bool, A: set<nat>, B: set<nat>, k: nat)
    requires k !in A && k !in B
    ensures (if p != q then {k} else {}) + ((A - B) + (B - A))
         == (((if p then {k} else {}) + A) - ((if q then {k} else {}) + B))
          + (((if q then {k} else {}) + B) - ((if p then {k} else {}) + A))
  {
  }

  lemma SquaresOr(a: Bitboard, b: Bitboard)
    ensures Squares(a | b) == Squares(a) + Squares(b)
  {
    SquaresFromOr(a, b, 0);
  }

  lemma SquaresUnion(a: Bitboard, b: Bitboard)
    ensures Squares(Union(a, b)) == Squares(a) + Squares(b)
  {
    SquaresOr(a, b);
  }

  lemma SquaresAnd(a: Bitboard, b: Bitboard)
    ensures Squares(a & b) == Squares(a) * Squares(b)
  {
    SquaresFromAnd(a, b, 0);
  }

  lemma SquaresXor(a: Bitboard, b: Bitboard)
    ensures Squares(a ^ b) == (Squares(a) - Squares(b)) + (Squares(b) - Squares(a))
  {
    SquaresFromXor(a, b, 0);
  }

  /** XOR with a word whose squares are among `a`'s removes them. */
  lemma SquaresXorSubset(a: Bitboard, b: Bitboard, sa: set<nat>, sb: set<nat>)
    requires Squares(a) == sa && Squares(b) == sb && sb <= sa
    ensures Squares(a ^ b) == sa - sb
  {
    SquaresXor(a, b);
  }

  /** Clearing the union of two parts of a word clears exactly their squares. */
  lemma SquaresXorUnionSubset(a: Bitboard, b: Bitboard, c: Bitboard, sa: set<nat>, sb: set<nat>, sc: set<nat>)
    requires Squares(a) == sa && Squares(b) == sb && Squares(c) == sc && sb <= sa && sc <= sa
    ensures Squares(a ^ Union(b, c)) == sa - (sb + sc)
  {
    SquaresUnion(b, c);
    SquaresXorSubset(a, Union(b, c), sa, sb + sc);
  }

  lemma AndNotAsXor(a: Bitboard, b: Bitboard)
    ensures a & !b == a ^ (a & b)
  {
  }

  /** Masking with the complement removes squares. */
  lemma SquaresAndNot(a: Bitboard, b: Bitboard)
    ensures Squares(a & !b) == Squares(a) - Squares(b)
  {
    AndNotAsXor(a, b);
    SquaresXor(a, a & b);
    SquaresAnd(a, b);
  }

  lemma {:induction false} SquaresFromZero(k: nat)
    requires k <= 64
    ensures SquaresFrom(0, k) == {}
    decreases 64 - k
  {
    if k < 64 {
      SquaresFromZero(k + 1);
    }
  }

  lemma {:induction false} SquaresFromBit(i: nat, k: nat)
    requires i < 64 && k <= 64
    ensures SquaresFrom(Bit(i), k) == if k + i < 64 then {k + i} else {}
    decreases i
  {
    if k < 64 {
      if i == 0 {
        SquaresFromZero(k + 1);
      } else {
        BitShape(i);
        SquaresFromBit(i - 1, k + 1);
      }
    }
  }

  /** The one-bit word for `i` holds square `i` and nothing else. */
  lemma SquaresBit(i: nat)
    requires i < 64
    ensures Squares(Bit(i)) == {i}
  {
    SquaresFromBit(i, 0);
  }

  /** The word whose low `n` bits are set. */
  function LowMask(n: nat): Bitboard
  {
    if n == 0 then 0 else (LowMask(n - 1) << 1) | 1
  }

  lemma MaskStep(b: Bitboard, m: Bitboard)
    requires b & 1 == 0 && (b >> 1) & m == 0
    ensures b & ((m << 1) | 1) == 0
  {
  }

  lemma {:induction false} EmptyBelowMask(b: Bitboard, k: nat)
    requires k <= 64 && SquaresFrom(b, k) == {}
    ensures b & LowMask(64 - k) == 0
    decreases 64 - k
  {
    if k < 64 {
      assert k !in SquaresFrom(b, k);
      EmptyBelowMask(b >> 1, k + 1);
      MaskStep(b, LowMask(63 - k));
    }
  }

  lemma MaskDoubling(x: Bitboard)
    requires x < TopBit
    ensures ((x << 1) | 1) as int == 2 * x as int + 1
  {
  }

  lemma MaskBelowTop(x: Bitboard, n: nat)
    requires n < 64 && x as int == Pow2(n) - 1
    ensures x < TopBit
  {
    Pow2Monotone(n, 63);
    Pow2Values();
    BelowTop(x);
  }

  /** `LowMask(n)` is the number 2^n - 1. */
  lemma {:induction false} LowMaskValue(n: nat)
    requires n <= 64
    ensures LowMask(n) as int == Pow2(n) - 1
  {
    if n > 0 {
      LowMaskValue(n - 1);
      MaskBelowTop(LowMask(n - 1), n - 1);
      MaskDoubling(LowMask(n - 1));
    }
  }

  lemma AllOnes(x: Bitboard)
    requires x as int == 0xFFFF_FFFF_FFFF_FFFF
    ensures x == 0xFFFF_FFFF_FFFF_FFFF
  {
  }

  /** All 64 bits are set in `LowMask(64)`.  (The width is a parameter so that
      the verifier does not unfold `LowMask` on a literal.) */
  lemma LowMaskFull(n: nat)
    requires n == 64
    ensures LowMask(n) == 0xFFFF_FFFF_FFFF_FFFF
  {
    LowMaskValue(n);
    Pow2Values();
    AllOnes(LowMask(n));
  }

  /** A word holding no square is zero, and zero holds no square. */
  lemma SquaresEmptyIsZero(b: Bitboard)
    ensures Squares(b) == {} <==> b == 0
  {
    if Squares(b) == {} {
      EmptyBelowMask(b, 0);
      LowMaskFull(64);
    } else {
      SquaresFromZero(0);
    }
  }

  /** The abstraction is faithful: a word is determined by its squares. */
  lemma SquaresInjective(a: Bitboard, b: Bitboard)
    requires Squares(a) == Squares(b)
    ensures a == b
  {
    SquaresXor(a, b);
    SquaresEmptyIsZero(a ^ b);
  }

  /** A word whose only square is `i` is `Bit(i)`. */
  lemma SingletonIsBit(b: Bitboard, i: nat)
    requires i < 64 && Squares(b) == {i}
    ensures b == Bit(i)
  {
    SquaresBit(i);
    SquaresInjective(b, Bit(i));
  }

  /** `HasBit` tests membership in the word's squares. */
  lemma HasBitSquares(b: Bitboard, i: nat)
    requires i < 64
    ensures HasBit(b, i) <==> i in Squares(b)
  {
    SquaresBit(i);
    HasBitOfSingle(b, i, Bit(i));
  }

  lemma HasBitOfSingle(b: Bitboard, i: nat, single: Bitboard)
    requires i < 64 && single == Bit(i) && Squares(single) == {i}
    ensures HasBit(b, i) <==> i in Squares(b)
  {
    MeetsWord(single, b, i);
  }

  /** A word whose only square is `i` meets `b` exactly when `b` holds `i`. */
  lemma MeetsWord(single: Bitboard, b: Bitboard, i: nat)
    requires Squares(single) == {i}
    ensures single & b != 0 <==> i in Squares(b)
  {
    SquaresAnd(single, b);
    SquaresEmptyIsZero(single & b);
    MeetsSingleton(i, Squares(single), Squares(b), Squares(single & b));
  }

  lemma MeetsSingleton(i: nat, single: set<nat>, squares: set<nat>, meet: set<nat>)
    requires single == {i} && meet == single * squares
    ensures meet != {} <==> i in squares
  {
    if i in squares {
      assert i in meet;
    }
  }
}
