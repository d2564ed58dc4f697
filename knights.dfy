/** The knight attack table: for each of the 64 squares, the bitboard of the
    squares a knight standing there attacks. */
module Knights {
  import opened Wrappers
  import opened Bitboards
  import opened Utils

  /** The eight (row, column) offsets of a knight jump, in the order they are applied. */
  const JumpOffsets: seq<(int, int)> :=
    [(1, 2), (1, -2), (-1, 2), (-1, -2), (2, 1), (2, -1), (-2, 1), (-2, -1)]

  /** The word holding the on-board targets of `offsets` from a 1-based origin. */
  function JumpBits(row: int, col: int, offsets: seq<(int, int)>): Bitboard
  {
    if offsets == [] then 0
    else
      var last := offsets[|offsets| - 1];
      Union(JumpBits(row, col, offsets[..|offsets| - 1]), SquareBit(row + last.0, col + last.1))
  }

  /** Entry `square` of the table. */
  function KnightEntry(square: nat): Bitboard
  {
    JumpBits(RowCol(square).0, RowCol(square).1, JumpOffsets)
  }

  /** The on-board targets of `offsets` from a 1-based origin. */
  ghost function JumpTargets(row: int, col: int, offsets: seq<(int, int)>): set<nat>
  {
    if offsets == [] then {}
    else
      var last := offsets[|offsets| - 1];
      JumpTargets(row, col, offsets[..|offsets| - 1]) + SquareAt(row + last.0, col + last.1)
  }

  /** The reference geometry: `t` is a knight's jump away from `s`. */
  ghost predicate KnightJump(s: nat, t: nat)
  {
    var dr := Abs(Row(t) - Row(s));
    var dc := Abs(Col(t) - Col(s));
    s < 64 && t < 64 && ((dr == 1 && dc == 2) || (dr == 2 && dc == 1))
  }

  /** `knight_attacks`: OR the one-bit words of the eight jump targets that are on the board. */
  method KnightAttacksFrom(row: int, col: int) returns (bitboard: Bitboard)
    ensures bitboard == JumpBits(row, col, JumpOffsets)
  {
    bitboard := 0;
    var i := 0;
    while i < |JumpOffsets|
      invariant i <= |JumpOffsets|
      invariant bitboard == JumpBits(row, col, JumpOffsets[..i])
    {
      var (r, c) := JumpOffsets[i];
      assert JumpOffsets[..i + 1][..i] == JumpOffsets[..i];
      bitboard := Union(bitboard, SquareBit(row + r, col + c));
      i := i + 1;
    }
    assert JumpOffsets[..i] == JumpOffsets;
  }

  /** `KnightAttacks::new`: the 64 entries, pushed row by row and column by column. */
  method NewKnightAttacks() returns (attacks: seq<Bitboard>)
    ensures |attacks| == 64
    ensures forall s | 0 <= s < 64 :: attacks[s] == KnightEntry(s)
  {
    attacks := [];
    var row := 1;
    while row <= 8
      invariant 1 <= row <= 9
      invariant |attacks| == (row - 1) * 8
      invariant forall s | 0 <= s < |attacks| :: attacks[s] == KnightEntry(s)
    {
      var col := 1;
      while col <= 8
        invariant 1 <= col <= 9
        invariant |attacks| == (row - 1) * 8 + (col - 1)
        invariant forall s | 0 <= s < |attacks| :: attacks[s] == KnightEntry(s)
      {
        var entry := KnightAttacksFrom(row, col);
        assert Index(row, col) == Some(|attacks|);
        RowColOfIndex(row, col);
        assert entry == KnightEntry(|attacks|);
        attacks := attacks + [entry];
        col := col + 1;
      }
      row := row + 1;
    }
  }

  // ---------------------------------------------------------------------------
  // What the table holds

  /** The squares of `JumpBits` are the on-board targets of its offsets. */
  lemma {:induction false} JumpSquares(row: int, col: int, offsets: seq<(int, int)>)
    ensures Squares(JumpBits(row, col, offsets)) == JumpTargets(row, col, offsets)
    decreases |offsets|
  {
    if offsets == [] {
      SquaresEmptyIsZero(0);
    } else {
      JumpSquares(row, col, offsets[..|offsets| - 1]);
      JumpSquaresStep(row, col, offsets);
    }
  }

  /** One step of `JumpSquares`: adding the last offset's word adds its square. */
  lemma JumpSquaresStep(row: int, col: int, offsets: seq<(int, int)>)
    requires offsets != []
    requires Squares(JumpBits(row, col, offsets[..|offsets| - 1])) == JumpTargets(row, col, offsets[..|offsets| - 1])
    ensures Squares(JumpBits(row, col, offsets)) == JumpTargets(row, col, offsets)
  {
    var last := offsets[|offsets| - 1];
    UnionSquareBit(JumpBits(row, col, offsets[..|offsets| - 1]), row + last.0, col + last.1);
  }

  /** Every target comes from some offset. */
  lemma {:induction false} TargetHasOffset(row: int, col: int, offsets: seq<(int, int)>, t: nat)
    requires t in JumpTargets(row, col, offsets)
    ensures exists i | 0 <= i < |offsets| :: Index(row + offsets[i].0, col + offsets[i].1) == Some(t)
    decreases |offsets|
  {
    var n := |offsets|;
    var prefix := offsets[..n - 1];
    if Index(row + offsets[n - 1].0, col + offsets[n - 1].1) != Some(t) {
      TargetHasOffset(row, col, prefix, t);
      var i :| 0 <= i < n - 1 && Index(row + prefix[i].0, col + prefix[i].1) == Some(t);
      assert offsets[i] == prefix[i];
    }
  }

  /** Every offset that lands on the board gives a target. */
  lemma {:induction false} OffsetGivesTarget(row: int, col: int, offsets: seq<(int, int)>, i: nat, t: nat)
    requires i < |offsets| && Index(row + offsets[i].0, col + offsets[i].1) == Some(t)
    ensures t in JumpTargets(row, col, offsets)
    decreases |offsets|
  {
    var n := |offsets|;
    if i < n - 1 {
      var prefix := offsets[..n - 1];
      assert prefix[i] == offsets[i];
      OffsetGivesTarget(row, col, prefix, i, t);
    }
  }

  /** One offset lands on `t` exactly when the row and column differences are that offset. */
  lemma OffsetLands(s: nat, t: nat, dr: int, dc: int)
    requires s < 64 && t < 64
    ensures Index(RowCol(s).0 + dr, RowCol(s).1 + dc) == Some(t)
        <==> Row(t) - Row(s) == dr && Col(t) - Col(s) == dc
  {
    IndexOfRowCol(t);
  }

  /** The offset list holds every (row, column) difference of a knight jump. */
  lemma JumpIsOffset(dr: int, dc: int)
    requires (Abs(dr) == 1 && Abs(dc) == 2) || (Abs(dr) == 2 && Abs(dc) == 1)
    ensures (dr, dc) in JumpOffsets
  {
  }

  /** Every offset in the list is a knight jump difference. */
  lemma OffsetIsJump(i: nat)
    requires i < |JumpOffsets|
    ensures var (dr, dc) := JumpOffsets[i]; (Abs(dr) == 1 && Abs(dc) == 2) || (Abs(dr) == 2 && Abs(dc) == 1)
  {
  }

  /** An offset landing on `t` makes `t` a knight jump away. */
  lemma LandingIsJump(s: nat, t: nat, i: nat)
    requires s < 64 && i < |JumpOffsets|
    requires Index(RowCol(s).0 + JumpOffsets[i].0, RowCol(s).1 + JumpOffsets[i].1) == Some(t)
    ensures KnightJump(s, t)
  {
    OffsetLands(s, t, JumpOffsets[i].0, JumpOffsets[i].1);
    OffsetIsJump(i);
  }

  /** A knight jump is reached by one of the offsets. */
  lemma JumpIsLanding(s: nat, t: nat) returns (i: nat)
    requires KnightJump(s, t)
    ensures i < |JumpOffsets|
    ensures Index(RowCol(s).0 + JumpOffsets[i].0, RowCol(s).1 + JumpOffsets[i].1) == Some(t)
  {
    var dr, dc := Row(t) - Row(s), Col(t) - Col(s);
    JumpIsOffset(dr, dc);
    i :| 0 <= i < |JumpOffsets| && JumpOffsets[i] == (dr, dc);
    OffsetLands(s, t, dr, dc);
  }

  /** Soundness of the table: every target of the knight offsets is a knight jump away. */
  lemma TargetIsJump(s: nat, t: nat)
    requires s < 64 && t in JumpTargets(RowCol(s).0, RowCol(s).1, JumpOffsets)
    ensures KnightJump(s, t)
  {
    TargetHasOffset(RowCol(s).0, RowCol(s).1, JumpOffsets, t);
    var i :| 0 <= i < |JumpOffsets| && Index(RowCol(s).0 + JumpOffsets[i].0, RowCol(s).1 + JumpOffsets[i].1) == Some(t);
    LandingIsJump(s, t, i);
  }

  /** Completeness of the table: every knight jump is a target of the knight offsets. */
  lemma JumpIsTarget(s: nat, t: nat)
    requires s < 64 && KnightJump(s, t)
    ensures t in JumpTargets(RowCol(s).0, RowCol(s).1, JumpOffsets)
  {
    var i := JumpIsLanding(s, t);
    OffsetGivesTarget(RowCol(s).0, RowCol(s).1, JumpOffsets, i, t);
  }

  /** Entry `s` holds exactly the squares a knight's jump away from `s`. */
  lemma KnightEntryMeaning(s: nat, t: nat)
    requires s < 64
    ensures t in Squares(KnightEntry(s)) <==> KnightJump(s, t)
  {
    JumpSquares(RowCol(s).0, RowCol(s).1, JumpOffsets);
    if t in Squares(KnightEntry(s)) {
      TargetIsJump(s, t);
    }
    if KnightJump(s, t) {
      JumpIsTarget(s, t);
    }
  }

  /** The squares a knight's jump away from `s`. */
  ghost function JumpSet(s: nat): set<nat>
  {
    set t: nat | t < 64 && KnightJump(s, t)
  }

  /** Each entry of `table`, as a set, is the set of squares a knight's jump away. */
  ghost predicate JumpTable(table: seq<Bitboard>)
  {
    |table| == 64 && forall s | 0 <= s < 64 :: Squares(table[s]) == JumpSet(s)
  }

  /** The table `knight_attacks` builds is such a table. */
  lemma KnightEntriesJump(table: seq<Bitboard>)
    requires |table| == 64 && forall s | 0 <= s < 64 :: table[s] == KnightEntry(s)
    ensures JumpTable(table)
  {
    forall s | 0 <= s < 64
      ensures Squares(table[s]) == JumpSet(s)
    {
      forall t
        ensures t in Squares(table[s]) <==> t in JumpSet(s)
      {
        KnightEntryMeaning(s, t);
      }
    }
  }

  /** The table is symmetric: a knight on `t` attacks `s` iff one on `s` attacks `t`. */
  lemma KnightSymmetric(s: nat, t: nat)
    requires s < 64 && t < 64
    ensures t in Squares(KnightEntry(s)) <==> s in Squares(KnightEntry(t))
  {
    KnightEntryMeaning(s, t);
    KnightEntryMeaning(t, s);
  }

  /** No entry holds its own square. */
  lemma KnightNotOrigin(s: nat)
    requires s < 64
    ensures s !in Squares(KnightEntry(s))
  {
    KnightEntryMeaning(s, s);
  }

  /** Each offset adds at most one target. */
  lemma {:induction false} JumpTargetsAtMost(row: int, col: int, offsets: seq<(int, int)>)
    ensures |JumpTargets(row, col, offsets)| <= |offsets|
    decreases |offsets|
  {
    if offsets != [] {
      JumpTargetsAtMost(row, col, offsets[..|offsets| - 1]);
    }
  }

  /** No entry attacks more than eight squares. */
  lemma KnightAtMostEight(s: nat)
    ensures |Squares(KnightEntry(s))| <= 8
  {
    JumpSquares(RowCol(s).0, RowCol(s).1, JumpOffsets);
    JumpTargetsAtMost(RowCol(s).0, RowCol(s).1, JumpOffsets);
  }

  /** Entry `s` as a set, given the knight jumps from `s`. */
  lemma EntryOf(s: nat, expected: set<nat>)
    requires s < 64
    requires forall t :: KnightJump(s, t) <==> t in expected
    ensures Squares(KnightEntry(s)) == expected
  {
    forall t
      ensures t in Squares(KnightEntry(s)) <==> t in expected
    {
      KnightEntryMeaning(s, t);
    }
  }

  /** The corner entry of the table: a knight on a1 attacks b3 and c2. */
  lemma CornerEntry(s: nat)
    requires s == 0
    ensures Squares(KnightEntry(s)) == {10, 17}
  {
    EntryOf(s, {10, 17});
  }

  /** The a6 entry: a knight on the edge file attacks four squares. */
  lemma EdgeEntry(s: nat)
    requires s == 40
    ensures Squares(KnightEntry(s)) == {25, 34, 50, 57}
  {
    EntryOf(s, {25, 34, 50, 57});
  }

  /** The c3 entry: a knight with room on every side attacks eight squares. */
  lemma InnerEntry(s: nat)
    requires s == 18
    ensures Squares(KnightEntry(s)) == {1, 3, 8, 12, 24, 28, 33, 35}
  {
    EntryOf(s, {1, 3, 8, 12, 24, 28, 33, 35});
  }
}
