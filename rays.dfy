/** The sliding-piece ray tables and the blocked-ray resolver.

    For each of the eight directions there is a table of 64 words; entry `s` holds
    every square a rook, bishop or queen on `s` could reach along that direction on
    an empty board.  `BlockedRayAttack` cuts such a ray at the nearest own piece
    (excluded) or the nearest enemy piece (included) by XOR-ing away the ray that
    continues from the blocker. */
module RayAttacks {
  import opened Wrappers
  import opened Panics
  import opened Bitboards
  import opened Utils

  datatype Direction = N | E | NW | NE | W | S | SW | SE

  /** The square `offset` steps from (row, col) towards `d`: the closure each ray is defined by. */
  function Offset(d: Direction, row: int, col: int, offset: int): (int, int)
  {
    match d
    case N => (row + offset, col)
    case E => (row, col + offset)
    case NW => (row + offset, col - offset)
    case NE => (row + offset, col + offset)
    case W => (row, col - offset)
    case S => (row - offset, col)
    case SW => (row - offset, col - offset)
    case SE => (row - offset, col + offset)
  }

  /** The directions callers resolve with `forward_ray = true`. */
  predicate Forward(d: Direction)
  {
    d.N? || d.E? || d.NW? || d.NE?
  }

  /** `set_bit`: the word with the square at a 1-based (row, col) added; unchanged off the board. */
  function SetBit(bitboard: Bitboard, rowCol: (int, int)): (r: Bitboard)
    ensures Index(rowCol.0, rowCol.1).None? ==> r == bitboard
  {
    var (row, col) := rowCol;
    if row < 1 || row > 8 || col < 1 || col > 8 then bitboard
    else Union(bitboard, Bit((col - 1) + (row - 1) * 8))
  }

  /** `set_bit` adds exactly the on-board square, and agrees with the one-argument `SquareBit`. */
  lemma SetBitSquares(bitboard: Bitboard, rowCol: (int, int))
    ensures SetBit(bitboard, rowCol) == Union(bitboard, SquareBit(rowCol.0, rowCol.1))
    ensures Squares(SetBit(bitboard, rowCol)) == Squares(bitboard) + SquareAt(rowCol.0, rowCol.1)
  {
    if Index(rowCol.0, rowCol.1).None? {
      assert SquareBit(rowCol.0, rowCol.1) == 0;
      assert Union(bitboard, 0) == bitboard;
    }
    UnionSquareBit(bitboard, rowCol.0, rowCol.1);
  }

  /** The ray word after the first `n` offsets from (row, col). */
  function RayBits(d: Direction, row: int, col: int, n: nat): Bitboard
  {
    if n == 0 then 0 else SetBit(RayBits(d, row, col, n - 1), Offset(d, row, col, n))
  }

  /** Entry `square` of the table for `d`. */
  function RayEntry(d: Direction, square: nat): Bitboard
  {
    RayBits(d, RowCol(square).0, RowCol(square).1, 8)
  }

  /** `table` is the 64-entry table of direction `d`. */
  ghost predicate IsRayTable(d: Direction, table: seq<Bitboard>)
  {
    |table| == 64 && forall s | 0 <= s < 64 :: table[s] == RayEntry(d, s)
  }

  /** `define_ray!`: add the squares 1 to 8 steps away, one `set_bit` at a time. */
  method DefineRay(d: Direction, row: int, col: int) returns (bitboard: Bitboard)
    ensures bitboard == RayBits(d, row, col, 8)
  {
    bitboard := 0;
    var offset := 1;
    while offset <= 8
      invariant 1 <= offset <= 9
      invariant bitboard == RayBits(d, row, col, offset - 1)
    {
      bitboard := SetBit(bitboard, Offset(d, row, col, offset));
      offset := offset + 1;
    }
  }

  /** `make_rays!`: the 64 rays of `d`, pushed row by row and column by column. */
  method MakeRays(d: Direction) returns (rays: seq<Bitboard>)
    ensures IsRayTable(d, rays)
  {
    rays := [];
    var row := 1;
    while row <= 8
      invariant 1 <= row <= 9
      invariant |rays| == (row - 1) * 8
      invariant forall s | 0 <= s < |rays| :: rays[s] == RayEntry(d, s)
    {
      var col := 1;
      while col <= 8
        invariant 1 <= col <= 9
        invariant |rays| == (row - 1) * 8 + (col - 1)
        invariant forall s | 0 <= s < |rays| :: rays[s] == RayEntry(d, s)
      {
        var ray := DefineRay(d, row, col);
        RowColOfIndex(row, col);
        rays := rays + [ray];
        col := col + 1;
      }
      row := row + 1;
    }
  }

  /** `Rays`: the eight tables. */
  datatype Rays = Rays(
    n: seq<Bitboard>, e: seq<Bitboard>, nw: seq<Bitboard>, ne: seq<Bitboard>,
    w: seq<Bitboard>, s: seq<Bitboard>, sw: seq<Bitboard>, se: seq<Bitboard>)
  {
    /** The table of one direction. */
    function Table(d: Direction): seq<Bitboard>
    {
      match d
      case N => n
      case E => e
      case NW => nw
      case NE => ne
      case W => w
      case S => s
      case SW => sw
      case SE => se
    }

    ghost predicate Valid()
    {
      forall d :: IsRayTable(d, Table(d))
    }
  }

  /** `Rays::new`: build the eight tables. */
  method NewRays() returns (rays: Rays)
    ensures rays.Valid()
  {
    var n := MakeRays(N);
    var e := MakeRays(E);
    var nw := MakeRays(NW);
    var ne := MakeRays(NE);
    var w := MakeRays(W);
    var s := MakeRays(S);
    var sw := MakeRays(SW);
    var se := MakeRays(SE);
    rays := Rays(n, e, nw, ne, w, s, sw, se);
    forall d
      ensures IsRayTable(d, rays.Table(d))
    {
    }
  }

  // ---------------------------------------------------------------------------
  // What the tables hold

  /** The reference geometry: `t` lies on the ray from `s` towards `d`. */
  ghost predicate OnRay(d: Direction, s: nat, t: nat)
  {
    var dRow := Row(t) - Row(s);
    var dCol := Col(t) - Col(s);
    s < 64 && t < 64 &&
    match d
    case N => dCol == 0 && dRow > 0
    case S => dCol == 0 && dRow < 0
    case E => dRow == 0 && dCol > 0
    case W => dRow == 0 && dCol < 0
    case NE => dRow == dCol && dRow > 0
    case SW => dRow == dCol && dRow < 0
    case NW => dRow == -dCol && dRow > 0
    case SE => dRow == -dCol && dRow < 0
  }

  /** The on-board squares of the first `n` offsets from (row, col). */
  ghost function RayTargets(d: Direction, row: int, col: int, n: nat): set<nat>
  {
    if n == 0 then {}
    else RayTargets(d, row, col, n - 1) + SquareAt(Offset(d, row, col, n).0, Offset(d, row, col, n).1)
  }

  /** One step of `RaySquares`. */
  lemma RaySquaresStep(d: Direction, row: int, col: int, n: nat)
    requires n > 0
    requires Squares(RayBits(d, row, col, n - 1)) == RayTargets(d, row, col, n - 1)
    ensures Squares(RayBits(d, row, col, n)) == RayTargets(d, row, col, n)
  {
    SetBitSquares(RayBits(d, row, col, n - 1), Offset(d, row, col, n));
  }

  /** The squares of the ray word are the on-board squares of its offsets. */
  lemma {:induction false} RaySquares(d: Direction, row: int, col: int, n: nat)
    ensures Squares(RayBits(d, row, col, n)) == RayTargets(d, row, col, n)
  {
    if n == 0 {
      SquaresEmptyIsZero(0);
    } else {
      RaySquares(d, row, col, n - 1);
      RaySquaresStep(d, row, col, n);
    }
  }

  /** Every target comes from some offset. */
  lemma {:induction false} TargetHasOffset(d: Direction, row: int, col: int, n: nat, t: nat)
    requires t in RayTargets(d, row, col, n)
    ensures exists k | 1 <= k <= n :: Index(Offset(d, row, col, k).0, Offset(d, row, col, k).1) == Some(t)
  {
    if Index(Offset(d, row, col, n).0, Offset(d, row, col, n).1) != Some(t) {
      TargetHasOffset(d, row, col, n - 1, t);
    }
  }

  /** Every offset that lands on the board gives a target. */
  lemma {:induction false} OffsetGivesTarget(d: Direction, row: int, col: int, n: nat, k: nat, t: nat)
    requires 1 <= k <= n && Index(Offset(d, row, col, k).0, Offset(d, row, col, k).1) == Some(t)
    ensures t in RayTargets(d, row, col, n)
  {
    if k < n {
      OffsetGivesTarget(d, row, col, n - 1, k, t);
    }
  }

  /** A square `k >= 1` steps from `s` towards `d` lies on the ray. */
  lemma LandingOnRay(d: Direction, s: nat, t: nat, k: int)
    requires s < 64 && k >= 1
    requires Index(Offset(d, RowCol(s).0, RowCol(s).1, k).0, Offset(d, RowCol(s).0, RowCol(s).1, k).1) == Some(t)
    ensures OnRay(d, s, t)
  {
    var (r, c) := Offset(d, RowCol(s).0, RowCol(s).1, k);
    RowColOfIndex(r, c);
    RowColOfSquare(t);
    RowColOfSquare(s);
  }

  /** A square on the ray is at most eight steps from `s`. */
  lemma RayLanding(d: Direction, s: nat, t: nat) returns (k: int)
    requires OnRay(d, s, t)
    ensures 1 <= k <= 8
    ensures Index(Offset(d, RowCol(s).0, RowCol(s).1, k).0, Offset(d, RowCol(s).0, RowCol(s).1, k).1) == Some(t)
  {
    k := if Row(t) != Row(s) then Abs(Row(t) - Row(s)) else Abs(Col(t) - Col(s));
    RowColOfSquare(t);
    RowColOfSquare(s);
    assert Offset(d, RowCol(s).0, RowCol(s).1, k) == RowCol(t);
    IndexOfRowCol(t);
  }

  /** Soundness of the table: every square of entry `s` lies on the ray. */
  lemma EntryOnRay(d: Direction, s: nat, t: nat)
    requires s < 64 && t in RayTargets(d, RowCol(s).0, RowCol(s).1, 8)
    ensures OnRay(d, s, t)
  {
    TargetHasOffset(d, RowCol(s).0, RowCol(s).1, 8, t);
    var k :| 1 <= k <= 8 && Index(Offset(d, RowCol(s).0, RowCol(s).1, k).0, Offset(d, RowCol(s).0, RowCol(s).1, k).1) == Some(t);
    LandingOnRay(d, s, t, k);
  }

  /** Completeness of the table: every square on the ray is in entry `s`. */
  lemma RayInEntry(d: Direction, s: nat, t: nat)
    requires OnRay(d, s, t)
    ensures t in RayTargets(d, RowCol(s).0, RowCol(s).1, 8)
  {
    var k := RayLanding(d, s, t);
    OffsetGivesTarget(d, RowCol(s).0, RowCol(s).1, 8, k, t);
  }

  /** Entry `s` of the table for `d` holds exactly the squares on the ray from `s`. */
  lemma RayEntryMeaning(d: Direction, s: nat, t: nat)
    requires s < 64
    ensures t in Squares(RayEntry(d, s)) <==> OnRay(d, s, t)
  {
    RaySquares(d, RowCol(s).0, RowCol(s).1, 8);
    if t in Squares(RayEntry(d, s)) {
      EntryOnRay(d, s, t);
    }
    if OnRay(d, s, t) {
      RayInEntry(d, s, t);
    }
  }

  /** The squares on the ray from `s`, by the reference geometry. */
  ghost function RaySet(d: Direction, s: nat): set<nat>
  {
    set t: nat | t < 64 && OnRay(d, s, t)
  }

  /** Entry `s` of the table, as a set, is the ray from `s`. */
  lemma EntrySquares(d: Direction, s: nat)
    requires s < 64
    ensures Squares(RayEntry(d, s)) == RaySet(d, s)
  {
    SquaresBounded(RayEntry(d, s));
    forall t
      ensures t in Squares(RayEntry(d, s)) <==> t in RaySet(d, s)
    {
      RayEntryMeaning(d, s, t);
    }
  }

  /** A ray never holds its origin; the forward directions hold only higher
      squares and the others only lower ones. */
  lemma RayOrder(d: Direction, s: nat, t: nat)
    requires OnRay(d, s, t)
    ensures s != t
    ensures Forward(d) <==> s < t
  {
  }

  /** Going on along a ray stays on it. */
  lemma RayTransitive(d: Direction, s: nat, t: nat, u: nat)
    requires OnRay(d, s, t) && OnRay(d, t, u)
    ensures OnRay(d, s, u)
  {
  }

  /** Two squares of one ray are one behind the other. */
  lemma RayTotal(d: Direction, s: nat, t: nat, u: nat)
    requires OnRay(d, s, t) && OnRay(d, s, u)
    ensures t == u || OnRay(d, t, u) || OnRay(d, u, t)
  {
  }

  /** The ray from a square of the ray from `s` is part of the ray from `s`. */
  lemma RaySetNesting(d: Direction, s: nat, t: nat)
    requires OnRay(d, s, t)
    ensures RaySet(d, t) <= RaySet(d, s)
  {
    forall u | u in RaySet(d, t)
      ensures u in RaySet(d, s)
    {
      RayTransitive(d, s, t, u);
    }
  }

  /** Nesting of the tables: for `t` in entry `s`, entry `t` is part of entry `s` and misses `t`. */
  lemma RayNesting(d: Direction, s: nat, t: nat)
    requires s < 64 && t in Squares(RayEntry(d, s))
    ensures Squares(RayEntry(d, t)) <= Squares(RayEntry(d, s))
    ensures t !in Squares(RayEntry(d, t))
  {
    EntrySquares(d, s);
    EntrySquares(d, t);
    RaySetNesting(d, s, t);
  }

  /** Entry `s` of a table, given the squares on its ray. */
  lemma EntryOf(d: Direction, s: nat, expected: set<nat>)
    requires s < 64
    requires forall t :: OnRay(d, s, t) <==> t in expected
    ensures Squares(RayEntry(d, s)) == expected
  {
    EntrySquares(d, s);
  }

  /** The south-west entry of g6: the diagonal f5, e4, d3, c2, b1. */
  lemma SouthWestOfG6(s: nat)
    requires s == 46
    ensures Squares(RayEntry(SW, s)) == {37, 28, 19, 10, 1}
  {
    EntryOf(SW, s, {37, 28, 19, 10, 1});
  }

  /** The west entry of g6: the six squares a6 to f6. */
  lemma WestOfG6(s: nat)
    requires s == 46
    ensures Squares(RayEntry(W, s)) == {40, 41, 42, 43, 44, 45}
  {
    EntryOf(W, s, {40, 41, 42, 43, 44, 45});
  }

  /** The north-east entry of g6: the one square h7 before the edge. */
  lemma NorthEastOfG6(s: nat)
    requires s == 46
    ensures Squares(RayEntry(NE, s)) == {55}
  {
    EntryOf(NE, s, {55});
  }

  // ---------------------------------------------------------------------------
  // The blocked-ray resolver

  /** `h` is the highest square of `squares`. */
  ghost predicate IsHighest(h: nat, squares: set<nat>)
  {
    h in squares && forall t | t in squares :: t <= h
  }

  /** `first_hit`: the scanned square of `ray & occupancy`, if there is one.  A forward
      ray uses `bit_scan`, which is meaningful only for a one-bit overlap. */
  function FirstHit(ray: Bitboard, forward: bool, occupancy: Bitboard): (r: Option<nat>)
    ensures r.None? <==> ray & occupancy == 0
    ensures r.Some? ==> r.value <= 64
    ensures r.Some? && !forward ==> IsHighest(r.value, Squares(ray & occupancy))
  {
    var intersection := ray & occupancy;
    if intersection == 0 then None
    else if forward then Some(BitScan(intersection))
    else Some(BitScanBackwards(intersection))
  }

  /** On a one-square overlap the forward scan finds that square. */
  lemma FirstHitSingle(ray: Bitboard, occupancy: Bitboard, t: nat)
    requires Squares(ray & occupancy) == {t}
    ensures FirstHit(ray, true, occupancy) == Some(t)
  {
    SquaresBounded(ray & occupancy);
    SquaresEmptyIsZero(ray & occupancy);
    SingletonIsBit(ray & occupancy, t);
    BitScanOfBit(t);
  }

  /** `blocked_ray_attack`: cut `ray` at the first own piece (excluded) and the first
      enemy piece (included) by XOR-ing away the continuing rays from `family`.  A hit
      index outside `family` or a shift by 64 aborts. */
  function BlockedRayAttack(ray: Bitboard, family: seq<Bitboard>, forward: bool, own: Bitboard, enemy: Bitboard)
    : (r: Result<Bitboard, Panic>)
    ensures ray & own == 0 && ray & enemy == 0 ==> r == Ok(ray)
  {
    Resolve(ray, family, FirstHit(ray, forward, ray & own), FirstHit(ray, forward, ray & enemy))
  }

  /** The branch of `blocked_ray_attack` on the first own hit and the first enemy hit. */
  function Resolve(ray: Bitboard, family: seq<Bitboard>, ownHit: Option<nat>, enemyHit: Option<nat>)
    : Result<Bitboard, Panic>
  {
    match (ownHit, enemyHit)
    case (None, None) => Ok(ray)
    case (None, Some(e)) =>
      if e >= |family| then Err(IndexOutOfRange)
      else Ok(ray ^ family[e])
    case (Some(o), None) =>
      if o >= |family| then Err(IndexOutOfRange)
      else if o >= 64 then Err(ShiftOverflow)
      else Ok(ray ^ Union(family[o], Bit(o)))
    case (Some(o), Some(e)) =>
      if o >= |family| || e >= |family| then Err(IndexOutOfRange)
      else if o >= 64 then Err(ShiftOverflow)
      else Ok(ray ^ Union(Union(family[o], Bit(o)), family[e]))
  }

  // ---------------------------------------------------------------------------
  // What the resolver computes

  /** No square strictly between `s` and `t` on the ray holds a piece. */
  ghost predicate Unblocked(d: Direction, s: nat, t: nat, pieces: set<nat>)
  {
    forall u | OnRay(d, s, u) && OnRay(d, u, t) :: u !in pieces
  }

  /** The reference: the squares a slider on `s` reaches towards `d` — on the ray,
      not holding an own piece, and with no piece of either side before them. */
  ghost function Reach(d: Direction, s: nat, own: set<nat>, enemy: set<nat>): set<nat>
  {
    set t: nat | t < 64 && OnRay(d, s, t) && t !in own && Unblocked(d, s, t, own + enemy)
  }

  /** `h` is the nearest of `hits` towards `d`: every other hit lies beyond it. */
  ghost predicate Nearest(d: Direction, h: nat, hits: set<nat>)
  {
    h in hits && forall u | u in hits :: u == h || OnRay(d, h, u)
  }

  lemma SingleElement(squares: set<nat>, t: nat)
    requires |squares| <= 1 && t in squares
    ensures squares == {t}
  {
    assert |squares - {t}| == 0;
  }

  /** On a ray, `first_hit` finds the nearest blocker: always on a backward ray,
      and on a forward ray when the overlap has at most one square. */
  lemma FirstHitNearest(d: Direction, s: nat, ray: Bitboard, occupancy: Bitboard)
    requires s < 64 && Squares(ray) == RaySet(d, s)
    requires Forward(d) ==> |Squares(ray & occupancy)| <= 1
    ensures var hit := FirstHit(ray, Forward(d), ray & occupancy);
      && (hit.None? <==> RaySet(d, s) * Squares(occupancy) == {})
      && (hit.Some? ==> Nearest(d, hit.value, RaySet(d, s) * Squares(occupancy)))
  {
    var hits := RaySet(d, s) * Squares(occupancy);
    SquaresAnd(ray, occupancy);
    SquaresAnd(ray, ray & occupancy);
    SquaresEmptyIsZero(ray & (ray & occupancy));
    if hits != {} {
      if Forward(d) {
        var t :| t in hits;
        SingleElement(hits, t);
        FirstHitSingle(ray, ray & occupancy, t);
      } else {
        var h := FirstHit(ray, false, ray & occupancy).value;
        forall u | u in hits
          ensures u == h || OnRay(d, h, u)
        {
          if u != h {
            RayTotal(d, s, h, u);
            if OnRay(d, u, h) {
              RayOrder(d, u, h);
            }
          }
        }
      }
    }
  }

  /** The squares the resolver removes: from the own hit on (inclusive), and beyond the enemy hit. */
  ghost function Cut(d: Direction, ownHit: Option<nat>, enemyHit: Option<nat>): set<nat>
  {
    match (ownHit, enemyHit)
    case (None, None) => {}
    case (None, Some(e)) => RaySet(d, e)
    case (Some(o), None) => RaySet(d, o) + {o}
    case (Some(o), Some(e)) => RaySet(d, o) + {o} + RaySet(d, e)
  }

  /** Every entry of `table`, as a set, is the ray from its square. */
  ghost predicate RayTableSquares(d: Direction, table: seq<Bitboard>)
  {
    |table| == 64 && forall i | 0 <= i < 64 :: Squares(table[i]) == RaySet(d, i)
  }

  lemma TableSquares(d: Direction, table: seq<Bitboard>)
    requires IsRayTable(d, table)
    ensures RayTableSquares(d, table)
  {
    forall i | 0 <= i < 64
      ensures Squares(table[i]) == RaySet(d, i)
    {
      EntrySquares(d, i);
    }
  }

  /** The squares of the word an own hit cuts away. */
  lemma OwnCutSquares(d: Direction, after: Bitboard, o: nat)
    requires Squares(after) == RaySet(d, o) && o < 64
    ensures Squares(Union(after, Bit(o))) == RaySet(d, o) + {o}
  {
    SquaresUnion(after, Bit(o));
    SquaresBit(o);
  }

  /** On a ray word whose family holds the rays, each branch removes exactly `Cut`. */
  lemma ResolveCut(d: Direction, s: nat, ray: Bitboard, family: seq<Bitboard>, ownHit: Option<nat>, enemyHit: Option<nat>)
    requires |family| == 64 && Squares(ray) == RaySet(d, s)
    requires ownHit.Some? ==>
      ownHit.value < 64 && ownHit.value in RaySet(d, s) && Squares(family[ownHit.value]) == RaySet(d, ownHit.value)
    requires enemyHit.Some? ==>
      enemyHit.value < 64 && enemyHit.value in RaySet(d, s) && Squares(family[enemyHit.value]) == RaySet(d, enemyHit.value)
    ensures Resolve(ray, family, ownHit, enemyHit).Ok?
    ensures Squares(Resolve(ray, family, ownHit, enemyHit).value) == RaySet(d, s) - Cut(d, ownHit, enemyHit)
  {
    match (ownHit, enemyHit)
    case (None, None) =>
    case (None, Some(e)) => ResolveEnemy(d, s, ray, family, e);
    case (Some(o), None) => ResolveOwn(d, s, ray, family, o);
    case (Some(o), Some(e)) => ResolveBoth(d, s, ray, family, o, e);
  }

  lemma EnemyBranch(ray: Bitboard, family: seq<Bitboard>, e: nat)
    requires e < |family|
    ensures Resolve(ray, family, None, Some(e)).Ok?
    ensures Resolve(ray, family, None, Some(e)).value == ray ^ family[e]
  {
  }

  lemma OwnBranch(ray: Bitboard, family: seq<Bitboard>, o: nat)
    requires o < |family| && o < 64
    ensures Resolve(ray, family, Some(o), None).Ok?
    ensures Resolve(ray, family, Some(o), None).value == ray ^ Union(family[o], Bit(o))
  {
  }

  lemma BothBranch(ray: Bitboard, family: seq<Bitboard>, o: nat, e: nat)
    requires o < |family| && e < |family| && o < 64
    ensures Resolve(ray, family, Some(o), Some(e)).Ok?
    ensures Resolve(ray, family, Some(o), Some(e)).value == ray ^ Union(Union(family[o], Bit(o)), family[e])
  {
  }

  lemma CutEnemy(d: Direction, e: nat)
    ensures Cut(d, None, Some(e)) == RaySet(d, e)
  {
  }

  lemma CutOwn(d: Direction, o: nat)
    ensures Cut(d, Some(o), None) == RaySet(d, o) + {o}
  {
  }

  lemma CutBoth(d: Direction, o: nat, e: nat)
    ensures Cut(d, Some(o), Some(e)) == RaySet(d, o) + {o} + RaySet(d, e)
  {
  }

  lemma ResolveEnemy(d: Direction, s: nat, ray: Bitboard, family: seq<Bitboard>, e: nat)
    requires |family| == 64 && Squares(ray) == RaySet(d, s)
    requires e < 64 && e in RaySet(d, s) && Squares(family[e]) == RaySet(d, e)
    ensures Resolve(ray, family, None, Some(e)).Ok?
    ensures Squares(Resolve(ray, family, None, Some(e)).value) == RaySet(d, s) - Cut(d, None, Some(e))
  {
    EnemyBranch(ray, family, e);
    CutEnemy(d, e);
    EnemyCutWord(d, s, ray, family[e], e, Resolve(ray, family, None, Some(e)).value);
  }

  lemma ResolveOwn(d: Direction, s: nat, ray: Bitboard, family: seq<Bitboard>, o: nat)
    requires |family| == 64 && Squares(ray) == RaySet(d, s)
    requires o < 64 && o in RaySet(d, s) && Squares(family[o]) == RaySet(d, o)
    ensures Resolve(ray, family, Some(o), None).Ok?
    ensures Squares(Resolve(ray, family, Some(o), None).value) == RaySet(d, s) - Cut(d, Some(o), None)
  {
    OwnBranch(ray, family, o);
    CutOwn(d, o);
    OwnCutWord(d, s, ray, family[o], o, Resolve(ray, family, Some(o), None).value);
  }

  lemma ResolveBoth(d: Direction, s: nat, ray: Bitboard, family: seq<Bitboard>, o: nat, e: nat)
    requires |family| == 64 && Squares(ray) == RaySet(d, s)
    requires o < 64 && o in RaySet(d, s) && Squares(family[o]) == RaySet(d, o)
    requires e < 64 && e in RaySet(d, s) && Squares(family[e]) == RaySet(d, e)
    ensures Resolve(ray, family, Some(o), Some(e)).Ok?
    ensures Squares(Resolve(ray, family, Some(o), Some(e)).value) == RaySet(d, s) - Cut(d, Some(o), Some(e))
  {
    BothBranch(ray, family, o, e);
    CutBoth(d, o, e);
    OwnCutSquares(d, family[o], o);
    BothCutWord(d, s, ray, Union(family[o], Bit(o)), family[e], o, e, Resolve(ray, family, Some(o), Some(e)).value);
  }

  /** The enemy-only branch removes the squares beyond the enemy hit. */
  lemma EnemyCutWord(d: Direction, s: nat, ray: Bitboard, after: Bitboard, e: nat, w: Bitboard)
    requires Squares(ray) == RaySet(d, s) && Squares(after) == RaySet(d, e) && e in RaySet(d, s)
    requires w == ray ^ after
    ensures Squares(w) == RaySet(d, s) - RaySet(d, e)
  {
    RaySetNesting(d, s, e);
    SquaresXorSubset(ray, after, RaySet(d, s), RaySet(d, e));
  }

  /** The own-only branch removes the own hit and the squares beyond it. */
  lemma OwnCutWord(d: Direction, s: nat, ray: Bitboard, after: Bitboard, o: nat, w: Bitboard)
    requires Squares(ray) == RaySet(d, s) && Squares(after) == RaySet(d, o) && o in RaySet(d, s)
    requires w == ray ^ Union(after, Bit(o))
    ensures Squares(w) == RaySet(d, s) - (RaySet(d, o) + {o})
  {
    OwnCutSquares(d, after, o);
    RaySetNesting(d, s, o);
    SquaresXorSubset(ray, Union(after, Bit(o)), RaySet(d, s), RaySet(d, o) + {o});
  }

  /** The own hit and the squares beyond it lie on the ray. */
  lemma OwnCutInRay(d: Direction, s: nat, o: nat)
    requires o in RaySet(d, s)
    ensures RaySet(d, o) + {o} <= RaySet(d, s)
  {
    RaySetNesting(d, s, o);
  }

  /** The two-hit branch removes both cuts. */
  lemma BothCutWord(d: Direction, s: nat, ray: Bitboard, ownCut: Bitboard, enemyAfter: Bitboard, o: nat, e: nat,
                     w: Bitboard)
    requires Squares(ray) == RaySet(d, s) && o in RaySet(d, s) && e in RaySet(d, s)
    requires Squares(ownCut) == RaySet(d, o) + {o} && Squares(enemyAfter) == RaySet(d, e)
    requires w == ray ^ Union(ownCut, enemyAfter)
    ensures Squares(w) == RaySet(d, s) - (RaySet(d, o) + {o} + RaySet(d, e))
  {
    OwnCutInRay(d, s, o);
    RaySetNesting(d, s, e);
    SquaresXorUnionSubset(ray, ownCut, enemyAfter, RaySet(d, s), RaySet(d, o) + {o}, RaySet(d, e));
  }


  /** A square beyond `u` that is not beyond `o` means `u` is not beyond `o` either. */
  lemma NotBeyond(d: Direction, o: nat, u: nat, t: nat)
    requires OnRay(d, u, t) && !OnRay(d, o, t)
    ensures u != o && !OnRay(d, o, u)
  {
  }

  /** A square of the ray holding a piece lies at or beyond the nearest hit. */
  lemma HitCovers(d: Direction, s: nat, hit: Option<nat>, pieces: set<nat>, t: nat)
    requires hit.None? <==> RaySet(d, s) * pieces == {}
    requires hit.Some? ==> Nearest(d, hit.value, RaySet(d, s) * pieces)
    requires t in RaySet(d, s)
    ensures t in pieces ==> hit.Some? && (t == hit.value || OnRay(d, hit.value, t))
  {
    if t in pieces {
      assert t in RaySet(d, s) * pieces;
    }
  }

  /** A square reached is not cut. */
  lemma ReachNotCut(d: Direction, s: nat, own: set<nat>, enemy: set<nat>, ownHit: Option<nat>, enemyHit: Option<nat>, t: nat)
    requires ownHit.Some? ==> Nearest(d, ownHit.value, RaySet(d, s) * own)
    requires enemyHit.Some? ==> Nearest(d, enemyHit.value, RaySet(d, s) * enemy)
    requires t in Reach(d, s, own, enemy)
    ensures t !in Cut(d, ownHit, enemyHit)
  {
    if ownHit.Some? {
      var o := ownHit.value;
      assert OnRay(d, s, o) && o in own + enemy;
      assert !OnRay(d, o, t);
      assert t != o;
    }
    if enemyHit.Some? {
      var e := enemyHit.value;
      assert OnRay(d, s, e) && e in own + enemy;
      assert !OnRay(d, e, t);
    }
  }

  /** A square of the ray that is not cut is reached. */
  lemma UncutReached(d: Direction, s: nat, own: set<nat>, enemy: set<nat>, ownHit: Option<nat>, enemyHit: Option<nat>, t: nat)
    requires ownHit.None? <==> RaySet(d, s) * own == {}
    requires ownHit.Some? ==> Nearest(d, ownHit.value, RaySet(d, s) * own)
    requires enemyHit.None? <==> RaySet(d, s) * enemy == {}
    requires enemyHit.Some? ==> Nearest(d, enemyHit.value, RaySet(d, s) * enemy)
    requires t in RaySet(d, s) && t !in Cut(d, ownHit, enemyHit)
    ensures t in Reach(d, s, own, enemy)
  {
    HitCovers(d, s, ownHit, own, t);
    forall u | OnRay(d, s, u) && OnRay(d, u, t)
      ensures u !in own + enemy
    {
      HitCovers(d, s, ownHit, own, u);
      HitCovers(d, s, enemyHit, enemy, u);
      if ownHit.Some? {
        NotBeyond(d, ownHit.value, u, t);
      }
      if enemyHit.Some? {
        NotBeyond(d, enemyHit.value, u, t);
      }
    }
  }

  /** As sets, `Reach` is the ray less `Cut` at the nearest hits. */
  lemma ReachCut(d: Direction, s: nat, own: set<nat>, enemy: set<nat>, ownHit: Option<nat>, enemyHit: Option<nat>)
    requires ownHit.None? <==> RaySet(d, s) * own == {}
    requires ownHit.Some? ==> Nearest(d, ownHit.value, RaySet(d, s) * own)
    requires enemyHit.None? <==> RaySet(d, s) * enemy == {}
    requires enemyHit.Some? ==> Nearest(d, enemyHit.value, RaySet(d, s) * enemy)
    ensures Reach(d, s, own, enemy) == RaySet(d, s) - Cut(d, ownHit, enemyHit)
  {
    forall t | t in Reach(d, s, own, enemy)
      ensures t !in Cut(d, ownHit, enemyHit)
    {
      ReachNotCut(d, s, own, enemy, ownHit, enemyHit, t);
    }
    forall t | t in RaySet(d, s) - Cut(d, ownHit, enemyHit)
      ensures t in Reach(d, s, own, enemy)
    {
      UncutReached(d, s, own, enemy, ownHit, enemyHit, t);
    }
  }

  /** The resolver at the nearest hits yields `Reach`. */
  lemma ResolveReach(d: Direction, s: nat, ray: Bitboard, family: seq<Bitboard>, own: Bitboard, enemy: Bitboard,
                     ownHit: Option<nat>, enemyHit: Option<nat>)
    requires |family| == 64 && Squares(ray) == RaySet(d, s)
    requires ownHit.None? <==> RaySet(d, s) * Squares(own) == {}
    requires ownHit.Some? ==> Nearest(d, ownHit.value, RaySet(d, s) * Squares(own))
    requires enemyHit.None? <==> RaySet(d, s) * Squares(enemy) == {}
    requires enemyHit.Some? ==> Nearest(d, enemyHit.value, RaySet(d, s) * Squares(enemy))
    requires ownHit.Some? ==> Squares(family[ownHit.value]) == RaySet(d, ownHit.value)
    requires enemyHit.Some? ==> Squares(family[enemyHit.value]) == RaySet(d, enemyHit.value)
    ensures Resolve(ray, family, ownHit, enemyHit).Ok?
    ensures Squares(Resolve(ray, family, ownHit, enemyHit).value) == Reach(d, s, Squares(own), Squares(enemy))
  {
    ResolveCut(d, s, ray, family, ownHit, enemyHit);
    ReachCut(d, s, Squares(own), Squares(enemy), ownHit, enemyHit);
  }

  /** Correctness of `blocked_ray_attack` on the ray from `s` and a family holding
      the rays towards `d`: it never fails and yields exactly `Reach` — always on a
      backward ray, and on a forward ray when each overlap has at most one square. */
  lemma BlockedRayAttackReach(d: Direction, s: nat, ray: Bitboard, family: seq<Bitboard>, own: Bitboard, enemy: Bitboard)
    requires s < 64 && Squares(ray) == RaySet(d, s) && RayTableSquares(d, family)
    requires Forward(d) ==> |Squares(ray & own)| <= 1 && |Squares(ray & enemy)| <= 1
    ensures BlockedRayAttack(ray, family, Forward(d), own, enemy).Ok?
    ensures Squares(BlockedRayAttack(ray, family, Forward(d), own, enemy).value)
         == Reach(d, s, Squares(own), Squares(enemy))
  {
    var ownHit := FirstHit(ray, Forward(d), ray & own);
    var enemyHit := FirstHit(ray, Forward(d), ray & enemy);
    FirstHitNearest(d, s, ray, own);
    FirstHitNearest(d, s, ray, enemy);
    ResolveReach(d, s, ray, family, own, enemy, ownHit, enemyHit);
  }

  /** Every table `Rays::new` builds holds, entry by entry, the rays of its direction. */
  lemma ValidSquares(rays: Rays, d: Direction)
    requires rays.Valid()
    ensures RayTableSquares(d, rays.Table(d))
  {
    TableSquares(d, rays.Table(d));
  }
}
