/** What the generators and the check test of `MoveGeneration` compute, stated
    against the reference geometry of the board: knight jumps, rays with their
    blockers, king steps, the pawn rules, and the attacks on a king. */
module MoveRules {
  import opened Wrappers
  import opened Panics
  import opened Bitboards
  import opened Utils
  import opened Knights
  import opened RayAttacks
  import opened Positions
  import opened MoveGeneration

  // ---------------------------------------------------------------------------
  // Applying a list of moves

  /** The results collected in order; the first failure aborts. */
  ghost function Collect(results: seq<Result<State, Panic>>): Result<seq<State>, Panic>
  {
    if results == [] then Ok([])
    else
      var n := |results| - 1;
      var earlier :- Collect(results[..n]);
      var last :- results[n];
      Ok(earlier + [last])
  }

  lemma {:induction false} CollectEach(results: seq<Result<State, Panic>>)
    ensures Collect(results).Ok? <==> forall i | 0 <= i < |results| :: results[i].Ok?
    ensures Collect(results).Ok? ==>
            |Collect(results).value| == |results| &&
            forall i | 0 <= i < |results| :: Collect(results).value[i] == results[i].value
  {
    if results != [] {
      var n := |results| - 1;
      var front := results[..n];
      CollectEach(front);
      assert forall i | 0 <= i < n :: front[i] == results[i];
    }
  }

  /** The single moves, one per target. */
  ghost function Tries(st: State, from: Bitboard, targets: seq<nat>): (r: seq<Result<State, Panic>>)
    requires WellFormed(st)
    ensures |r| == |targets|
    ensures forall i | 0 <= i < |targets| :: r[i] == Moved(st, from, targets[i])
  {
    seq(|targets|, i requires 0 <= i < |targets| => Moved(st, from, targets[i]))
  }

  lemma {:induction false} MoveAllCollect(st: State, from: Bitboard, targets: seq<nat>, results: seq<Result<State, Panic>>)
    requires WellFormed(st) && |results| == |targets|
    requires forall i | 0 <= i < |targets| :: results[i] == Moved(st, from, targets[i])
    ensures MoveAll(st, from, targets) == Collect(results)
  {
    if targets != [] {
      var n := |targets| - 1;
      MoveAllCollect(st, from, targets[..n], results[..n]);
    }
  }

  /** A list of moves succeeds exactly when every single move does, and then holds
      the result of each, in the order of the targets. */
  lemma MoveAllEach(st: State, from: Bitboard, targets: seq<nat>)
    requires WellFormed(st)
    ensures MoveAll(st, from, targets).Ok? <==> forall i | 0 <= i < |targets| :: Moved(st, from, targets[i]).Ok?
    ensures MoveAll(st, from, targets).Ok? ==>
            forall i | 0 <= i < |targets| :: Moved(st, from, targets[i]) == Ok(MoveAll(st, from, targets).value[i])
  {
    MoveAllCollect(st, from, targets, Tries(st, from, targets));
    CollectEach(Tries(st, from, targets));
  }

  /** A list of moves that succeeds holds the result of the move to each target, and
      nothing else. */
  lemma MoveAllMembers(st: State, from: Bitboard, targets: seq<nat>)
    requires WellFormed(st) && MoveAll(st, from, targets).Ok?
    ensures forall t | t in targets :: Moved(st, from, t).Ok? && Moved(st, from, t).value in MoveAll(st, from, targets).value
    ensures forall x | x in MoveAll(st, from, targets).value :: exists t | t in targets :: Moved(st, from, t) == Ok(x)
  {
    var moves := MoveAll(st, from, targets).value;
    MoveAllEach(st, from, targets);
    forall t | t in targets
      ensures Moved(st, from, t).Ok? && Moved(st, from, t).value in moves
    {
      var i :| 0 <= i < |targets| && targets[i] == t;
      assert moves[i] in moves;
    }
    forall x | x in moves
      ensures exists t | t in targets :: Moved(st, from, t) == Ok(x)
    {
      var i :| 0 <= i < |moves| && moves[i] == x;
      assert targets[i] in targets;
    }
  }

  // ---------------------------------------------------------------------------
  // Knights

  /** A knight on `s` moves to `t` exactly when `t` is a knight's jump away and does
      not hold a piece of its own side. */
  lemma KnightTargetAt(st: State, s: nat, color: Color, t: nat)
    requires s < 64
    ensures t in KnightTargets(st, KnightEntry(s), color) <==>
            KnightJump(s, t) && t !in Squares(Occupancy(st, color))
  {
    SquaresAndNot(KnightEntry(s), Occupancy(st, color));
    KnightEntryMeaning(s, t);
  }

  /** A knight on `s` moves to exactly the squares a knight's jump away that do not
      hold a piece of its own side. */
  lemma KnightTargetsMeaning(st: State, s: nat, color: Color)
    requires s < 64
    ensures forall t :: t in KnightTargets(st, KnightEntry(s), color) <==>
                        KnightJump(s, t) && t !in Squares(Occupancy(st, color))
  {
    forall t {
      KnightTargetAt(st, s, color, t);
    }
  }

  /** With the table `knight_attacks` builds, the moves of `generate_knight_moves`
      are exactly the knight's moves to the squares of `KnightTargetsMeaning`. */
  lemma KnightMovesMeaning(st: State, knights: seq<Bitboard>, piece: Piece, s: nat)
    requires WellFormed(st) && |knights| == 64 && forall k | 0 <= k < 64 :: knights[k] == KnightEntry(k)
    requires s == BitScan(piece.position) && s < 64 && KnightMoves(st, knights, piece).Ok?
    ensures forall t | KnightJump(s, t) && t !in Squares(Occupancy(st, piece.color)) ::
              Moved(st, piece.position, t).Ok? && Moved(st, piece.position, t).value in KnightMoves(st, knights, piece).value
    ensures forall x | x in KnightMoves(st, knights, piece).value ::
              exists t | KnightJump(s, t) && t !in Squares(Occupancy(st, piece.color)) :: Moved(st, piece.position, t) == Ok(x)
  {
    var targets := KnightTargets(st, knights[s], piece.color);
    assert KnightMoves(st, knights, piece) == MoveAll(st, piece.position, targets);
    KnightTargetsMeaning(st, s, piece.color);
    MoveAllMembers(st, piece.position, targets);
  }

  // ---------------------------------------------------------------------------
  // Sliding pieces

  /** `table` holds the rays towards `d`, and on a forward ray the ray from `s` holds
      at most one piece of each side. */
  ghost predicate TableReady(st: State, d: Direction, table: seq<Bitboard>, color: Color, s: nat)
  {
    s < 64 && RayTableSquares(d, table) &&
    (Forward(d) ==> |Squares(table[s] & Occupancy(st, color))| <= 1 &&
                    |Squares(table[s] & Occupancy(st, Opposite(color)))| <= 1)
  }

  /** The same, for the table of `d` in `rays` and the king's side. */
  ghost predicate RayReady(st: State, rays: Rays, d: Direction, king: Piece, s: nat)
  {
    TableReady(st, d, rays.Table(d), king.color, s)
  }

  /** With a table holding the rays towards `d`, `get_attacks` yields exactly the
      squares the piece reaches along the direction: on the ray, not its own side's,
      and with no piece before them.  On the four forward rays this needs at most one
      piece of each side on the ray, because the source scans a multi-bit word there. */
  lemma SliderTargetsMeaning(st: State, table: seq<Bitboard>, d: Direction, piece: Piece, s: nat, ray: Bitboard)
    requires RayTableSquares(d, table) && s == BitScan(piece.position) && s < 64 && ray == table[s]
    requires Forward(d) ==> |Squares(ray & Occupancy(st, piece.color))| <= 1 &&
                            |Squares(ray & Occupancy(st, Opposite(piece.color)))| <= 1
    ensures SliderTargets(st, table, Forward(d), piece).Ok?
    ensures forall t :: t in SliderTargets(st, table, Forward(d), piece).value <==>
                        t in Reach(d, s, Squares(Occupancy(st, piece.color)), Squares(Occupancy(st, Opposite(piece.color))))
  {
    SliderTargetsWithin(st, table, d, piece, s, ray, Occupancy(st, piece.color), Occupancy(st, Opposite(piece.color)),
                        Reach(d, s, Squares(Occupancy(st, piece.color)), Squares(Occupancy(st, Opposite(piece.color)))));
  }

  /** The same, with the occupancies and the reached set as parameters. */
  lemma SliderTargetsWithin(st: State, table: seq<Bitboard>, d: Direction, piece: Piece, s: nat, ray: Bitboard,
                            own: Bitboard, enemy: Bitboard, reach: set<nat>)
    requires RayTableSquares(d, table) && s == BitScan(piece.position) && s < 64 && ray == table[s]
    requires own == Occupancy(st, piece.color) && enemy == Occupancy(st, Opposite(piece.color))
    requires Forward(d) ==> |Squares(ray & own)| <= 1 && |Squares(ray & enemy)| <= 1
    requires reach == Reach(d, s, Squares(own), Squares(enemy))
    ensures SliderTargets(st, table, Forward(d), piece).Ok?
    ensures forall t :: t in SliderTargets(st, table, Forward(d), piece).value <==> t in reach
  {
    RayWordOk(d, s, ray, table, own, enemy);
    var attacks := BlockedRayAttack(ray, table, Forward(d), own, enemy).value;
    RayWordSquares(d, s, ray, table, own, enemy, attacks, reach);
    SliderTargetsFromWord(st, table, Forward(d), piece, s, ray, attacks, reach);
  }

  /** `blocked_ray_attack` on entry `s` of a table of rays towards `d` succeeds ... */
  lemma RayWordOk(d: Direction, s: nat, ray: Bitboard, table: seq<Bitboard>, own: Bitboard, enemy: Bitboard)
    requires RayTableSquares(d, table) && s < 64 && ray == table[s]
    requires Forward(d) ==> |Squares(ray & own)| <= 1 && |Squares(ray & enemy)| <= 1
    ensures BlockedRayAttack(ray, table, Forward(d), own, enemy).Ok?
  {
    BlockedRayAttackReach(d, s, ray, table, own, enemy);
  }

  /** ... and yields the squares the slider reaches.  (The set is a parameter so that
      the proofs using this one do not unfold it.) */
  lemma RayWordSquares(d: Direction, s: nat, ray: Bitboard, table: seq<Bitboard>, own: Bitboard, enemy: Bitboard,
                       attacks: Bitboard, reach: set<nat>)
    requires RayTableSquares(d, table) && s < 64 && ray == table[s]
    requires Forward(d) ==> |Squares(ray & own)| <= 1 && |Squares(ray & enemy)| <= 1
    requires BlockedRayAttack(ray, table, Forward(d), own, enemy) == Ok(attacks)
    requires reach == Reach(d, s, Squares(own), Squares(enemy))
    ensures Squares(attacks) == reach
  {
    BlockedRayAttackReach(d, s, ray, table, own, enemy);
  }

  /** `get_attacks` extracts the squares of the resolved ray word. */
  lemma SliderTargetsFromWord(st: State, table: seq<Bitboard>, forward: bool, piece: Piece, s: nat, ray: Bitboard,
                              attacks: Bitboard, reach: set<nat>)
    requires s == BitScan(piece.position) && s < |table| && ray == table[s]
    requires BlockedRayAttack(ray, table, forward, Occupancy(st, piece.color), Occupancy(st, Opposite(piece.color)))
          == Ok(attacks)
    requires Squares(attacks) == reach
    ensures SliderTargets(st, table, forward, piece) == Ok(ExtractBits(attacks))
    ensures forall t :: t in ExtractBits(attacks) <==> t in reach
  {
  }

  /** With the ray tables `NewRays` builds, the moves `get_attacks` generates along
      `d` are exactly the piece's moves to the squares it reaches. */
  lemma SliderMovesMeaning(st: State, rays: Rays, d: Direction, piece: Piece, s: nat, ray: Bitboard)
    requires WellFormed(st) && RayTableSquares(d, rays.Table(d))
    requires s == BitScan(piece.position) && s < 64 && ray == rays.Table(d)[s]
    requires Forward(d) ==> |Squares(ray & Occupancy(st, piece.color))| <= 1 &&
                            |Squares(ray & Occupancy(st, Opposite(piece.color)))| <= 1
    requires SliderMoves(st, rays, d, piece).Ok?
    ensures forall t | t in Reach(d, s, Squares(Occupancy(st, piece.color)), Squares(Occupancy(st, Opposite(piece.color)))) ::
              Moved(st, piece.position, t).Ok? && Moved(st, piece.position, t).value in SliderMoves(st, rays, d, piece).value
    ensures forall x | x in SliderMoves(st, rays, d, piece).value ::
              exists t | t in Reach(d, s, Squares(Occupancy(st, piece.color)), Squares(Occupancy(st, Opposite(piece.color)))) ::
                Moved(st, piece.position, t) == Ok(x)
  {
    SliderTargetsMeaning(st, rays.Table(d), d, piece, s, ray);
    var targets := SliderTargets(st, rays.Table(d), Forward(d), piece).value;
    assert SliderMoves(st, rays, d, piece) == MoveAll(st, piece.position, targets);
    MoveAllMembers(st, piece.position, targets);
  }

  // ---------------------------------------------------------------------------
  // Kings

  /** `t` is one of the eight squares around `s`. */
  ghost predicate Adjacent(s: nat, t: nat)
  {
    s < 64 && t < 64 && t != s && Abs(Row(t) - Row(s)) <= 1 && Abs(Col(t) - Col(s)) <= 1
  }

  /** The target at the `k`-th offset is the square at that offset, when it is on the
      board, is not the king's own square and is free of the side's pieces. */
  lemma KingStepMeaning(s: nat, own: Bitboard, k: nat, t: nat)
    requires s < 64 && k < 9
    ensures t in KingStep(s, own, KingOffset(k)) <==>
              && k != 4 && t < 64 && t !in Squares(own)
              && Row(t) == Row(s) + k / 3 - 1 && Col(t) == Col(s) + k % 3 - 1
  {
    var row := s / 8 + k / 3 - 1;
    var col := s % 8 + k % 3 - 1;
    if k != 4 && 0 <= row < 8 && 0 <= col < 8 {
      HasBitSquares(own, row * 8 + col);
    }
  }

  /** A target is among the first `k` exactly when it is the target at one of the
      first `k` offsets. */
  lemma {:induction false} KingTargetsPrefix(s: nat, own: Bitboard, k: nat, t: nat)
    requires k <= 9
    ensures t in KingTargets(s, own, k) <==> exists j | 0 <= j < k :: t in KingStep(s, own, KingOffset(j))
  {
    if k > 0 {
      KingTargetsPrefix(s, own, k - 1, t);
      if t in KingStep(s, own, KingOffset(k - 1)) {
        assert t in KingTargets(s, own, k);
      }
    }
  }

  /** `generate_king_moves` targets exactly the squares around the king that do not
      hold a piece of its own side. */
  lemma KingTargetsMeaning(s: nat, own: Bitboard)
    requires s < 64
    ensures forall t :: t in KingTargets(s, own, 9) <==> Adjacent(s, t) && t !in Squares(own)
  {
    forall t
      ensures t in KingTargets(s, own, 9) <==> Adjacent(s, t) && t !in Squares(own)
    {
      KingTargetsPrefix(s, own, 9, t);
      if t in KingTargets(s, own, 9) {
        var j :| 0 <= j < 9 && t in KingStep(s, own, KingOffset(j));
        KingStepMeaning(s, own, j, t);
      }
      if Adjacent(s, t) && t !in Squares(own) {
        var j := 3 * (Row(t) - Row(s) + 1) + (Col(t) - Col(s) + 1);
        assert j / 3 == Row(t) - Row(s) + 1 && j % 3 == Col(t) - Col(s) + 1;
        KingStepMeaning(s, own, j, t);
      }
    }
  }

  /** `generate_king_moves` moves the king to exactly the squares of
      `KingTargetsMeaning`. */
  lemma KingMovesMeaning(st: State, piece: Piece, s: nat)
    requires WellFormed(st) && s == BitScan(piece.position) && s < 64 && KingMoves(st, piece).Ok?
    ensures forall t | Adjacent(s, t) && t !in Squares(Occupancy(st, piece.color)) ::
              Moved(st, piece.position, t).Ok? && Moved(st, piece.position, t).value in KingMoves(st, piece).value
    ensures forall x | x in KingMoves(st, piece).value ::
              exists t | Adjacent(s, t) && t !in Squares(Occupancy(st, piece.color)) :: Moved(st, piece.position, t) == Ok(x)
  {
    var targets := KingTargets(s, Occupancy(st, piece.color), 9);
    KingTargetsMeaning(s, Occupancy(st, piece.color));
    MoveAllMembers(st, piece.position, targets);
  }

  // ---------------------------------------------------------------------------
  // Bishops, rooks and queens

  /** One step of the fold over directions. */
  lemma DirectionMovesSplit(st: State, rays: Rays, front: seq<Direction>, d: Direction, piece: Piece)
    requires WellFormed(st) && DirectionMoves(st, rays, front + [d], piece).Ok?
    ensures DirectionMoves(st, rays, front, piece).Ok? && SliderMoves(st, rays, d, piece).Ok?
    ensures DirectionMoves(st, rays, front + [d], piece).value ==
            DirectionMoves(st, rays, front, piece).value + SliderMoves(st, rays, d, piece).value
  {
    assert (front + [d])[..|front|] == front;
  }

  /** The moves along four directions, when they succeed, are the moves along each
      of them in turn. */
  lemma FourDirections(st: State, rays: Rays, a: Direction, b: Direction, c: Direction, d: Direction, piece: Piece)
    requires WellFormed(st) && DirectionMoves(st, rays, [a, b, c, d], piece).Ok?
    ensures SliderMoves(st, rays, a, piece).Ok? && SliderMoves(st, rays, b, piece).Ok?
    ensures SliderMoves(st, rays, c, piece).Ok? && SliderMoves(st, rays, d, piece).Ok?
    ensures DirectionMoves(st, rays, [a, b, c, d], piece).value ==
              SliderMoves(st, rays, a, piece).value + SliderMoves(st, rays, b, piece).value +
              SliderMoves(st, rays, c, piece).value + SliderMoves(st, rays, d, piece).value
  {
    assert [a, b, c, d] == [a, b, c] + [d] && [a, b, c] == [a, b] + [c] && [a, b] == [a] + [b] && [a] == [] + [a];
    DirectionMovesSplit(st, rays, [a, b, c], d, piece);
    DirectionMovesSplit(st, rays, [a, b], c, piece);
    DirectionMovesSplit(st, rays, [a], b, piece);
    DirectionMovesSplit(st, rays, [], a, piece);
    Regroup(DirectionMoves(st, rays, [a, b, c, d], piece).value, DirectionMoves(st, rays, [a, b, c], piece).value,
            DirectionMoves(st, rays, [a, b], piece).value, DirectionMoves(st, rays, [a], piece).value,
            DirectionMoves(st, rays, [], piece).value,
            SliderMoves(st, rays, a, piece).value, SliderMoves(st, rays, b, piece).value,
            SliderMoves(st, rays, c, piece).value, SliderMoves(st, rays, d, piece).value);
  }

  lemma Regroup(all: seq<State>, three: seq<State>, two: seq<State>, one: seq<State>, none: seq<State>,
                ma: seq<State>, mb: seq<State>, mc: seq<State>, md: seq<State>)
    requires all == three + md && three == two + mc && two == one + mb && one == none + ma && none == []
    ensures all == ma + mb + mc + md
  {
    assert one == ma;
  }

  // ---------------------------------------------------------------------------
  // Pawns

  /** The 0-based row from which a colour's pawns may advance two squares. */
  function StartRow(c: Color): nat
  {
    match c
    case White => 1
    case Black => 6
  }

  /** `t` is the square just ahead of the pawn on `s`, free of enemies, and the pawn
      is not about to promote.  (Own pieces do not block the advance in the source.) */
  ghost predicate PawnPush(c: Color, s: nat, enemy: set<nat>, t: nat)
  {
    s < 64 && t < 64 && Row(t) == Row(s) + PawnStep(c) && Col(t) == Col(s) && t !in enemy &&
    Row(s) + 1 != LastRow(c)
  }

  /** `t` is two squares ahead of the pawn on its starting row, with neither it nor
      the square between (their midpoint) an enemy's. */
  ghost predicate PawnDoublePush(c: Color, s: nat, enemy: set<nat>, t: nat)
  {
    s < 64 && Row(s) == StartRow(c) && t < 64 && Row(t) == Row(s) + 2 * PawnStep(c) && Col(t) == Col(s) &&
    t !in enemy && (s + t) / 2 !in enemy
  }

  /** `t` is diagonally ahead of the pawn and holds an enemy. */
  ghost predicate PawnCapture(c: Color, s: nat, enemy: set<nat>, t: nat)
  {
    s < 64 && t < 64 && Row(t) == Row(s) + PawnStep(c) && Abs(Col(t) - Col(s)) == 1 && t in enemy
  }

  /** The square at a 1-based row and column is the square with those 0-based
      coordinates. */
  lemma IndexAt(row: int, col: int, t: nat)
    ensures Index(row, col) == Some(t) <==> t < 64 && Row(t) == row - 1 && Col(t) == col - 1
  {
    if t < 64 && Row(t) == row - 1 && Col(t) == col - 1 {
      assert t == Row(t) * 8 + Col(t);
    }
  }

  lemma SingleStepAt(c: Color, s: nat, ahead: nat, enemy: Bitboard, t: nat)
    requires s < 64 && Index(RowCol(s).0 + PawnStep(c), RowCol(s).1) == Some(ahead)
    ensures t in SingleStep(c, RowCol(s).0, ahead, enemy) <==> PawnPush(c, s, Squares(enemy), t)
  {
    IndexAt(RowCol(s).0 + PawnStep(c), RowCol(s).1, ahead);
    IndexAt(RowCol(s).0 + PawnStep(c), RowCol(s).1, t);
    HasBitSquares(enemy, ahead);
  }

  lemma DiagonalAt(row: int, col: int, enemy: Bitboard, t: nat)
    ensures t in Diagonal(row, col, enemy) <==> t < 64 && Row(t) == row - 1 && Col(t) == col - 1 && t in Squares(enemy)
  {
    IndexAt(row, col, t);
    if Index(row, col).Some? {
      HasBitSquares(enemy, Index(row, col).value);
    }
  }

  lemma DoubleStepAt(c: Color, s: nat, enemy: Bitboard, t: nat)
    requires s < 64
    ensures t in DoubleStep(c, RowCol(s).0, RowCol(s).1, enemy) <==> PawnDoublePush(c, s, Squares(enemy), t)
  {
    var (row, col) := RowCol(s);
    if row == StartRow(c) + 1 {
      var two := Index(row + 2 * PawnStep(c), col).value;
      var one := Index(row + PawnStep(c), col).value;
      IndexAt(row + 2 * PawnStep(c), col, two);
      IndexAt(row + PawnStep(c), col, one);
      IndexAt(row + 2 * PawnStep(c), col, t);
      HasBitSquares(enemy, two);
      HasBitSquares(enemy, one);
      assert (s + two) / 2 == one;
    }
  }

  /** The squares `generate_pawn_moves` collects before promotion and en passant are
      exactly the pushes, double pushes and diagonal captures of the rules above. */
  lemma PawnTargetsMeaning(c: Color, s: nat, ahead: nat, enemy: Bitboard)
    requires s < 64 && Index(RowCol(s).0 + PawnStep(c), RowCol(s).1) == Some(ahead)
    ensures forall t :: t in PawnTargets(c, RowCol(s).0, RowCol(s).1, ahead, enemy) <==>
                        PawnPush(c, s, Squares(enemy), t) || PawnDoublePush(c, s, Squares(enemy), t) ||
                        PawnCapture(c, s, Squares(enemy), t)
  {
    var (row, col) := RowCol(s);
    forall t
      ensures t in PawnTargets(c, row, col, ahead, enemy) <==>
              PawnPush(c, s, Squares(enemy), t) || PawnDoublePush(c, s, Squares(enemy), t) ||
              PawnCapture(c, s, Squares(enemy), t)
    {
      SingleStepAt(c, s, ahead, enemy, t);
      DoubleStepAt(c, s, enemy, t);
      DiagonalAt(row + PawnStep(c), col + 1, enemy, t);
      DiagonalAt(row + PawnStep(c), col - 1, enemy, t);
    }
  }

  /** `t` is a square the pawn on `s` may move to by the rules above. */
  ghost predicate PawnRule(c: Color, s: nat, enemy: set<nat>, t: nat)
  {
    PawnPush(c, s, enemy, t) || PawnDoublePush(c, s, enemy, t) || PawnCapture(c, s, enemy, t)
  }

  /** The promotion attempts, one per type. */
  ghost function Attempts(st: State, from: Bitboard, to: nat, types: seq<PieceType>): (r: seq<Result<State, Panic>>)
    requires WellFormed(st)
    ensures |r| == |types|
    ensures forall i | 0 <= i < |types| :: r[i] == Promoted(st, from, to, types[i])
  {
    seq(|types|, i requires 0 <= i < |types| => Promoted(st, from, to, types[i]))
  }

  lemma {:induction false} PromoteAllCollect(st: State, from: Bitboard, to: nat, types: seq<PieceType>,
                                             results: seq<Result<State, Panic>>)
    requires WellFormed(st) && |results| == |types|
    requires forall i | 0 <= i < |types| :: results[i] == Promoted(st, from, to, types[i])
    ensures PromoteAll(st, from, to, types) == Collect(results)
  {
    if types != [] {
      var n := |types| - 1;
      PromoteAllCollect(st, from, to, types[..n], results[..n]);
    }
  }

  /** The promotions succeed exactly when each one does, and the n-th clone carries
      the n-th type. */
  lemma PromoteAllEach(st: State, from: Bitboard, to: nat, types: seq<PieceType>)
    requires WellFormed(st)
    ensures PromoteAll(st, from, to, types).Ok? <==>
            forall i | 0 <= i < |types| :: Promoted(st, from, to, types[i]).Ok?
    ensures PromoteAll(st, from, to, types).Ok? ==>
            forall i | 0 <= i < |types| :: PromoteAll(st, from, to, types).value[i] == Promoted(st, from, to, types[i]).value
  {
    PromoteAllCollect(st, from, to, types, Attempts(st, from, to, types));
    CollectEach(Attempts(st, from, to, types));
  }

  /** `x` is the en passant capture of the pawn on `s`: an en passant square is
      recorded one row ahead of the pawn on a neighbouring column, and
      `take_en_passant` onto it yields `x`. */
  ghost predicate EnPassantRule(st: State, piece: Piece, s: nat, x: State)
    requires WellFormed(st)
  {
    st.enPassant.Some? &&
    var e := BitScan(st.enPassant.value);
    Row(e) == Row(s) + PawnStep(piece.color) && Abs(Col(e) - Col(s)) == 1 &&
    EnPassantTaken(st, piece.position, st.enPassant.value) == Ok(x)
  }

  /** The en passant candidates are exactly the captures the rule above gives, and
      they fail exactly when the rule's square is recorded but the capture panics. */
  lemma EnPassantMovesMeaning(st: State, piece: Piece, s: nat)
    requires WellFormed(st) && s == BitScan(piece.position)
    ensures EnPassantMoves(st, piece).Ok? ==>
            forall x :: x in EnPassantMoves(st, piece).value <==> EnPassantRule(st, piece, s, x)
    ensures EnPassantMoves(st, piece).Err? <==>
            st.enPassant.Some? &&
            Row(BitScan(st.enPassant.value)) == Row(s) + PawnStep(piece.color) &&
            Abs(Col(BitScan(st.enPassant.value)) - Col(s)) == 1 &&
            EnPassantTaken(st, piece.position, st.enPassant.value).Err?
  {
  }

  /** A pawn's candidates are its ordinary moves, then its promotions, then its en
      passant capture. */
  lemma PawnMovesSplit(st: State, piece: Piece, s: nat, ahead: nat)
    requires WellFormed(st) && s == BitScan(piece.position) && s < 64
    requires Index(RowCol(s).0 + PawnStep(piece.color), RowCol(s).1) == Some(ahead)
    requires PawnMoves(st, piece).Ok?
    ensures MoveAll(st, piece.position, PawnTargets(piece.color, RowCol(s).0, RowCol(s).1, ahead,
                                                    Occupancy(st, Opposite(piece.color)))).Ok?
    ensures RowCol(s).0 == LastRow(piece.color) ==> PromoteAll(st, piece.position, ahead, PromotionTypes).Ok?
    ensures EnPassantMoves(st, piece).Ok?
    ensures PawnMoves(st, piece).value ==
            MoveAll(st, piece.position, PawnTargets(piece.color, RowCol(s).0, RowCol(s).1, ahead,
                                                   Occupancy(st, Opposite(piece.color)))).value +
            (if RowCol(s).0 == LastRow(piece.color) then PromoteAll(st, piece.position, ahead, PromotionTypes).value
             else []) +
            EnPassantMoves(st, piece).value
  {
  }

  /** The moves of a pawn that has a square ahead: a move to each square the rules
      allow, the four promotions onto the square ahead from the row before the last,
      and the en passant capture; nothing else. */
  lemma PawnMovesMeaning(st: State, piece: Piece, s: nat, ahead: nat)
    requires WellFormed(st) && s == BitScan(piece.position) && s < 64
    requires Index(RowCol(s).0 + PawnStep(piece.color), RowCol(s).1) == Some(ahead)
    requires PawnMoves(st, piece).Ok?
    ensures forall t | PawnRule(piece.color, s, Squares(Occupancy(st, Opposite(piece.color))), t) ::
              Moved(st, piece.position, t).Ok? && Moved(st, piece.position, t).value in PawnMoves(st, piece).value
    ensures Row(s) + 1 == LastRow(piece.color) ==>
              forall k | k in PromotionTypes ::
                Promoted(st, piece.position, ahead, k).Ok? &&
                Promoted(st, piece.position, ahead, k).value in PawnMoves(st, piece).value
    ensures forall x | EnPassantRule(st, piece, s, x) :: x in PawnMoves(st, piece).value
    ensures forall x | x in PawnMoves(st, piece).value ::
              (exists t | PawnRule(piece.color, s, Squares(Occupancy(st, Opposite(piece.color))), t) ::
                 Moved(st, piece.position, t) == Ok(x)) ||
              (Row(s) + 1 == LastRow(piece.color) &&
               exists k | k in PromotionTypes :: Promoted(st, piece.position, ahead, k) == Ok(x)) ||
              EnPassantRule(st, piece, s, x)
  {
    PawnMovesSplit(st, piece, s, ahead);
    var targets := PawnTargets(piece.color, RowCol(s).0, RowCol(s).1, ahead, Occupancy(st, Opposite(piece.color)));
    var moves := MoveAll(st, piece.position, targets).value;
    var promotions := if RowCol(s).0 == LastRow(piece.color) then PromoteAll(st, piece.position, ahead, PromotionTypes).value
                      else [];
    var captures := EnPassantMoves(st, piece).value;
    assert forall x :: x in PawnMoves(st, piece).value <==> x in moves || x in promotions || x in captures;
    PawnRuleMoves(st, piece, s, ahead, targets);
    if RowCol(s).0 == LastRow(piece.color) {
      PawnPromotions(st, piece, ahead);
    }
    EnPassantMovesMeaning(st, piece, s);
  }

  /** The ordinary moves of a pawn are exactly the moves to the squares the rules
      allow. */
  lemma PawnRuleMoves(st: State, piece: Piece, s: nat, ahead: nat, targets: seq<nat>)
    requires WellFormed(st) && s < 64
    requires Index(RowCol(s).0 + PawnStep(piece.color), RowCol(s).1) == Some(ahead)
    requires targets == PawnTargets(piece.color, RowCol(s).0, RowCol(s).1, ahead, Occupancy(st, Opposite(piece.color)))
    requires MoveAll(st, piece.position, targets).Ok?
    ensures forall t | PawnRule(piece.color, s, Squares(Occupancy(st, Opposite(piece.color))), t) ::
              Moved(st, piece.position, t).Ok? && Moved(st, piece.position, t).value in MoveAll(st, piece.position, targets).value
    ensures forall x | x in MoveAll(st, piece.position, targets).value ::
              exists t | PawnRule(piece.color, s, Squares(Occupancy(st, Opposite(piece.color))), t) ::
                Moved(st, piece.position, t) == Ok(x)
  {
    PawnTargetsMeaning(piece.color, s, ahead, Occupancy(st, Opposite(piece.color)));
    MoveAllMembers(st, piece.position, targets);
  }

  /** The promotions of a pawn are exactly the four promotions onto the square ahead. */
  lemma PawnPromotions(st: State, piece: Piece, ahead: nat)
    requires WellFormed(st) && PromoteAll(st, piece.position, ahead, PromotionTypes).Ok?
    ensures forall k | k in PromotionTypes ::
              Promoted(st, piece.position, ahead, k).Ok? &&
              Promoted(st, piece.position, ahead, k).value in PromoteAll(st, piece.position, ahead, PromotionTypes).value
    ensures forall x | x in PromoteAll(st, piece.position, ahead, PromotionTypes).value ::
              exists k | k in PromotionTypes :: Promoted(st, piece.position, ahead, k) == Ok(x)
  {
    var promotions := PromoteAll(st, piece.position, ahead, PromotionTypes).value;
    PromoteAllEach(st, piece.position, ahead, PromotionTypes);
    forall k | k in PromotionTypes
      ensures Promoted(st, piece.position, ahead, k).Ok? && Promoted(st, piece.position, ahead, k).value in promotions
    {
      var i :| 0 <= i < |PromotionTypes| && PromotionTypes[i] == k;
      assert promotions[i] in promotions;
    }
    forall x | x in promotions
      ensures exists k | k in PromotionTypes :: Promoted(st, piece.position, ahead, k) == Ok(x)
    {
      var i :| 0 <= i < |promotions| && promotions[i] == x;
      assert PromotionTypes[i] in PromotionTypes;
    }
  }



  // ---------------------------------------------------------------------------
  // Check detection

  /** Square `t` holds a live piece. */
  ghost predicate LiveOn(st: State, t: nat)
  {
    t < |st.squares| && st.squares[t].Occupied? && st.squares[t].piece < |st.pieces| &&
    st.pieces[st.squares[t].piece].alive
  }

  /** Square `t` holds a piece of one of `types`. */
  ghost predicate TypeOn(st: State, t: nat, types: seq<PieceType>)
  {
    t < |st.squares| && st.squares[t].Occupied? && st.squares[t].piece < |st.pieces| &&
    st.pieces[st.squares[t].piece].pieceType in types
  }

  /** Every square of `word` holds a live piece. */
  ghost predicate LiveWord(st: State, word: Bitboard)
  {
    forall t | t in Squares(word) :: LiveOn(st, t)
  }

  /** Every square of `word` is on the board and occupied. */
  ghost predicate OccupiedWord(st: State, word: Bitboard)
  {
    forall t | t in Squares(word) :: t < 64 && t < |st.squares| && st.squares[t].Occupied?
  }

  /** One of `squares` holds a piece of one of `types`. */
  ghost predicate ThreatIn(st: State, squares: set<nat>, types: seq<PieceType>)
  {
    exists t | t in squares :: TypeOn(st, t, types)
  }

  /** When the scan of `check_if_attacked` returns, it has found an attacker exactly
      when one of the squares holds a piece of one of `types`; over squares that all
      hold live pieces it always returns. */
  lemma {:induction false} ScanAttackersMeaning(st: State, locs: seq<nat>, types: seq<PieceType>)
    requires WellFormed(st) && forall i | 0 <= i < |locs| :: locs[i] < 64
    ensures ScanAttackers(st, locs, types).Ok? || (forall i | 0 <= i < |locs| :: LiveOn(st, locs[i])) ==>
            ScanAttackers(st, locs, types) == Ok(exists t | t in locs :: TypeOn(st, t, types))
  {
    if locs != [] {
      var rest := locs[1..];
      assert forall i | 0 <= i < |rest| :: rest[i] == locs[i + 1];
      ScanAttackersMeaning(st, rest, types);
      assert forall t | t in locs :: t == locs[0] || t in rest;
      if TypeOn(st, locs[0], types) {
        assert locs[0] in locs;
      }
    }
  }

  /** When the knight scan of `king_is_in_check` returns, it has found a knight
      exactly when one of the squares holds one; over occupied squares it always
      returns. */
  lemma {:induction false} ScanKnightsMeaning(st: State, locs: seq<nat>)
    requires WellFormed(st) && forall i | 0 <= i < |locs| :: locs[i] < 64
    ensures ScanKnights(st, locs).Ok? || (forall i | 0 <= i < |locs| :: st.squares[locs[i]].Occupied?) ==>
            ScanKnights(st, locs) == Ok(exists t | t in locs :: TypeOn(st, t, [Knight]))
  {
    if locs != [] {
      var rest := locs[1..];
      assert forall i | 0 <= i < |rest| :: rest[i] == locs[i + 1];
      ScanKnightsMeaning(st, rest);
      assert forall t | t in locs :: t == locs[0] || t in rest;
      if TypeOn(st, locs[0], [Knight]) {
        assert locs[0] in locs;
      }
    }
  }

  /** The enemy squares of a ray hold an attacker exactly when one of them holds a
      piece of one of `types`, whenever the test returns; it returns when they all
      hold live pieces. */
  lemma AttackersInMeaning(st: State, overlap: Bitboard, types: seq<PieceType>)
    requires WellFormed(st)
    ensures AttackersIn(st, overlap, types).Ok? || LiveWord(st, overlap) ==>
            AttackersIn(st, overlap, types) == Ok(ThreatIn(st, Squares(overlap), types))
  {
    SquaresEmptyIsZero(overlap);
    if overlap != 0 {
      ScanAttackersMeaning(st, ExtractBits(overlap), types);
    }
  }

  /** The enemy squares a knight's jump away hold a knight exactly when one of them
      holds one, whenever the test returns; it returns when they are all occupied. */
  lemma KnightsInMeaning(st: State, overlap: Bitboard)
    requires WellFormed(st)
    ensures KnightsIn(st, overlap).Ok? || OccupiedWord(st, overlap) ==>
            KnightsIn(st, overlap) == Ok(ThreatIn(st, Squares(overlap), [Knight]))
  {
    SquaresEmptyIsZero(overlap);
    if overlap != 0 {
      ScanKnightsMeaning(st, ExtractBits(overlap));
    }
  }

  /** Some square of the stored enemy word that the ray along `d` from `s` reaches
      holds a piece of one of `types` (of either colour: the test reads the square
      without checking colour). */
  ghost predicate RayThreat(st: State, d: Direction, s: nat, own: set<nat>, enemy: set<nat>, types: seq<PieceType>)
  {
    ThreatIn(st, Reach(d, s, own, enemy) * enemy, types)
  }

  /** With a table holding the rays towards `d`, `check_if_attacked`, whenever it
      returns, reports whether an enemy-word square the king's ray reaches holds a
      piece of one of `types`; it returns when every enemy-word square holds a live
      piece.  (On the forward rays, with at most one piece of each side on the ray, as
      for `SliderTargetsMeaning`.) */
  lemma RayCheckMeaning(st: State, rays: Rays, d: Direction, king: Piece, s: nat, types: seq<PieceType>)
    requires WellFormed(st) && s == BitScan(king.position) && RayReady(st, rays, d, king, s)
    ensures RayCheck(st, rays.Table(d), Forward(d), king, types).Ok? || LiveWord(st, Occupancy(st, Opposite(king.color))) ==>
            RayCheck(st, rays.Table(d), Forward(d), king, types) ==
            Ok(RayThreat(st, d, s, Squares(Occupancy(st, king.color)), Squares(Occupancy(st, Opposite(king.color))), types))
  {
    RayCheckOn(st, rays.Table(d), d, king, s, rays.Table(d)[s], types);
  }

  /** The same, for one table. */
  lemma RayCheckOn(st: State, table: seq<Bitboard>, d: Direction, king: Piece, s: nat, ray: Bitboard,
                   types: seq<PieceType>)
    requires WellFormed(st) && s == BitScan(king.position) && TableReady(st, d, table, king.color, s) && ray == table[s]
    ensures RayCheck(st, table, Forward(d), king, types).Ok? || LiveWord(st, Occupancy(st, Opposite(king.color))) ==>
            RayCheck(st, table, Forward(d), king, types) ==
            Ok(RayThreat(st, d, s, Squares(Occupancy(st, king.color)), Squares(Occupancy(st, Opposite(king.color))), types))
  {
    RayCheckWithin(st, table, d, king, s, ray, types, Occupancy(st, king.color), Occupancy(st, Opposite(king.color)),
                   Reach(d, s, Squares(Occupancy(st, king.color)), Squares(Occupancy(st, Opposite(king.color)))));
  }

  /** The same, with the occupancies and the reached set as parameters. */
  lemma RayCheckWithin(st: State, table: seq<Bitboard>, d: Direction, king: Piece, s: nat, ray: Bitboard,
                      types: seq<PieceType>, own: Bitboard, enemy: Bitboard, reach: set<nat>)
    requires WellFormed(st) && RayTableSquares(d, table) && s == BitScan(king.position) && s < 64 && ray == table[s]
    requires own == Occupancy(st, king.color) && enemy == Occupancy(st, Opposite(king.color))
    requires Forward(d) ==> |Squares(ray & own)| <= 1 && |Squares(ray & enemy)| <= 1
    requires reach == Reach(d, s, Squares(own), Squares(enemy))
    ensures RayCheck(st, table, Forward(d), king, types).Ok? || LiveWord(st, enemy) ==>
            RayCheck(st, table, Forward(d), king, types) == Ok(ThreatIn(st, reach * Squares(enemy), types))
  {
    assert BlockedRayAttack(ray, table, Forward(d), own, enemy).Ok? by {
      RayWordOk(d, s, ray, table, own, enemy);
    }
    var attacks := BlockedRayAttack(ray, table, Forward(d), own, enemy).value;
    var scan := AttackersIn(st, attacks & enemy, types);
    var meaning := ThreatIn(st, reach * Squares(enemy), types);
    assert RayCheck(st, table, Forward(d), king, types) == scan by {
      RayCheckLooksAt(st, table, d, king, s, types, attacks);
    }
    assert (scan.Ok? || LiveWord(st, enemy)) ==> scan == Ok(meaning) by {
      RayWordSquares(d, s, ray, table, own, enemy, attacks, reach);
      AttackersOn(st, attacks, enemy, reach, types);
    }
  }

  lemma RayCheckLooksAt(st: State, table: seq<Bitboard>, d: Direction, king: Piece, s: nat, types: seq<PieceType>,
                        attacks: Bitboard)
    requires WellFormed(st) && |table| == 64 && s == BitScan(king.position) && s < 64
    requires BlockedRayAttack(table[s], table, Forward(d), Occupancy(st, king.color), Occupancy(st, Opposite(king.color)))
             == Ok(attacks)
    ensures RayCheck(st, table, Forward(d), king, types) == AttackersIn(st, attacks & Occupancy(st, Opposite(king.color)), types)
  {
  }

  /** The enemy squares of a word whose squares are `squares`. */
  lemma AttackersOn(st: State, word: Bitboard, enemy: Bitboard, squares: set<nat>, types: seq<PieceType>)
    requires WellFormed(st) && Squares(word) == squares
    ensures AttackersIn(st, word & enemy, types).Ok? || LiveWord(st, enemy) ==>
            AttackersIn(st, word & enemy, types) == Ok(ThreatIn(st, squares * Squares(enemy), types))
  {
    SquaresAnd(word, enemy);
    AttackersInMeaning(st, word & enemy, types);
    if LiveWord(st, enemy) {
      assert LiveWord(st, word & enemy);
    }
  }

  /** A knight, of either colour, stands a knight's jump from `s` on a square of the
      stored enemy word (the test reads the square without checking colour). */
  ghost predicate KnightThreat(st: State, s: nat, enemy: set<nat>)
  {
    ThreatIn(st, JumpSet(s) * enemy, [Knight])
  }

  /** With a table of knight jumps (such as `knight_attacks` builds), the knight test
      of `king_is_in_check`, whenever it returns, reports whether a knight (of either
      colour) stands a knight's jump from the king on a square of the stored enemy
      word; it returns when every enemy-word square is occupied. */
  lemma KnightCheckMeaning(st: State, knights: seq<Bitboard>, king: Piece, s: nat)
    requires WellFormed(st) && JumpTable(knights) && s == BitScan(king.position) && s < 64
    ensures KnightCheck(st, knights, king).Ok? || OccupiedWord(st, Occupancy(st, Opposite(king.color))) ==>
            KnightCheck(st, knights, king) == Ok(KnightThreat(st, s, Squares(Occupancy(st, Opposite(king.color)))))
  {
    KnightCheckWith(st, knights, king, s, JumpSet(s));
  }

  /** The same, with the set of jumps as a parameter. */
  lemma KnightCheckWith(st: State, knights: seq<Bitboard>, king: Piece, s: nat, jumps: set<nat>)
    requires WellFormed(st) && |knights| == 64 && s == BitScan(king.position) && s < 64
    requires Squares(knights[s]) == jumps
    ensures KnightCheck(st, knights, king).Ok? || OccupiedWord(st, Occupancy(st, Opposite(king.color))) ==>
            KnightCheck(st, knights, king) == Ok(ThreatIn(st, jumps * Squares(Occupancy(st, Opposite(king.color))), [Knight]))
  {
    KnightCheckLooksAt(st, knights, king, s);
    KnightsOn(st, knights[s], Occupancy(st, Opposite(king.color)), jumps);
  }

  /** The enemy squares of a word whose squares are `squares`. */
  lemma KnightsOn(st: State, word: Bitboard, enemy: Bitboard, squares: set<nat>)
    requires WellFormed(st) && Squares(word) == squares
    ensures KnightsIn(st, word & enemy).Ok? || OccupiedWord(st, enemy) ==>
            KnightsIn(st, word & enemy) == Ok(ThreatIn(st, squares * Squares(enemy), [Knight]))
  {
    SquaresAnd(word, enemy);
    KnightsInMeaning(st, word & enemy);
    if OccupiedWord(st, enemy) {
      assert OccupiedWord(st, word & enemy);
    }
  }

  lemma KnightCheckLooksAt(st: State, knights: seq<Bitboard>, king: Piece, s: nat)
    requires WellFormed(st) && |knights| == 64 && s == BitScan(king.position) && s < 64
    ensures KnightCheck(st, knights, king) == KnightsIn(st, knights[s] & Occupancy(st, Opposite(king.color)))
  {
  }

  /** An enemy king on a square around the king's, or an enemy pawn diagonally ahead
      of it in the direction the king's own pawns move. */
  ghost predicate NearAttacker(st: State, king: Piece, s: nat, t: nat)
  {
    t < 64 && t < |st.squares| && Abs(Row(t) - Row(s)) <= 1 && Abs(Col(t) - Col(s)) <= 1 &&
    st.squares[t].Occupied? && st.squares[t].piece < |st.pieces| &&
    var p := st.pieces[st.squares[t].piece];
    p.color != king.color &&
    (p.pieceType == King ||
     (p.pieceType == Pawn && Row(t) == Row(s) + PawnStep(king.color) && Abs(Col(t) - Col(s)) == 1))
  }

  lemma ThreatAt(st: State, king: Piece, s: nat, dr: int, dc: int, t: nat)
    requires WellFormed(st) && s == BitScan(king.position) && s < 64 && -1 <= dr <= 1 && -1 <= dc <= 1
    requires t < 64 && Row(t) == Row(s) + dr && Col(t) == Col(s) + dc
    ensures Threat(st, king, (dr, dc)) <==> NearAttacker(st, king, s, t)
  {
    IndexAt(RowCol(s).0 + dr, RowCol(s).1 + dc, t);
  }

  /** The neighbourhood test of `king_is_in_check` holds exactly when some square
      holds a near attacker. */
  lemma NearThreatMeaning(st: State, king: Piece, s: nat)
    requires WellFormed(st) && s == BitScan(king.position) && s < 64
    ensures NearThreat(st, king) <==> exists t :: NearAttacker(st, king, s, t)
  {
    if NearThreat(st, king) {
      var dr :| -1 <= dr <= 1 && RowThreat(st, king, dr);
      var dc :| -1 <= dc <= 1 && Threat(st, king, (dr, dc));
      var t := Index(RowCol(s).0 + dr, RowCol(s).1 + dc).value;
      IndexAt(RowCol(s).0 + dr, RowCol(s).1 + dc, t);
      ThreatAt(st, king, s, dr, dc, t);
    }
    if exists t :: NearAttacker(st, king, s, t) {
      var t :| NearAttacker(st, king, s, t);
      var dr := Row(t) - Row(s);
      var dc := Col(t) - Col(s);
      ThreatAt(st, king, s, dr, dc, t);
      assert RowThreat(st, king, dr);
    }
  }

  /** The ray table towards `d` holds the rays, and on a forward ray at most one piece
      of each side stands on the king's ray. */
  /** Some direction of `dirs` has an attacker of its kind first on the king's ray. */
  ghost predicate AnyRayThreat(st: State, dirs: seq<Direction>, s: nat, own: set<nat>, enemy: set<nat>)
  {
    exists d | d in dirs :: RayThreat(st, d, s, own, enemy, AttackerTypes(d))
  }

  /** The ray tests of `king_is_in_check`, in the order of `dirs`, whenever they
      return, report whether some direction has a piece of its attacker types on an
      enemy-word square the king's ray reaches; they return when every enemy-word
      square holds a live piece. */
  lemma {:induction false} RayAttackedMeaning(st: State, rays: Rays, king: Piece, s: nat, dirs: seq<Direction>)
    requires WellFormed(st) && s == BitScan(king.position) && s < 64
    requires forall d | d in dirs :: RayReady(st, rays, d, king, s)
    ensures RayAttacked(st, rays, king, dirs).Ok? || LiveWord(st, Occupancy(st, Opposite(king.color))) ==>
            RayAttacked(st, rays, king, dirs) ==
            Ok(AnyRayThreat(st, dirs, s, Squares(Occupancy(st, king.color)), Squares(Occupancy(st, Opposite(king.color)))))
  {
    if dirs != [] {
      var d := dirs[0];
      var own := Squares(Occupancy(st, king.color));
      var enemy := Squares(Occupancy(st, Opposite(king.color)));
      ReadyHead(st, rays, king, s, dirs);
      RayCheckMeaning(st, rays, d, king, s, AttackerTypes(d));
      RayAttackedMeaning(st, rays, king, s, dirs[1..]);
      AnyRayThreatSplit(st, dirs, s, own, enemy);
      var head := RayCheck(st, rays.Table(d), Forward(d), king, AttackerTypes(d));
      var rest := RayAttacked(st, rays, king, dirs[1..]);
      if head.Ok? && rest.Ok? {
        RayAttackedCombine(st, rays, king, s, dirs, own, enemy);
      }
    }
  }

  lemma RayAttackedCombine(st: State, rays: Rays, king: Piece, s: nat, dirs: seq<Direction>,
                           own: set<nat>, enemy: set<nat>)
    requires WellFormed(st) && dirs != []
    requires RayCheck(st, rays.Table(dirs[0]), Forward(dirs[0]), king, AttackerTypes(dirs[0])) ==
             Ok(RayThreat(st, dirs[0], s, own, enemy, AttackerTypes(dirs[0])))
    requires RayAttacked(st, rays, king, dirs[1..]) == Ok(AnyRayThreat(st, dirs[1..], s, own, enemy))
    ensures RayAttacked(st, rays, king, dirs) == Ok(AnyRayThreat(st, dirs, s, own, enemy))
  {
    RayAttackedStep(st, rays, king, dirs, RayThreat(st, dirs[0], s, own, enemy, AttackerTypes(dirs[0])),
                    AnyRayThreat(st, dirs[1..], s, own, enemy));
    AnyRayThreatSplit(st, dirs, s, own, enemy);
  }

  lemma ReadyHead(st: State, rays: Rays, king: Piece, s: nat, dirs: seq<Direction>)
    requires dirs != [] && forall d | d in dirs :: RayReady(st, rays, d, king, s)
    ensures RayReady(st, rays, dirs[0], king, s) && forall d | d in dirs[1..] :: RayReady(st, rays, d, king, s)
  {
    assert dirs[0] in dirs;
    assert forall d | d in dirs[1..] :: d in dirs;
  }

  /** One step of the ray tests: the first direction, then the rest. */
  lemma RayAttackedStep(st: State, rays: Rays, king: Piece, dirs: seq<Direction>, head: bool, rest: bool)
    requires WellFormed(st) && dirs != []
    requires RayCheck(st, rays.Table(dirs[0]), Forward(dirs[0]), king, AttackerTypes(dirs[0])) == Ok(head)
    requires RayAttacked(st, rays, king, dirs[1..]) == Ok(rest)
    ensures RayAttacked(st, rays, king, dirs) == Ok(head || rest)
  {
  }

  lemma AnyRayThreatSplit(st: State, dirs: seq<Direction>, s: nat, own: set<nat>, enemy: set<nat>)
    requires dirs != []
    ensures AnyRayThreat(st, dirs, s, own, enemy) <==>
            RayThreat(st, dirs[0], s, own, enemy, AttackerTypes(dirs[0])) || AnyRayThreat(st, dirs[1..], s, own, enemy)
  {
    assert forall d | d in dirs :: d == dirs[0] || d in dirs[1..];
    if AnyRayThreat(st, dirs[1..], s, own, enemy) {
      var d :| d in dirs[1..] && RayThreat(st, d, s, own, enemy, AttackerTypes(d));
      assert d in dirs;
    }
  }

  /** The king on `s` is attacked: in some direction a piece of that direction's
      attacker types stands on a square of the stored enemy word the king's ray
      reaches, a knight stands a jump away on such a square (of either colour in both
      cases: the source reads the squares without checking colour), or an enemy king
      or pawn stands next to it. */
  ghost predicate Attacked(st: State, king: Piece, s: nat)
  {
    AnyRayThreat(st, CheckOrder, s, Squares(Occupancy(st, king.color)), Squares(Occupancy(st, Opposite(king.color)))) ||
    KnightThreat(st, s, Squares(Occupancy(st, Opposite(king.color)))) ||
    exists t :: NearAttacker(st, king, s, t)
  }

  /** The search for the king finds the first king of the colour. */
  lemma FirstKing(pieces: seq<Piece>, color: Color, k: nat)
    requires k < |pieces| && IsKing(pieces[k], color) && forall j | 0 <= j < k :: !IsKing(pieces[j], color)
    ensures FindKing(pieces, color, 0) == Some(k)
  {
  }

  /** Without a king of the colour, `king_is_in_check` panics. */
  lemma KingInCheckNoKing(st: State, color: Color, rays: Rays, knights: seq<Bitboard>)
    requires WellFormed(st) && forall j | 0 <= j < |st.pieces| :: !IsKing(st.pieces[j], color)
    ensures KingInCheck(st, color, rays, knights) == Err(NoKing)
  {
  }

  /** With ray and knight tables as the constructors build them, `king_is_in_check`,
      whenever it returns, reports exactly whether the first king of the colour is
      attacked; it returns when every square of the stored enemy word holds a live
      piece. */
  lemma KingInCheckMeaning(st: State, color: Color, rays: Rays, knights: seq<Bitboard>, k: nat, s: nat)
    requires WellFormed(st)
    requires k < |st.pieces| && IsKing(st.pieces[k], color) && forall j | 0 <= j < k :: !IsKing(st.pieces[j], color)
    requires s == BitScan(st.pieces[k].position) && s < 64
    requires forall d | d in CheckOrder :: RayReady(st, rays, d, st.pieces[k], s)
    requires JumpTable(knights)
    ensures KingInCheck(st, color, rays, knights).Ok? || LiveWord(st, Occupancy(st, Opposite(color))) ==>
            KingInCheck(st, color, rays, knights) == Ok(Attacked(st, st.pieces[k], s))
  {
    var king := st.pieces[k];
    var enemy := Occupancy(st, Opposite(color));
    FirstKing(st.pieces, color, k);
    assert RayAttacked(st, rays, king, CheckOrder).Ok? || LiveWord(st, enemy) ==>
           RayAttacked(st, rays, king, CheckOrder) ==
           Ok(AnyRayThreat(st, CheckOrder, s, Squares(Occupancy(st, color)), Squares(enemy))) by {
      RayAttackedMeaning(st, rays, king, s, CheckOrder);
    }
    assert KnightCheck(st, knights, king).Ok? || LiveWord(st, enemy) ==>
           KnightCheck(st, knights, king) == Ok(KnightThreat(st, s, Squares(enemy))) by {
      KnightCheckMeaning(st, knights, king, s);
      if LiveWord(st, enemy) {
        assert OccupiedWord(st, enemy);
      }
    }
    assert NearThreat(st, king) <==> exists t :: NearAttacker(st, king, s, t) by {
      NearThreatMeaning(st, king, s);
    }
    KingInCheckSteps(st, color, rays, knights, k);
    VerdictMeaning(RayAttacked(st, rays, king, CheckOrder), KnightCheck(st, knights, king), NearThreat(st, king),
                   AnyRayThreat(st, CheckOrder, s, Squares(Occupancy(st, color)), Squares(enemy)),
                   KnightThreat(st, s, Squares(enemy)), exists t :: NearAttacker(st, king, s, t), LiveWord(st, enemy));
  }

  /** The answer of `king_is_in_check` from its three tests, in the order it runs them. */
  function Verdict(rayHit: Result<bool, Panic>, knightHit: Result<bool, Panic>, near: bool): Result<bool, Panic>
  {
    if rayHit.Err? then Err(rayHit.error)
    else if rayHit.value then Ok(true)
    else if knightHit.Err? then Err(knightHit.error)
    else if knightHit.value then Ok(true)
    else Ok(near)
  }

  lemma KingInCheckSteps(st: State, color: Color, rays: Rays, knights: seq<Bitboard>, k: nat)
    requires WellFormed(st) && FindKing(st.pieces, color, 0) == Some(k)
    ensures KingInCheck(st, color, rays, knights) ==
            Verdict(RayAttacked(st, rays, st.pieces[k], CheckOrder), KnightCheck(st, knights, st.pieces[k]),
                    NearThreat(st, st.pieces[k]))
  {
  }

  /** Tests that each report their meaning whenever they return give a verdict that
      reports the disjunction of the meanings. */
  lemma VerdictMeaning(rayHit: Result<bool, Panic>, knightHit: Result<bool, Panic>, near: bool,
                       rayMeaning: bool, knightMeaning: bool, nearMeaning: bool, total: bool)
    requires rayHit.Ok? || total ==> rayHit == Ok(rayMeaning)
    requires knightHit.Ok? || total ==> knightHit == Ok(knightMeaning)
    requires near == nearMeaning
    ensures Verdict(rayHit, knightHit, near).Ok? || total ==>
            Verdict(rayHit, knightHit, near) == Ok(rayMeaning || knightMeaning || nearMeaning)
  {
  }

  // ---------------------------------------------------------------------------
  // Legal moves

  /** `x` is one of the candidates and leaves the king of `color` out of check. */
  ghost predicate SafeAmong(candidates: seq<State>, color: Color, rays: Rays, knights: seq<Bitboard>, x: State)
  {
    exists i | 0 <= i < |candidates| && WellFormed(candidates[i]) ::
      candidates[i] == x && KingInCheck(candidates[i], color, rays, knights) == Ok(false)
  }

  /** The check results of the candidates, in order. */
  ghost function Checks(candidates: seq<State>, color: Color, rays: Rays, knights: seq<Bitboard>)
    : (r: seq<Result<bool, Panic>>)
    requires forall i | 0 <= i < |candidates| :: WellFormed(candidates[i])
    ensures |r| == |candidates|
    ensures forall i | 0 <= i < |candidates| :: r[i] == KingInCheck(candidates[i], color, rays, knights)
  {
    seq(|candidates|, i requires 0 <= i < |candidates| => KingInCheck(candidates[i], color, rays, knights))
  }

  /** The filter of `generate_moves` over given check results. */
  ghost function Filter(candidates: seq<State>, checks: seq<Result<bool, Panic>>): Result<seq<State>, Panic>
    requires |checks| == |candidates|
  {
    if candidates == [] then Ok([])
    else
      var n := |candidates| - 1;
      var earlier :- Filter(candidates[..n], checks[..n]);
      var check :- checks[n];
      Ok(if check then earlier else earlier + [candidates[n]])
  }

  lemma {:induction false} LegalFilter(candidates: seq<State>, color: Color, rays: Rays, knights: seq<Bitboard>,
                                       checks: seq<Result<bool, Panic>>)
    requires forall i | 0 <= i < |candidates| :: WellFormed(candidates[i])
    requires |checks| == |candidates|
    requires forall i | 0 <= i < |candidates| :: checks[i] == KingInCheck(candidates[i], color, rays, knights)
    ensures Legal(candidates, color, rays, knights) == Filter(candidates, checks)
  {
    if candidates != [] {
      var n := |candidates| - 1;
      LegalFilter(candidates[..n], color, rays, knights, checks[..n]);
    }
  }

  lemma {:induction false} FilterMeaning(candidates: seq<State>, checks: seq<Result<bool, Panic>>)
    requires |checks| == |candidates|
    ensures Filter(candidates, checks).Ok? <==> forall i | 0 <= i < |checks| :: checks[i].Ok?
    ensures Filter(candidates, checks).Ok? ==>
            forall x :: x in Filter(candidates, checks).value <==>
                        exists i | 0 <= i < |candidates| :: candidates[i] == x && checks[i] == Ok(false)
  {
    if candidates != [] {
      var n := |candidates| - 1;
      var init, front := candidates[..n], checks[..n];
      FilterMeaning(init, front);
      assert forall i | 0 <= i < n :: init[i] == candidates[i] && front[i] == checks[i];
      if Filter(candidates, checks).Ok? {
        forall x ensures x in Filter(candidates, checks).value <==>
                         exists i | 0 <= i < |candidates| :: candidates[i] == x && checks[i] == Ok(false)
        {
          if exists i | 0 <= i < |candidates| :: candidates[i] == x && checks[i] == Ok(false) {
            var i :| 0 <= i < |candidates| && candidates[i] == x && checks[i] == Ok(false);
            if i < n {
              assert init[i] == x && front[i] == Ok(false);
            }
          }
        }
      }
    }
  }

  /** The filter of `generate_moves` succeeds exactly when every check test does, and
      then keeps exactly the candidates that leave the king out of check. */
  lemma LegalMeaning(candidates: seq<State>, color: Color, rays: Rays, knights: seq<Bitboard>)
    requires forall i | 0 <= i < |candidates| :: WellFormed(candidates[i])
    ensures Legal(candidates, color, rays, knights).Ok? <==>
            forall i | 0 <= i < |candidates| :: KingInCheck(candidates[i], color, rays, knights).Ok?
    ensures Legal(candidates, color, rays, knights).Ok? ==>
            forall x :: x in Legal(candidates, color, rays, knights).value <==> SafeAmong(candidates, color, rays, knights, x)
  {
    var checks := Checks(candidates, color, rays, knights);
    LegalFilter(candidates, color, rays, knights, checks);
    FilterMeaning(candidates, checks);
  }

  /** What `generate_moves` contributes for one piece: nothing for the other side,
      otherwise the piece's candidates that leave the king out of check. */
  function PieceLegal(st: State, rays: Rays, knights: seq<Bitboard>, piece: Piece): Result<seq<State>, Panic>
    requires WellFormed(st)
  {
    if piece.color != st.activeColor then Ok([])
    else
      var candidates :- PieceMoves(st, rays, knights, piece);
      Legal(candidates, st.activeColor, rays, knights)
  }

  /** The contributions of the pieces, in order. */
  ghost function Parts(st: State, rays: Rays, knights: seq<Bitboard>, pieces: seq<Piece>)
    : (r: seq<Result<seq<State>, Panic>>)
    requires WellFormed(st)
    ensures |r| == |pieces|
    ensures forall j | 0 <= j < |pieces| :: r[j] == PieceLegal(st, rays, knights, pieces[j])
  {
    seq(|pieces|, j requires 0 <= j < |pieces| => PieceLegal(st, rays, knights, pieces[j]))
  }

  /** The contributions joined in order; the first failure aborts. */
  ghost function Gather(parts: seq<Result<seq<State>, Panic>>): Result<seq<State>, Panic>
  {
    if parts == [] then Ok([])
    else
      var n := |parts| - 1;
      var earlier :- Gather(parts[..n]);
      var part :- parts[n];
      Ok(earlier + part)
  }

  lemma {:induction false} GeneratedGather(st: State, rays: Rays, knights: seq<Bitboard>, pieces: seq<Piece>,
                                           parts: seq<Result<seq<State>, Panic>>)
    requires WellFormed(st) && |parts| == |pieces|
    requires forall j | 0 <= j < |pieces| :: parts[j] == PieceLegal(st, rays, knights, pieces[j])
    ensures Generated(st, rays, knights, pieces) == Gather(parts)
  {
    if pieces != [] {
      var n := |pieces| - 1;
      GeneratedGather(st, rays, knights, pieces[..n], parts[..n]);
      if pieces[n].color != st.activeColor && Gather(parts[..n]).Ok? {
        assert Gather(parts[..n]).value + [] == Gather(parts[..n]).value;
      }
    }
  }

  lemma {:induction false} GatherMeaning(parts: seq<Result<seq<State>, Panic>>)
    ensures Gather(parts).Ok? <==> forall j | 0 <= j < |parts| :: parts[j].Ok?
    ensures Gather(parts).Ok? ==>
            forall x :: x in Gather(parts).value <==> exists j | 0 <= j < |parts| :: parts[j].Ok? && x in parts[j].value
  {
    if parts != [] {
      var n := |parts| - 1;
      var front := parts[..n];
      GatherMeaning(front);
      assert forall j | 0 <= j < n :: front[j] == parts[j];
      if Gather(parts).Ok? {
        forall x ensures x in Gather(parts).value <==>
                         exists j | 0 <= j < |parts| :: parts[j].Ok? && x in parts[j].value
        {
          if exists j | 0 <= j < |parts| :: parts[j].Ok? && x in parts[j].value {
            var j :| 0 <= j < |parts| && parts[j].Ok? && x in parts[j].value;
            if j < n {
              assert front[j].Ok? && x in front[j].value;
            }
          }
        }
      }
    }
  }

  /** `generate_moves` succeeds exactly when every piece of the side to move has its
      candidates generated and every check test on them succeeds; it then yields
      exactly the candidates of those pieces that leave the side's king out of check. */
  lemma AllMovesMeaning(st: State, rays: Rays, knights: seq<Bitboard>)
    requires WellFormed(st)
    ensures AllMoves(st, rays, knights).Ok? <==>
            forall j | 0 <= j < |st.pieces| :: PieceLegal(st, rays, knights, st.pieces[j]).Ok?
    ensures AllMoves(st, rays, knights).Ok? ==>
            forall x :: x in AllMoves(st, rays, knights).value <==>
                        exists j | 0 <= j < |st.pieces| ::
                          st.pieces[j].color == st.activeColor && PieceMoves(st, rays, knights, st.pieces[j]).Ok? &&
                          SafeAmong(PieceMoves(st, rays, knights, st.pieces[j]).value, st.activeColor, rays, knights, x)
  {
    var parts := Parts(st, rays, knights, st.pieces);
    GeneratedGather(st, rays, knights, st.pieces, parts);
    GatherMeaning(parts);
    forall j | 0 <= j < |st.pieces| && parts[j].Ok? && st.pieces[j].color == st.activeColor
      ensures PieceMoves(st, rays, knights, st.pieces[j]).Ok?
      ensures forall x :: x in parts[j].value <==>
                          SafeAmong(PieceMoves(st, rays, knights, st.pieces[j]).value, st.activeColor, rays, knights, x)
    {
      LegalMeaning(PieceMoves(st, rays, knights, st.pieces[j]).value, st.activeColor, rays, knights);
    }
  }
}
