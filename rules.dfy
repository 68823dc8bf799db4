/** The rule engine's decision as a pure function: which of the three
    branches of movePiece a move takes, what the queen's path walk finds,
    where the moved piece ends up, promotion, and the squares highlightMoves
    marks. */
module Rules {
  import opened Board

  function Abs(x: int): nat {
    if x < 0 then -x else x
  }

  function Sign(x: int): int {
    if x > 0 then 1 else if x < 0 then -1 else 0
  }

  /** A diagonal direction: downward (row + 1 per step) or upward, and
      rightward (column + 1 per step) or leftward. */
  datatype Dir = Dir(down: bool, right: bool)

  /** The unit offset along one axis: 1 forward, -1 backward. */
  function Unit(forward: bool): int {
    if forward then 1 else -1
  }

  /** The square k steps from `from` along d. */
  function Ray(from: Pos, d: Dir, k: int): Pos {
    Pos(if d.down then from.row + k else from.row - k,
        if d.right then from.col + k else from.col - k)
  }

  /** The direction of the unit steps (dx, dy) of the source, dx and dy
      each 1 or -1. */
  function StepDir(dx: int, dy: int): Dir {
    Dir(dx == 1, dy == 1)
  }

  function DirOf(from: Pos, to: Pos): Dir {
    Dir(to.row > from.row, to.col > from.col)
  }

  /** As many rows as columns travelled, and at least one. */
  predicate IsDiagonal(from: Pos, to: Pos) {
    Abs(to.row - from.row) == Abs(to.col - from.col) && to.row != from.row
  }

  /** Dividing a non-zero offset by its length gives the unit step in its
      direction. */
  lemma DivByLength(x: int)
    requires x != 0
    ensures x / Abs(x) == Unit(x > 0)
  {
    if x < 0 {
      assert x == Abs(x) * -1;
    }
  }

  /** A unit step times k is k squares forward or backward. */
  lemma UnitTimes(u: int, k: int)
    requires u == 1 || u == -1
    ensures u * k == if u == 1 then k else -k
  {
  }

  lemma DiagonalIsRay(from: Pos, to: Pos)
    requires IsDiagonal(from, to)
    ensures to == Ray(from, DirOf(from, to), Abs(to.row - from.row))
  {
  }

  /** The square k >= 1 steps along a direction is a diagonal move of k
      rows in that direction. */
  lemma RayIsDiagonal(from: Pos, d: Dir, k: int)
    requires k >= 1
    ensures IsDiagonal(from, Ray(from, d, k))
    ensures DirOf(from, Ray(from, d, k)) == d
    ensures Abs(Ray(from, d, k).row - from.row) == k
  {
  }

  /** Squares between two on-board squares of a ray are on the board. */
  lemma RayBetween(from: Pos, d: Dir, k: int, n: int)
    requires 0 <= k <= n
    requires InBounds(from) && InBounds(Ray(from, d, n))
    ensures InBounds(Ray(from, d, k))
  {
  }

  /** Dark squares stay dark along a diagonal. */
  lemma RayKeepsColour(from: Pos, d: Dir, k: int)
    ensures IsDark(Ray(from, d, k)) == IsDark(from)
  {
    var r := Ray(from, d, k);
    if d.down == d.right {
      assert r.row + r.col == from.row + from.col + (if d.down then 2 * k else -2 * k);
    } else {
      assert r.row + r.col == from.row + from.col;
    }
  }

  // ---------------------------------------------------------------------
  // The queen's path walk

  datatype PathVerdict = Blocked | Clear | OneEnemy(at: Pos)

  /** One iteration of the queen loop: an empty square changes nothing, the
      first piece of the side `3 - cur` is remembered, any other piece (or a
      second such piece) ends the walk with a rejection. */
  function ScanStep(v: PathVerdict, sq: Square, at: Pos, cur: Player): PathVerdict {
    if v.Blocked? || sq.None? then v
    else if sq.value.owner == Opponent(cur) then (if v.OneEnemy? then Blocked else OneEnemy(at))
    else Blocked
  }

  /** What the queen loop has found after the squares 1..n along d. */
  function ScanRay(g: Grid, cur: Player, from: Pos, d: Dir, n: nat): PathVerdict
    requires WellFormed(g)
  {
    if n == 0 then Clear
    else ScanStep(ScanRay(g, cur, from, d, n - 1), Lookup(g, Ray(from, d, n)), Ray(from, d, n), cur)
  }

  /** Once blocked, the walk stays blocked. */
  lemma {:induction false} ScanBlockedStays(g: Grid, cur: Player, from: Pos, d: Dir, m: nat, n: nat)
    requires WellFormed(g) && m <= n
    requires ScanRay(g, cur, from, d, m) == Blocked
    ensures ScanRay(g, cur, from, d, n) == Blocked
  {
    if m < n {
      ScanBlockedStays(g, cur, from, d, m, n - 1);
    }
  }

  /** Step i of a walk of n squares along which the board does not end:
      the walk's next verdict, and a verdict of Blocked there is final. */
  lemma WalkStep(g: Grid, cur: Player, from: Pos, d: Dir, i: nat, n: nat)
    requires WellFormed(g) && InBounds(from) && InBounds(Ray(from, d, n)) && 1 <= i < n
    ensures InBounds(Ray(from, d, i))
    ensures ScanRay(g, cur, from, d, i)
            == ScanStep(ScanRay(g, cur, from, d, i - 1), At(g, Ray(from, d, i)), Ray(from, d, i), cur)
    ensures ScanRay(g, cur, from, d, i) == Blocked ==> ScanRay(g, cur, from, d, n - 1) == Blocked
  {
    RayBetween(from, d, i, n);
    if ScanRay(g, cur, from, d, i) == Blocked {
      ScanBlockedStays(g, cur, from, d, i, n - 1);
    }
  }

  /** The walk's verdict in declarative terms: Clear exactly when every
      square on the way is empty; OneEnemy(q) exactly when q is the only
      occupied square on the way and holds a piece of `3 - cur`. */
  lemma {:induction false} ScanMeaning(g: Grid, cur: Player, from: Pos, d: Dir, n: nat)
    requires WellFormed(g)
    ensures ScanRay(g, cur, from, d, n) == Clear
            <==> forall k :: 1 <= k <= n ==> Lookup(g, Ray(from, d, k)).None?
    ensures ScanRay(g, cur, from, d, n).OneEnemy? ==>
              exists j :: 1 <= j <= n && ScanRay(g, cur, from, d, n).at == Ray(from, d, j)
                && OneEnemyAt(g, cur, from, d, n, j)
    ensures forall j :: 1 <= j <= n && OneEnemyAt(g, cur, from, d, n, j) ==>
              ScanRay(g, cur, from, d, n) == OneEnemy(Ray(from, d, j))
  {
    if n > 0 {
      ScanMeaning(g, cur, from, d, n - 1);
      var v := ScanRay(g, cur, from, d, n - 1);
      var sq := Lookup(g, Ray(from, d, n));
      if v.OneEnemy? {
        var j :| 1 <= j <= n - 1 && v.at == Ray(from, d, j) && OneEnemyAt(g, cur, from, d, n - 1, j);
        if sq.None? {
          assert OneEnemyAt(g, cur, from, d, n, j);
        }
      }
      forall j | 1 <= j <= n && OneEnemyAt(g, cur, from, d, n, j)
        ensures ScanRay(g, cur, from, d, n) == OneEnemy(Ray(from, d, j))
      {
        if j < n {
          assert OneEnemyAt(g, cur, from, d, n - 1, j);
        } else {
          assert forall k :: 1 <= k <= n - 1 ==> Lookup(g, Ray(from, d, k)).None?;
        }
      }
    }
  }

  /** Square j on the way holds a piece of `3 - cur` and all other squares
      1..n on the way are empty. */
  ghost predicate OneEnemyAt(g: Grid, cur: Player, from: Pos, d: Dir, n: nat, j: int)
    requires WellFormed(g)
  {
    OwnedBy(Lookup(g, Ray(from, d, j)), Opponent(cur))
    && forall k :: 1 <= k <= n && k != j ==> Lookup(g, Ray(from, d, k)).None?
  }

  // ---------------------------------------------------------------------
  // The decision of movePiece

  /** Which branch of movePiece applies: none (the move is refused), a
      relocation without capture, or a relocation that removes the piece
      on square `taken`. */
  datatype Outcome = Rejected | Slide | Capture(taken: Pos)

  /** The queen branch divides both offsets by the row distance, which is
      only meaningful for a diagonal move; other queen input is outside the
      model. */
  predicate QueenMoveDiagonal(g: Grid, from: Pos, to: Pos)
    requires WellFormed(g) && InBounds(from)
  {
    At(g, from).Some? && At(g, from).value.queen ==> Abs(to.row - from.row) == Abs(to.col - from.col)
  }

  function Midpoint(from: Pos, to: Pos): Pos {
    Pos((from.row + to.row) / 2, (from.col + to.col) / 2)
  }

  /** movePiece's decision for the side to move `cur`. It never looks at who
      owns the moving piece nor at the direction a man moves in. */
  function Decide(g: Grid, cur: Player, from: Pos, to: Pos): Outcome
    requires WellFormed(g) && InBounds(from) && InBounds(to)
    requires QueenMoveDiagonal(g, from, to)
  {
    var piece := At(g, from);
    var dr := to.row - from.row;
    var dc := to.col - from.col;
    if piece.None? || At(g, to).Some? then Rejected
    else if !piece.value.queen && Abs(dr) == 1 && Abs(dc) == 1 then Slide
    else if !piece.value.queen && Abs(dr) == 2 && Abs(dc) == 2 then
      (if OwnedBy(At(g, Midpoint(from, to)), Opponent(cur)) then Capture(Midpoint(from, to)) else Rejected)
    else if piece.value.queen then
      assert from != to;
      match ScanRay(g, cur, from, DirOf(from, to), Abs(dr) - 1)
      case Blocked => Rejected
      case Clear => Slide
      case OneEnemy(q) => Capture(q)
    else Rejected
  }

  /** A queen's move onto an empty square is decided by the walk alone:
      `v` is the verdict of the walk along d for n - 1 squares. */
  lemma QueenDecision(g: Grid, cur: Player, from: Pos, to: Pos, d: Dir, n: int, v: PathVerdict)
    requires WellFormed(g) && InBounds(from) && InBounds(to)
    requires At(g, from).Some? && At(g, from).value.queen && At(g, to).None?
    requires Abs(to.row - from.row) == Abs(to.col - from.col)
    requires d == DirOf(from, to) && n == Abs(to.row - from.row) && n >= 1
    requires v == ScanRay(g, cur, from, d, n - 1)
    ensures Decide(g, cur, from, to)
            == match v
               case Blocked => Rejected
               case Clear => Slide
               case OneEnemy(q) => Capture(q)
  {
  }

  /** Some square 1..n on the way holds a piece that is not of `3 - cur`. */
  ghost predicate ForeignOnWay(g: Grid, cur: Player, from: Pos, d: Dir, n: nat)
    requires WellFormed(g)
  {
    exists k :: 1 <= k <= n && Lookup(g, Ray(from, d, k)).Some?
                && !OwnedBy(Lookup(g, Ray(from, d, k)), Opponent(cur))
  }

  /** Two squares 1..n on the way hold pieces of `3 - cur`. */
  ghost predicate TwoEnemiesOnWay(g: Grid, cur: Player, from: Pos, d: Dir, n: nat)
    requires WellFormed(g)
  {
    exists j, k :: 1 <= j < k <= n
                   && OwnedBy(Lookup(g, Ray(from, d, j)), Opponent(cur))
                   && OwnedBy(Lookup(g, Ray(from, d, k)), Opponent(cur))
  }

  /** The walk refuses exactly when it meets a piece not of `3 - cur` or a
      second piece of `3 - cur`. */
  lemma ScanBlockedMeaning(g: Grid, cur: Player, from: Pos, d: Dir, n: nat)
    requires WellFormed(g)
    ensures ScanRay(g, cur, from, d, n) == Blocked
            <==> ForeignOnWay(g, cur, from, d, n) || TwoEnemiesOnWay(g, cur, from, d, n)
  {
    ScanMeaning(g, cur, from, d, n);
    var v := ScanRay(g, cur, from, d, n);
    if v == Blocked {
      var k :| 1 <= k <= n && Lookup(g, Ray(from, d, k)).Some?;
      if !ForeignOnWay(g, cur, from, d, n) {
        assert OwnedBy(Lookup(g, Ray(from, d, k)), Opponent(cur));
        if forall j :: 1 <= j <= n && j != k ==> Lookup(g, Ray(from, d, j)).None? {
          assert OneEnemyAt(g, cur, from, d, n, k);
          assert false;
        }
        var j :| 1 <= j <= n && j != k && Lookup(g, Ray(from, d, j)).Some?;
        assert OwnedBy(Lookup(g, Ray(from, d, j)), Opponent(cur));
        if j < k {
          assert 1 <= j < k <= n;
        } else {
          assert 1 <= k < j <= n;
        }
      }
    } else if v.OneEnemy? {
      var i :| 1 <= i <= n && v.at == Ray(from, d, i) && OneEnemyAt(g, cur, from, d, n, i);
    }
  }

  /** The queen branch of movePiece in declarative terms, for a queen moving
      diagonally onto an empty square: it slides when every square on the way
      is empty, captures q when q is the only occupied square on the way and
      holds a piece of `3 - cur`, and refuses the move exactly when some
      square on the way holds another piece or two hold pieces of `3 - cur`. */
  lemma QueenVerdict(g: Grid, cur: Player, from: Pos, to: Pos)
    requires WellFormed(g) && InBounds(from) && InBounds(to)
    requires At(g, from).Some? && At(g, from).value.queen && At(g, to).None?
    requires Abs(to.row - from.row) == Abs(to.col - from.col)
    ensures IsDiagonal(from, to)
    ensures var d, n := DirOf(from, to), Abs(to.row - from.row) - 1;
      && (Decide(g, cur, from, to) == Slide <==> forall k :: 1 <= k <= n ==> Lookup(g, Ray(from, d, k)).None?)
      && (forall j :: 1 <= j <= n && OneEnemyAt(g, cur, from, d, n, j) ==>
            Decide(g, cur, from, to) == Capture(Ray(from, d, j)))
      && (Decide(g, cur, from, to).Capture? ==>
            exists j :: 1 <= j <= n && OneEnemyAt(g, cur, from, d, n, j)
              && Decide(g, cur, from, to).taken == Ray(from, d, j))
      && (Decide(g, cur, from, to) == Rejected <==>
            ForeignOnWay(g, cur, from, d, n) || TwoEnemiesOnWay(g, cur, from, d, n))
  {
    assert from != to;
    var d, n := DirOf(from, to), Abs(to.row - from.row) - 1;
    ScanMeaning(g, cur, from, d, n);
    ScanBlockedMeaning(g, cur, from, d, n);
  }

  /** The moved piece leaves `from` and stands on `to` (appendChild);
      nothing else on the board changes. */
  function Relocate(g: Grid, from: Pos, to: Pos): (h: Grid)
    requires WellFormed(g) && InBounds(from) && InBounds(to) && from != to
    ensures WellFormed(h)
    ensures At(h, to) == At(g, from) && At(h, from).None?
    ensures forall q :: InBounds(q) && q != from && q != to ==> At(h, q) == At(g, q)
  {
    Put(Put(g, to, At(g, from)), from, None)
  }

  /** The far row for each side: row 0 for player 1, row 7 for player 2. */
  predicate PromotionRow(owner: Player, row: int) {
    (owner == 1 && row == 0) || (owner == 2 && row == 7)
  }

  /** A piece after checkPromotion on row `row`: a queen if it was one or
      if `row` is its side's far row; the owner never changes. */
  function Promoted(pc: Piece, row: int): Piece {
    pc.(queen := pc.queen || PromotionRow(pc.owner, row))
  }

  /** checkPromotion on the piece standing at `at`: that piece becomes
      Promoted(piece, at.row), every other square is untouched. */
  function PromoteAt(g: Grid, at: Pos): (h: Grid)
    requires WellFormed(g) && InBounds(at)
    ensures WellFormed(h)
    ensures At(h, at) == if At(g, at).Some? then Some(Promoted(At(g, at).value, at.row)) else None
    ensures forall q :: InBounds(q) && q != at ==> At(h, q) == At(g, q)
  {
    if At(g, at).Some? && PromotionRow(At(g, at).value.owner, at.row)
    then Put(g, at, Some(At(g, at).value.(queen := true)))
    else g
  }

  // ---------------------------------------------------------------------
  // highlightMoves

  /** The row direction a man of `owner` is offered: up for player 1, down
      for player 2. */
  function ForwardRow(owner: Player): int {
    if owner == 1 then -1 else 1
  }

  /** A man is offered the empty squares one step forward-diagonally, and the
      empty squares two steps forward-diagonally over a piece of `3 - cur`. */
  predicate ManHint(g: Grid, cur: Player, from: Pos, owner: Player, p: Pos)
    requires WellFormed(g)
  {
    InBounds(p) && At(g, p).None?
    && ((p.row == from.row + ForwardRow(owner) && Abs(p.col - from.col) == 1)
        || (p.row == from.row + 2 * ForwardRow(owner) && Abs(p.col - from.col) == 2
            && OwnedBy(Lookup(g, Midpoint(from, p)), Opponent(cur))))
  }

  /** On the forward diagonal towards column offset dy, a man is offered
      exactly the adjacent square when it is empty and the square beyond
      it when that one is empty and the adjacent one holds a piece of
      `3 - cur`. */
  lemma ManHintSide(g: Grid, cur: Player, from: Pos, owner: Player, dy: int)
    requires WellFormed(g) && (dy == 1 || dy == -1)
    ensures var step, jump := Pos(from.row + ForwardRow(owner), from.col + dy),
                              Pos(from.row + 2 * ForwardRow(owner), from.col + 2 * dy);
      forall p :: ManHint(g, cur, from, owner, p) && (p.col < from.col <==> dy < 0) <==>
        (p == step && InBounds(step) && At(g, step).None?)
        || (p == jump && InBounds(jump) && At(g, jump).None? && OwnedBy(Lookup(g, step), Opponent(cur)))
  {
    var jump := Pos(from.row + 2 * ForwardRow(owner), from.col + 2 * dy);
    assert Midpoint(from, jump) == Pos(from.row + ForwardRow(owner), from.col + dy);
  }

  /** A queen is offered each empty square along its four diagonals that the
      walk reaches over dark squares before meeting a piece that is not of
      `3 - cur` or a second piece of `3 - cur`. */
  predicate QueenHint(g: Grid, cur: Player, from: Pos, p: Pos)
    requires WellFormed(g)
  {
    InBounds(p) && IsDiagonal(from, p) && At(g, p).None?
    && (forall k :: 1 <= k <= Abs(p.row - from.row) ==> IsDark(Ray(from, DirOf(from, p), k)))
    && ScanRay(g, cur, from, DirOf(from, p), Abs(p.row - from.row) - 1) != Blocked
  }

  /** The squares highlightMoves marks for the piece standing at `from`. */
  predicate Hint(g: Grid, cur: Player, from: Pos, p: Pos)
    requires WellFormed(g) && InBounds(from)
  {
    At(g, from).Some? &&
    if At(g, from).value.queen then QueenHint(g, cur, from, p)
    else ManHint(g, cur, from, At(g, from).value.owner, p)
  }

  /** The queen walk at step `step` along d marks the square there when the
      walk got that far over dark squares and the square is empty. */
  lemma QueenHintAtStep(g: Grid, cur: Player, from: Pos, d: Dir, step: int)
    requires WellFormed(g) && step >= 1
    requires InBounds(Ray(from, d, step)) && At(g, Ray(from, d, step)).None?
    requires forall k :: 1 <= k <= step ==> IsDark(Ray(from, d, k))
    requires ScanRay(g, cur, from, d, step - 1) != Blocked
    ensures QueenHint(g, cur, from, Ray(from, d, step))
  {
    RayIsDiagonal(from, d, step);
  }

  /** A square marked along d at fewer than n steps from `from`. */
  ghost predicate QueenHintWithin(g: Grid, cur: Player, from: Pos, d: Dir, p: Pos, n: int)
    requires WellFormed(g)
  {
    QueenHint(g, cur, from, p) && DirOf(from, p) == d && Abs(p.row - from.row) < n
  }

  /** Walking on to step `step` along d adds to the marked squares the one
      at that step, and only when it is empty. */
  lemma QueenHintExtend(g: Grid, cur: Player, from: Pos, d: Dir, step: int)
    requires WellFormed(g) && step >= 1
    requires InBounds(Ray(from, d, step))
    requires forall k :: 1 <= k <= step ==> IsDark(Ray(from, d, k))
    requires ScanRay(g, cur, from, d, step - 1) != Blocked
    ensures forall p :: QueenHintWithin(g, cur, from, d, p, step + 1) <==>
              QueenHintWithin(g, cur, from, d, p, step) || (p == Ray(from, d, step) && At(g, p).None?)
  {
    var target := Ray(from, d, step);
    RayIsDiagonal(from, d, step);
    if At(g, target).None? {
      QueenHintAtStep(g, cur, from, d, step);
    }
    forall p | QueenHintWithin(g, cur, from, d, p, step + 1) && !QueenHintWithin(g, cur, from, d, p, step)
      ensures p == target
    {
      DiagonalIsRay(from, p);
    }
  }

  /** The squares marked along d at fewer than n steps from `from`. */
  ghost function QueenHintsWithin(g: Grid, cur: Player, from: Pos, d: Dir, n: int): set<Pos>
    requires WellFormed(g)
  {
    set r: int, c: int | 0 <= r < 8 && 0 <= c < 8 && QueenHintWithin(g, cur, from, d, Pos(r, c), n) :: Pos(r, c)
  }

  lemma QueenHintsWithinMeaning(g: Grid, cur: Player, from: Pos, d: Dir, n: int)
    requires WellFormed(g)
    ensures forall p :: p in QueenHintsWithin(g, cur, from, d, n) <==> QueenHintWithin(g, cur, from, d, p, n)
  {
    forall p | QueenHintWithin(g, cur, from, d, p, n) ensures p in QueenHintsWithin(g, cur, from, d, n) {
      assert p == Pos(p.row, p.col);
    }
  }

  /** Before its first step the walk has marked nothing. */
  lemma QueenHintsNone(g: Grid, cur: Player, from: Pos, d: Dir)
    requires WellFormed(g)
    ensures QueenHintsWithin(g, cur, from, d, 1) == {}
  {
    QueenHintsWithinMeaning(g, cur, from, d, 1);
  }

  /** One step of highlightMoves' queen walk along d that does not stop:
      the square at `step` is on the board, dark, and empty or the first
      piece of `3 - cur`. The walk then goes on one step further, and the
      square at `step` is marked exactly when it is empty. */
  lemma QueenWalkOn(g: Grid, cur: Player, from: Pos, d: Dir, step: int)
    requires WellFormed(g) && step >= 1 && InBounds(from)
    requires InBounds(Ray(from, d, step)) && IsDark(Ray(from, d, step))
    requires forall k :: 1 <= k < step ==> IsDark(Ray(from, d, k))
    requires ScanRay(g, cur, from, d, step - 1) != Blocked
    requires At(g, Ray(from, d, step)).Some? ==>
               At(g, Ray(from, d, step)).value.owner == Opponent(cur)
               && !ScanRay(g, cur, from, d, step - 1).OneEnemy?
    ensures step < 8
    ensures forall k :: 1 <= k < step + 1 ==> IsDark(Ray(from, d, k))
    ensures ScanRay(g, cur, from, d, step) != Blocked
    ensures ScanRay(g, cur, from, d, step).OneEnemy?
            == (ScanRay(g, cur, from, d, step - 1).OneEnemy? || At(g, Ray(from, d, step)).Some?)
    ensures QueenHintsWithin(g, cur, from, d, step + 1)
            == QueenHintsWithin(g, cur, from, d, step)
               + (if At(g, Ray(from, d, step)).None? then {Ray(from, d, step)} else {})
  {
    QueenHintExtend(g, cur, from, d, step);
    QueenHintsWithinMeaning(g, cur, from, d, step);
    QueenHintsWithinMeaning(g, cur, from, d, step + 1);
  }

  /** Where the queen walk stops along d (off the board, on a light square,
      or blocked), the squares marked so far are all the squares a queen is
      offered along d. */
  lemma QueenNoHintBeyond(g: Grid, cur: Player, from: Pos, d: Dir, step: int)
    requires WellFormed(g) && step >= 1 && InBounds(from)
    requires !InBounds(Ray(from, d, step)) || !IsDark(Ray(from, d, step))
             || ScanRay(g, cur, from, d, step) == Blocked
    ensures forall p :: p in QueenHintsWithin(g, cur, from, d, step) <==>
              QueenHint(g, cur, from, p) && DirOf(from, p) == d
  {
    QueenHintsWithinMeaning(g, cur, from, d, step);
    forall p | QueenHint(g, cur, from, p) && DirOf(from, p) == d
      ensures Abs(p.row - from.row) < step
    {
      var n := Abs(p.row - from.row);
      DiagonalIsRay(from, p);
      if n >= step {
        if !InBounds(Ray(from, d, step)) {
          RayBetween(from, d, step, n);
        } else if step < n {
          ScanBlockedStays(g, cur, from, d, step, n - 1);
        }
      }
    }
  }

  /** Every highlighted square is a move that movePiece accepts from that
      square: a man's hint is a one-step slide or a capture of the piece it
      jumps, a queen's hint lies on one of its diagonals. */
  lemma HintAccepted(g: Grid, cur: Player, from: Pos, p: Pos)
    requires WellFormed(g) && InBounds(from)
    requires Hint(g, cur, from, p)
    ensures InBounds(p) && QueenMoveDiagonal(g, from, p)
    ensures Decide(g, cur, from, p) != Rejected
    ensures At(g, from).value.queen ==> IsDiagonal(from, p)
    ensures !At(g, from).value.queen ==>
              Sign(p.row - from.row) == ForwardRow(At(g, from).value.owner)
              && (Decide(g, cur, from, p).Capture? <==> Abs(p.row - from.row) == 2)
  {
    if !At(g, from).value.queen && Abs(p.row - from.row) == 2 {
      assert InBounds(Midpoint(from, p));
    }
  }
}
