/** The client's game state and what each of its operations does to it, as
    functions: movePiece with updateScore, checkVictory, checkPromotion and
    endTurn folded in, resetGame, the capture lock's timer, and the click
    handler's gate. The class Client.Game is proved against these. */
module Turns {
  import opened Board
  import opened Rules

  /** The client's globals: the board, currentPlayer, score1 and score2,
      the selected piece (by the square it stands on), the highlighted
      squares, mustEndTurn, gameOver, and how many lock-release timers are
      still pending. */
  datatype GameState = GameState(
    board: Grid,
    current: Player,
    score1: nat,
    score2: nat,
    selected: Option<Pos>,
    highlights: set<Pos>,
    mustEndTurn: bool,
    gameOver: bool,
    timers: nat)

  /** What every reachable state satisfies: a full board, pieces only on
      dark squares, and a selected piece that belongs to the side to move. */
  ghost predicate Inv(s: GameState) {
    WellFormed(s.board) && OnDark(s.board)
    && (s.selected.Some? ==> InBounds(s.selected.value) && OwnedBy(At(s.board, s.selected.value), s.current))
  }

  /** The state when the page loads. */
  function InitialState(): GameState {
    GameState(InitialGrid(), 1, 0, 0, None, {}, false, false, 0)
  }

  /** resetGame: scores to zero, player 1 to move, flags cleared, selection
      dropped and the board rebuilt (which also drops the highlights);
      pending timers are not cancelled. */
  function Reset(s: GameState): GameState {
    s.(board := InitialGrid(), current := 1, score1 := 0, score2 := 0, selected := None,
       highlights := {}, mustEndTurn := false, gameOver := false)
  }

  /** endTurn: the selection is dropped and the turn passes to `3 - current`. */
  function EndTurn(s: GameState): GameState {
    s.(selected := None, current := Opponent(s.current))
  }

  /** updateScore: one point for the side to move. */
  function AddPoint(s: GameState): GameState {
    if s.current == 1 then s.(score1 := s.score1 + 1) else s.(score2 := s.score2 + 1)
  }

  /** The selected piece is a DOM element: when it is the piece that moves,
      the selection moves with it. */
  function Follow(sel: Option<Pos>, from: Pos, to: Pos): Option<Pos> {
    if sel == Some(from) then Some(to) else sel
  }

  /** checkVictory's test: one side has no piece left. */
  predicate Wiped(g: Grid)
    requires WellFormed(g)
  {
    Count(g, 1) == 0 || Count(g, 2) == 0
  }

  /** A move without capture: relocate, promote, end the turn. */
  function AfterSlide(s: GameState, from: Pos, to: Pos): GameState
    requires WellFormed(s.board) && InBounds(from) && InBounds(to) && from != to
  {
    EndTurn(s.(board := PromoteAt(Relocate(s.board, from, to), to)))
  }

  /** The board part of a capture: the piece on `taken` is removed and the
      capturing piece moves from `from` to `to`, the selection with it. */
  function Take(s: GameState, from: Pos, to: Pos, taken: Pos): GameState
    requires WellFormed(s.board) && InBounds(from) && InBounds(to) && InBounds(taken) && from != to
  {
    s.(board := Relocate(Put(s.board, taken, None), from, to), selected := Follow(s.selected, from, to))
  }

  /** checkVictory followed by checkPromotion unless the board was rebuilt. */
  function Settle(s: GameState, to: Pos): GameState
    requires WellFormed(s.board) && InBounds(to)
  {
    if Wiped(s.board) then Reset(s) else s.(board := PromoteAt(s.board, to))
  }

  /** The lock after a capture, and the timer that will release it. */
  function Lock(s: GameState): GameState {
    s.(mustEndTurn := true, timers := s.timers + 1)
  }

  /** A capture: remove the taken piece, relocate, score, check victory
      (which may reset everything), promote the moved piece unless the board
      was rebuilt, then set the lock and schedule its timer. The lock is set
      after a reset too, as the source does. */
  function AfterCapture(s: GameState, from: Pos, to: Pos, taken: Pos): GameState
    requires WellFormed(s.board) && InBounds(from) && InBounds(to) && InBounds(taken) && from != to
  {
    Lock(Settle(AddPoint(Take(s, from, to, taken)), to))
  }

  /** Where a capture's taken square lies: on the board, holding a piece of
      `3 - cur`, and neither the start nor the end of the move. */
  lemma CaptureTarget(g: Grid, cur: Player, from: Pos, to: Pos)
    requires WellFormed(g) && InBounds(from) && InBounds(to) && QueenMoveDiagonal(g, from, to)
    requires Decide(g, cur, from, to).Capture?
    ensures var t := Decide(g, cur, from, to).taken;
      InBounds(t) && OwnedBy(At(g, t), Opponent(cur)) && t != from && t != to
  {
    if At(g, from).value.queen {
      QueenVerdict(g, cur, from, to);
      var d, n := DirOf(from, to), Abs(to.row - from.row) - 1;
      var j :| 1 <= j <= n && OneEnemyAt(g, cur, from, d, n, j) && Decide(g, cur, from, to).taken == Ray(from, d, j);
      DiagonalIsRay(from, to);
    }
  }

  /** movePiece: the new state and whether the move was made. */
  function Move(s: GameState, from: Pos, to: Pos): (GameState, bool)
    requires WellFormed(s.board) && InBounds(from) && InBounds(to)
    requires QueenMoveDiagonal(s.board, from, to)
  {
    match Decide(s.board, s.current, from, to)
    case Rejected => (s, false)
    case Slide => (AfterSlide(s, from, to), true)
    case Capture(t) =>
      CaptureTarget(s.board, s.current, from, to);
      (AfterCapture(s, from, to, t), true)
  }

  /** Move by the outcome of Decide. */
  lemma MoveByOutcome(s: GameState, from: Pos, to: Pos)
    requires WellFormed(s.board) && InBounds(from) && InBounds(to)
    requires QueenMoveDiagonal(s.board, from, to)
    ensures Decide(s.board, s.current, from, to) == Rejected ==> Move(s, from, to) == (s, false)
    ensures Decide(s.board, s.current, from, to) == Slide ==> Move(s, from, to) == (AfterSlide(s, from, to), true)
    ensures Decide(s.board, s.current, from, to).Capture? ==>
              var t := Decide(s.board, s.current, from, to).taken;
              InBounds(t) && Move(s, from, to) == (AfterCapture(s, from, to, t), true)
  {
    if Decide(s.board, s.current, from, to).Capture? {
      CaptureTarget(s.board, s.current, from, to);
    }
  }

  /** The lock's timer: clear the lock, and end the turn unless the game is
      over. */
  function Fire(s: GameState): GameState
    requires s.timers > 0
  {
    var s1 := s.(mustEndTurn := false, timers := s.timers - 1);
    if !s1.gameOver then EndTurn(s1) else s1
  }

  /** The squares highlightMoves marks for the piece at `from`. */
  function Hints(g: Grid, cur: Player, from: Pos): set<Pos>
    requires WellFormed(g) && InBounds(from)
  {
    set r: int, c: int | 0 <= r < 8 && 0 <= c < 8 && Hint(g, cur, from, Pos(r, c)) :: Pos(r, c)
  }

  /** A click may reach movePiece only with a selection and a highlighted
      square; stale highlights must still describe a diagonal queen move. */
  ghost predicate ClickMoveDiagonal(s: GameState, at: Pos)
    requires WellFormed(s.board)
  {
    (s.selected.Some? && InBounds(s.selected.value) && InBounds(at) && At(s.board, at).None?
     && at in s.highlights) ==> QueenMoveDiagonal(s.board, s.selected.value, at)
  }

  /** handleMove for a click on square `at` by the client whose identity is
      `me`: the new state and the move to announce, if one was made. */
  function Click(s: GameState, me: Option<int>, at: Pos): (GameState, Option<(Pos, Pos)>)
    requires Inv(s) && InBounds(at) && ClickMoveDiagonal(s, at)
  {
    if s.mustEndTurn || s.gameOver || me != Some(s.current) then (s, None)
    else if OwnedBy(At(s.board, at), s.current) then
      (s.(selected := Some(at), highlights := Hints(s.board, s.current, at)), None)
    else if IsDark(at) && s.selected.Some? && At(s.board, at).None? && at in s.highlights then
      var from := s.selected.value;
      var (t, moved) := Move(s.(highlights := {}), from, at);
      (t, if moved then Some((from, at)) else None)
    else (s, None)
  }

  // ---------------------------------------------------------------------
  // Properties of movePiece

  /** Relocating a piece onto an empty square keeps every count. */
  lemma CountRelocate(g: Grid, from: Pos, to: Pos, p: Player)
    requires WellFormed(g) && InBounds(from) && InBounds(to) && from != to && At(g, to).None?
    ensures Count(Relocate(g, from, to), p) == Count(g, p)
  {
    CountPut(g, to, At(g, from), p);
    CountPut(Put(g, to, At(g, from)), from, None, p);
  }

  /** Promotion keeps every count. */
  lemma CountPromote(g: Grid, at: Pos, p: Player)
    requires WellFormed(g) && InBounds(at)
    ensures Count(PromoteAt(g, at), p) == Count(g, p)
  {
    if At(g, at).Some? && PromotionRow(At(g, at).value.owner, at.row) {
      CountPut(g, at, Some(At(g, at).value.(queen := true)), p);
    }
  }

  /** movePiece refuses, and changes nothing, when the start square is
      empty, when the destination is occupied, when a man moves by other than
      one or two squares diagonally, and when a man's two-square move does not
      jump a piece of `3 - currentPlayer`. */
  lemma Rejections(s: GameState, from: Pos, to: Pos)
    requires WellFormed(s.board) && InBounds(from) && InBounds(to)
    requires QueenMoveDiagonal(s.board, from, to)
    ensures !Move(s, from, to).1 ==> Move(s, from, to).0 == s
    ensures At(s.board, from).None? ==> !Move(s, from, to).1
    ensures At(s.board, to).Some? ==> !Move(s, from, to).1
    ensures (At(s.board, from).Some? && !At(s.board, from).value.queen
             && !(Abs(to.row - from.row) == Abs(to.col - from.col) == 1)
             && !(Abs(to.row - from.row) == Abs(to.col - from.col) == 2)) ==> !Move(s, from, to).1
    ensures (At(s.board, from).Some? && !At(s.board, from).value.queen
             && Abs(to.row - from.row) == Abs(to.col - from.col) == 2
             && !OwnedBy(At(s.board, Midpoint(from, to)), Opponent(s.current))) ==> !Move(s, from, to).1
  {
  }

  /** A move that is made always travels diagonally, as far in rows as in
      columns, so the piece keeps the colour of its square. */
  lemma MadeMoveIsDiagonal(g: Grid, cur: Player, from: Pos, to: Pos)
    requires WellFormed(g) && InBounds(from) && InBounds(to)
    requires QueenMoveDiagonal(g, from, to)
    requires Decide(g, cur, from, to) != Rejected
    ensures IsDiagonal(from, to) && from != to
    ensures IsDark(to) == IsDark(from)
  {
    DiagonalIsRay(from, to);
    RayKeepsColour(from, DirOf(from, to), Abs(to.row - from.row));
  }

  /** A move without capture (a man's single step, or a queen's slide over
      empty squares): the piece is relocated and possibly promoted, nothing
      else on the board changes, no piece is removed, the scores stay, the
      selection is dropped and the turn passes to `3 - currentPlayer`. */
  lemma SlideEffect(s: GameState, from: Pos, to: Pos)
    requires WellFormed(s.board) && InBounds(from) && InBounds(to)
    requires QueenMoveDiagonal(s.board, from, to)
    requires Decide(s.board, s.current, from, to) == Slide
    ensures var (t, moved) := Move(s, from, to);
      && moved && WellFormed(t.board)
      && At(t.board, to) == Some(Promoted(At(s.board, from).value, to.row))
      && At(t.board, from).None?
      && (forall q :: InBounds(q) && q != from && q != to ==> At(t.board, q) == At(s.board, q))
      && Count(t.board, 1) == Count(s.board, 1) && Count(t.board, 2) == Count(s.board, 2)
      && t.current == Opponent(s.current) && t.selected.None?
      && t.score1 == s.score1 && t.score2 == s.score2
      && t.mustEndTurn == s.mustEndTurn && t.gameOver == s.gameOver && t.timers == s.timers && t.highlights == s.highlights
  {
    var b := Relocate(s.board, from, to);
    CountRelocate(s.board, from, to, 1);
    CountRelocate(s.board, from, to, 2);
    CountPromote(b, to, 1);
    CountPromote(b, to, 2);
  }

  /** A man's single diagonal step onto an empty square is always made, in
      either direction and whoever owns the man. */
  lemma ManStepAccepted(s: GameState, from: Pos, to: Pos)
    requires WellFormed(s.board) && InBounds(from) && InBounds(to)
    requires At(s.board, from).Some? && !At(s.board, from).value.queen && At(s.board, to).None?
    requires Abs(to.row - from.row) == 1 && Abs(to.col - from.col) == 1
    ensures Decide(s.board, s.current, from, to) == Slide && Move(s, from, to).1
  {
  }

  /** A man's two-square diagonal move onto an empty square is made exactly
      when the square jumped holds a piece of `3 - currentPlayer`; that is
      the piece taken. */
  lemma ManJump(s: GameState, from: Pos, to: Pos)
    requires WellFormed(s.board) && InBounds(from) && InBounds(to)
    requires At(s.board, from).Some? && !At(s.board, from).value.queen && At(s.board, to).None?
    requires Abs(to.row - from.row) == 2 && Abs(to.col - from.col) == 2
    ensures InBounds(Midpoint(from, to))
    ensures Move(s, from, to).1 <==> OwnedBy(At(s.board, Midpoint(from, to)), Opponent(s.current))
    ensures Move(s, from, to).1 ==> Decide(s.board, s.current, from, to) == Capture(Midpoint(from, to))
  {
  }

  /** A capture that leaves both sides with pieces: exactly the taken piece
      (of `3 - currentPlayer`) is removed, the mover is relocated and possibly
      promoted, nothing else on the board changes, the side to move scores one
      point, and the lock is set with its timer pending instead of the turn
      passing. */
  lemma CaptureEffect(s: GameState, from: Pos, to: Pos)
    requires WellFormed(s.board) && InBounds(from) && InBounds(to)
    requires QueenMoveDiagonal(s.board, from, to)
    requires Decide(s.board, s.current, from, to).Capture?
    requires Count(s.board, Opponent(s.current)) > 1 && Count(s.board, s.current) > 0
    ensures var (t, moved) := Move(s, from, to);
      var taken := Decide(s.board, s.current, from, to).taken;
      && moved && WellFormed(t.board) && InBounds(taken)
      && OwnedBy(At(s.board, taken), Opponent(s.current)) && At(t.board, taken).None?
      && At(t.board, to) == Some(Promoted(At(s.board, from).value, to.row))
      && At(t.board, from).None?
      && (forall q :: InBounds(q) && q != from && q != to && q != taken ==> At(t.board, q) == At(s.board, q))
      && Count(t.board, Opponent(s.current)) == Count(s.board, Opponent(s.current)) - 1
      && Count(t.board, s.current) == Count(s.board, s.current)
      && t.current == s.current && t.selected == Follow(s.selected, from, to)
      && (if s.current == 1 then t.score1 == s.score1 + 1 && t.score2 == s.score2
          else t.score2 == s.score2 + 1 && t.score1 == s.score1)
      && t.mustEndTurn && t.timers == s.timers + 1 && t.gameOver == s.gameOver && t.highlights == s.highlights
  {
    CaptureTarget(s.board, s.current, from, to);
    var taken := Decide(s.board, s.current, from, to).taken;
    var b0 := Put(s.board, taken, None);
    var b := Relocate(b0, from, to);
    CountPut(s.board, taken, None, 1);
    CountPut(s.board, taken, None, 2);
    CountRelocate(b0, from, to, 1);
    CountRelocate(b0, from, to, 2);
    CountPromote(b, to, 1);
    CountPromote(b, to, 2);
  }

  /** A capture that takes the last piece of a side (or leaves the side to
      move with none) resets the game: initial board, both scores 0, player 1
      to move, no selection, gameOver false; but the lock is then set and its
      timer is pending, as the source sets mustEndTurn after checkVictory. */
  lemma VictoryResets(s: GameState, from: Pos, to: Pos)
    requires WellFormed(s.board) && InBounds(from) && InBounds(to)
    requires QueenMoveDiagonal(s.board, from, to)
    requires Decide(s.board, s.current, from, to).Capture?
    requires Count(s.board, Opponent(s.current)) == 1 || Count(s.board, s.current) == 0
    ensures var (t, moved) := Move(s, from, to);
      && moved && t.board == InitialGrid() && t.score1 == 0 && t.score2 == 0
      && t.current == 1 && t.selected.None? && t.highlights == {} && !t.gameOver
      && t.mustEndTurn && t.timers == s.timers + 1
  {
    CaptureTarget(s.board, s.current, from, to);
    var taken := Decide(s.board, s.current, from, to).taken;
    var b0 := Put(s.board, taken, None);
    CountPut(s.board, taken, None, Opponent(s.current));
    CountPut(s.board, taken, None, s.current);
    CountRelocate(b0, from, to, Opponent(s.current));
    CountRelocate(b0, from, to, s.current);
  }

  /** The reset after a winning capture leaves the lock's timer pending; when
      it fires, gameOver is already false again, so the turn passes and
      player 2, not player 1, moves first in the new game. */
  lemma VictoryThenTimer(s: GameState, from: Pos, to: Pos)
    requires WellFormed(s.board) && InBounds(from) && InBounds(to)
    requires QueenMoveDiagonal(s.board, from, to)
    requires Decide(s.board, s.current, from, to).Capture?
    requires Count(s.board, Opponent(s.current)) == 1
    ensures Move(s, from, to).0.timers > 0
    ensures var t := Fire(Move(s, from, to).0);
      t.board == InitialGrid() && t.current == 2 && !t.mustEndTurn && t.score1 == 0 && t.score2 == 0
  {
    VictoryResets(s, from, to);
  }

  /** After a capture that does not end the game, the timer clears the lock,
      drops the selection and passes the turn to `3 - currentPlayer`. */
  lemma CaptureThenTimer(s: GameState, from: Pos, to: Pos)
    requires WellFormed(s.board) && InBounds(from) && InBounds(to)
    requires QueenMoveDiagonal(s.board, from, to)
    requires Decide(s.board, s.current, from, to).Capture?
    requires Count(s.board, Opponent(s.current)) > 1 && Count(s.board, s.current) > 0
    requires !s.gameOver
    ensures Move(s, from, to).0.timers > 0
    ensures var t := Fire(Move(s, from, to).0);
      t.current == Opponent(s.current) && !t.mustEndTurn && t.selected.None? && t.timers == s.timers
  {
    CaptureEffect(s, from, to);
  }

  /** No move demotes a queen: unless the game is reset, every queen that is
      not taken is still a queen where it stands afterwards (the mover on its
      destination, the others where they were), and the mover is a queen
      afterwards exactly when it was one or it reached its far row. */
  lemma QueensStayQueens(s: GameState, from: Pos, to: Pos)
    requires WellFormed(s.board) && InBounds(from) && InBounds(to)
    requires QueenMoveDiagonal(s.board, from, to)
    requires Move(s, from, to).1
    requires Decide(s.board, s.current, from, to).Capture? ==>
               Count(s.board, Opponent(s.current)) > 1 && Count(s.board, s.current) > 0
    ensures var t := Move(s, from, to).0;
      && WellFormed(t.board)
      && At(t.board, to).Some?
      && (At(t.board, to).value.queen <==>
            At(s.board, from).value.queen || PromotionRow(At(s.board, from).value.owner, to.row))
      && forall q :: (InBounds(q) && q != from && At(s.board, q).Some? && At(s.board, q).value.queen
                      && At(t.board, q).Some?) ==> At(t.board, q).value.queen
  {
    if Decide(s.board, s.current, from, to).Capture? {
      CaptureEffect(s, from, to);
    } else {
      SlideEffect(s, from, to);
    }
  }

  /** movePiece keeps the invariant: pieces stay on dark squares and a
      selected piece still belongs to the side to move. */
  lemma MovePreservesInv(s: GameState, from: Pos, to: Pos)
    requires Inv(s) && InBounds(from) && InBounds(to)
    requires QueenMoveDiagonal(s.board, from, to)
    ensures Inv(Move(s, from, to).0)
  {
    var d := Decide(s.board, s.current, from, to);
    if d == Slide {
      SlideEffect(s, from, to);
      MadeMoveIsDiagonal(s.board, s.current, from, to);
      OnDarkAfterMove(s.board, Move(s, from, to).0.board, from, to, from);
    } else if d.Capture? {
      CaptureTarget(s.board, s.current, from, to);
      CountPut(s.board, d.taken, None, Opponent(s.current));
      if Count(s.board, Opponent(s.current)) == 1 || Count(s.board, s.current) == 0 {
        VictoryResets(s, from, to);
        InitialLayout();
      } else {
        CaptureEffect(s, from, to);
        MadeMoveIsDiagonal(s.board, s.current, from, to);
        OnDarkAfterMove(s.board, Move(s, from, to).0.board, from, to, d.taken);
      }
    }
  }

  /** A board that differs from an all-dark one only by emptying `from` and
      `taken` and by putting a piece on the dark square `to` is all-dark. */
  lemma OnDarkAfterMove(g: Grid, h: Grid, from: Pos, to: Pos, taken: Pos)
    requires WellFormed(g) && WellFormed(h) && OnDark(g) && InBounds(to) && IsDark(to)
    requires forall q :: InBounds(q) && q != from && q != to && q != taken ==> At(h, q) == At(g, q)
    requires InBounds(from) ==> At(h, from).None?
    requires InBounds(taken) ==> At(h, taken).None?
    ensures OnDark(h)
  {
  }

  /** The timer keeps the invariant. */
  lemma FirePreservesInv(s: GameState)
    requires Inv(s) && s.timers > 0
    ensures Inv(Fire(s))
  {
  }

  // ---------------------------------------------------------------------
  // Properties of the click handler

  /** Input is ignored during the lock, after the game ended and when it is
      not this client's turn. */
  lemma ClickGate(s: GameState, me: Option<int>, at: Pos)
    requires Inv(s) && InBounds(at) && ClickMoveDiagonal(s, at)
    requires s.mustEndTurn || s.gameOver || me != Some(s.current)
    ensures Click(s, me, at) == (s, None)
  {
  }

  /** A click that moves a piece moves the selected piece, which belongs to
      the side to move and to this client, onto a highlighted square, and the
      state afterwards is movePiece's. */
  lemma ClickMoveIsOwn(s: GameState, me: Option<int>, at: Pos)
    requires Inv(s) && InBounds(at) && ClickMoveDiagonal(s, at)
    requires Click(s, me, at).1.Some?
    ensures var (from, to) := Click(s, me, at).1.value;
      && me == Some(s.current) && !s.mustEndTurn && !s.gameOver
      && s.selected == Some(from) && to == at && at in s.highlights
      && OwnedBy(At(s.board, from), s.current)
      && Decide(s.board, s.current, from, at) != Rejected
      && Click(s, me, at).0 == Move(s.(highlights := {}), from, at).0
  {
  }

  /** Selecting a piece highlights exactly Hints; clicking one of those
      squares then makes the move and announces it. */
  lemma SelectThenClickMoves(s: GameState, me: Option<int>, from: Pos, to: Pos)
    requires Inv(s) && InBounds(from) && InBounds(to)
    requires !s.mustEndTurn && !s.gameOver && me == Some(s.current)
    requires OwnedBy(At(s.board, from), s.current)
    requires Hint(s.board, s.current, from, to)
    ensures ClickMoveDiagonal(s, from)
    ensures var s1 := Click(s, me, from).0;
      && s1.selected == Some(from) && s1.highlights == Hints(s.board, s.current, from)
      && Inv(s1) && ClickMoveDiagonal(s1, to)
      && Click(s1, me, to).1 == Some((from, to))
      && Click(s1, me, to).0.board == Move(s, from, to).0.board
  {
    var s1 := Click(s, me, from).0;
    HintAccepted(s.board, s.current, from, to);
    assert to in s1.highlights;
    MadeMoveIsDiagonal(s.board, s.current, from, to);
    assert s1.(highlights := {}) == s.(selected := Some(from), highlights := {});
    MoveIgnoresSelectionView(s, from, to);
  }

  /** movePiece's outcome does not depend on the selection or on the
      highlights; a selection on the moved piece follows it, and a slide
      drops it. */
  lemma MoveIgnoresSelectionView(s: GameState, from: Pos, to: Pos)
    requires WellFormed(s.board) && InBounds(from) && InBounds(to)
    requires QueenMoveDiagonal(s.board, from, to)
    ensures var s' := s.(selected := Some(from), highlights := {});
      Move(s', from, to).1 == Move(s, from, to).1
      && Move(s', from, to).0.board == Move(s, from, to).0.board
  {
  }

  /** movePiece reads only the board, the side to move and the scores: two
      peers that agree on them and make the same move agree on them again,
      and on whether the move was made. */
  lemma MoveSharesGame(s: GameState, r: GameState, from: Pos, to: Pos)
    requires WellFormed(s.board) && InBounds(from) && InBounds(to)
    requires QueenMoveDiagonal(s.board, from, to)
    requires r.board == s.board && r.current == s.current && r.score1 == s.score1 && r.score2 == s.score2
    ensures var (t, u) := (Move(s, from, to).0, Move(r, from, to).0);
      && Move(r, from, to).1 == Move(s, from, to).1
      && u.board == t.board && u.current == t.current && u.score1 == t.score1 && u.score2 == t.score2
  {
    MoveByOutcome(s, from, to);
    MoveByOutcome(r, from, to);
    var o := Decide(s.board, s.current, from, to);
    if o.Capture? {
      CaptureSharesGame(s, r, from, to, o.taken);
    }
  }

  /** The capture part of MoveSharesGame. */
  lemma CaptureSharesGame(s: GameState, r: GameState, from: Pos, to: Pos, taken: Pos)
    requires WellFormed(s.board) && InBounds(from) && InBounds(to) && InBounds(taken) && from != to
    requires r.board == s.board && r.current == s.current && r.score1 == s.score1 && r.score2 == s.score2
    ensures var (t, u) := (AfterCapture(s, from, to, taken), AfterCapture(r, from, to, taken));
      u.board == t.board && u.current == t.current && u.score1 == t.score1 && u.score2 == t.score2
  {
    var ts, tr := AddPoint(Take(s, from, to, taken)), AddPoint(Take(r, from, to, taken));
    assert tr.board == ts.board && tr.current == ts.current && tr.score1 == ts.score1 && tr.score2 == ts.score2;
    if Wiped(ts.board) {
      assert Settle(ts, to) == Reset(ts) && Settle(tr, to) == Reset(tr);
    } else {
      assert Settle(ts, to).board == Settle(tr, to).board == PromoteAt(ts.board, to);
    }
  }

  /** Hints holds exactly the squares Hint describes. */
  lemma HintsMeaning(g: Grid, cur: Player, from: Pos)
    requires WellFormed(g) && InBounds(from)
    ensures forall p :: p in Hints(g, cur, from) <==> Hint(g, cur, from, p)
  {
    forall p | Hint(g, cur, from, p) ensures p in Hints(g, cur, from) {
      assert InBounds(p);
      assert p == Pos(p.row, p.col);
    }
  }

  /** A click keeps the invariant: a selection is only ever made on a
      piece of the side to move, and a move is movePiece's. */
  lemma ClickPreservesInv(s: GameState, me: Option<int>, at: Pos)
    requires Inv(s) && InBounds(at) && ClickMoveDiagonal(s, at)
    ensures Inv(Click(s, me, at).0)
  {
    if !(s.mustEndTurn || s.gameOver || me != Some(s.current)) && !OwnedBy(At(s.board, at), s.current)
       && IsDark(at) && s.selected.Some? && At(s.board, at).None? && at in s.highlights {
      MovePreservesInv(s.(highlights := {}), s.selected.value, at);
    }
  }
}
