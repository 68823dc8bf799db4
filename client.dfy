/** The checkers client of public/script.js as an object: its globals become
    the fields of Game, the DOM board becomes the grid `board`, and each
    function of the script becomes a method proved against the functions of
    module Turns. */
module Client {
  import opened Board
  import opened Rules
  import opened Turns
  import opened Wire

  class Game {
    var board: Grid
    var current: Player
    var score1: nat
    var score2: nat
    /** The square of selectedPiece. */
    var selected: Option<Pos>
    /** The squares carrying the 'highlight' class. */
    var highlights: set<Pos>
    var mustEndTurn: bool
    var gameOver: bool
    /** Lock-release callbacks scheduled with setTimeout and not yet run. */
    var timers: nat
    /** The identity announced by the relay; None before any `init` line
        (null) and after an `init` line without a number (NaN). */
    var playerId: Option<int>

    ghost function State(): GameState
      reads this
    {
      GameState(board, current, score1, score2, selected, highlights, mustEndTurn, gameOver, timers)
    }

    ghost predicate Valid()
      reads this
    {
      Inv(State())
    }

    /** The page load: the globals' initial values, then createBoard. */
    constructor ()
      ensures Valid() && State() == InitialState() && playerId.None?
    {
      current := 1;
      score1, score2 := 0, 0;
      selected := None;
      highlights := {};
      mustEndTurn, gameOver := false, false;
      timers := 0;
      playerId := None;
      board := [];
      new;
      CreateBoard();
      InitialLayout();
    }

    /** createBoard: eight rows of eight squares, a man of player 2 on each
        dark square of rows 0-2 and a man of player 1 on each dark square of
        rows 5-7. The squares are new, so no highlight survives. */
    method CreateBoard()
      modifies this
      ensures board == InitialGrid() && highlights == {}
      ensures current == old(current) && score1 == old(score1) && score2 == old(score2)
      ensures selected == old(selected) && mustEndTurn == old(mustEndTurn)
      ensures gameOver == old(gameOver) && timers == old(timers) && playerId == old(playerId)
    {
      var rows: seq<seq<Square>> := [];
      for row := 0 to 8
        invariant |rows| == row
        invariant forall r :: 0 <= r < row ==> rows[r] == InitialGrid()[r]
      {
        var line: seq<Square> := [];
        for col := 0 to 8
          invariant |line| == col
          invariant forall c :: 0 <= c < col ==> line[c] == InitialSquare(Pos(row, c))
        {
          var square: Square := None;
          if (row + col) % 2 == 0 && row < 3 {
            square := Some(Piece(2, false));
          } else if (row + col) % 2 == 0 && row > 4 {
            square := Some(Piece(1, false));
          }
          line := line + [square];
        }
        rows := rows + [line];
      }
      board := rows;
      highlights := {};
    }

    /** endTurn. */
    method EndTurn()
      modifies this
      ensures State() == Turns.EndTurn(old(State())) && playerId == old(playerId)
    {
      selected := None;
      current := 3 - current;
    }

    /** updateScore. */
    method UpdateScore()
      modifies this
      ensures State() == AddPoint(old(State())) && playerId == old(playerId)
    {
      if current == 1 {
        score1 := score1 + 1;
      } else {
        score2 := score2 + 1;
      }
    }

    /** checkPromotion on the piece standing at `at`. */
    method CheckPromotion(at: Pos)
      requires WellFormed(board) && InBounds(at)
      modifies this
      ensures State() == old(State()).(board := PromoteAt(old(board), at)) && playerId == old(playerId)
    {
      var square := At(board, at);
      if square.Some? && ((square.value.owner == 1 && at.row == 0) || (square.value.owner == 2 && at.row == 7)) {
        board := Put(board, at, Some(square.value.(queen := true)));
      }
    }

    /** resetGame. */
    method ResetGame()
      modifies this
      ensures State() == Reset(old(State())) && playerId == old(playerId)
    {
      score1, score2 := 0, 0;
      current := 1;
      mustEndTurn := false;
      gameOver := false;
      selected := None;
      CreateBoard();
    }

    /** The counting loop of checkVictory: the pieces of each player, square
        by square in document order. */
    method CountPieces() returns (count1: nat, count2: nat)
      requires WellFormed(board)
      ensures count1 == Count(board, 1) && count2 == Count(board, 2)
    {
      count1, count2 := 0, 0;
      for row := 0 to 8
        invariant count1 == CountRows(board, 1, row) && count2 == CountRows(board, 2, row)
      {
        for col := 0 to 8
          invariant count1 == CountRows(board, 1, row) + RowCount(board[row], 1, col)
          invariant count2 == CountRows(board, 2, row) + RowCount(board[row], 2, col)
        {
          var square := board[row][col];
          if square.Some? && square.value.owner == 1 {
            count1 := count1 + 1;
          }
          if square.Some? && square.value.owner == 2 {
            count2 := count2 + 1;
          }
        }
      }
    }

    /** checkVictory: when a side has no piece left the game is over and is
        reset at once; `reset` tells whether that happened. */
    method CheckVictory() returns (reset: bool)
      requires WellFormed(board)
      modifies this
      ensures reset == Wiped(old(board)) && playerId == old(playerId)
      ensures State() == if reset then Reset(old(State())) else old(State())
    {
      var count1, count2 := CountPieces();
      reset := false;
      if count1 == 0 {
        gameOver := true;
        ResetGame();
        reset := true;
      } else if count2 == 0 {
        gameOver := true;
        ResetGame();
        reset := true;
      }
    }

    /** toSquare.appendChild(piece): the piece moves, and the selection, a
        reference to the piece, moves with it. */
    method AppendChild(from: Pos, to: Pos)
      requires WellFormed(board) && InBounds(from) && InBounds(to) && from != to
      modifies this
      ensures State() == old(State()).(board := Relocate(old(board), from, to),
                                       selected := Follow(old(selected), from, to))
      ensures playerId == old(playerId)
    {
      board := Relocate(board, from, to);
      selected := Follow(selected, from, to);
    }

    /** A move without capture once it is decided: relocate, promote, end
        the turn. */
    method CompleteSlide(from: Pos, to: Pos)
      requires WellFormed(board) && InBounds(from) && InBounds(to) && from != to
      modifies this
      ensures State() == AfterSlide(old(State()), from, to) && playerId == old(playerId)
    {
      AppendChild(from, to);
      CheckPromotion(to);
      EndTurn();
    }

    /** The removal of the captured piece, then toSquare.appendChild. */
    method TakePiece(from: Pos, to: Pos, taken: Pos)
      requires WellFormed(board) && InBounds(from) && InBounds(to) && InBounds(taken) && from != to
      modifies this
      ensures State() == Take(old(State()), from, to, taken) && playerId == old(playerId)
    {
      board := Put(board, taken, None);
      AppendChild(from, to);
    }

    /** After a capture is scored: checkVictory, then checkPromotion of the
        capturing piece unless checkVictory rebuilt the board. */
    method SettleCapture(to: Pos)
      requires WellFormed(board) && InBounds(to)
      modifies this
      ensures State() == Settle(old(State()), to) && playerId == old(playerId)
    {
      var reset := CheckVictory();
      if !reset {
        CheckPromotion(to);
      }
    }

    /** A capture once its taken square is known: remove that piece,
        relocate, score, check victory, promote unless the board was rebuilt, and set
        the lock with its timer. */
    method CompleteCapture(from: Pos, to: Pos, taken: Pos)
      requires WellFormed(board) && InBounds(from) && InBounds(to) && InBounds(taken) && from != to
      modifies this
      ensures State() == AfterCapture(old(State()), from, to, taken) && playerId == old(playerId)
    {
      TakePiece(from, to, taken);
      UpdateScore();
      SettleCapture(to);
      mustEndTurn := true;
      timers := timers + 1;
    }

    /** The tests of movePiece, which only read the board: which branch
        applies and, for a capture, which square is emptied. */
    method Decision(from: Pos, to: Pos) returns (outcome: Outcome)
      requires WellFormed(board) && InBounds(from) && InBounds(to) && QueenMoveDiagonal(board, from, to)
      ensures outcome == Decide(board, current, from, to)
    {
      var piece := At(board, from);
      if piece.None? || At(board, to).Some? {
        return Rejected;
      }
      var rowDiff, colDiff := to.row - from.row, to.col - from.col;
      var isQueen := piece.value.queen;
      if !isQueen && Abs(rowDiff) == 1 && Abs(colDiff) == 1 {
        return Slide;
      }
      if !isQueen && Abs(rowDiff) == 2 && Abs(colDiff) == 2 {
        var mid := Midpoint(from, to);
        var midPiece := Lookup(board, mid);
        if midPiece.Some? && midPiece.value.owner == 3 - current {
          return Capture(mid);
        }
        return Rejected;
      }
      if isQueen {
        var steps := Abs(rowDiff);
        var dx := UnitStep(rowDiff, steps);
        var dy := UnitStep(colDiff, steps);
        DiagonalIsRay(from, to);
        var v := WalkPath(board, current, from, dx, dy, steps);
        QueenDecision(board, current, from, to, StepDir(dx, dy), steps, v);
        match v {
          case Blocked => return Rejected;
          case OneEnemy(q) => return Capture(q);
          case Clear => return Slide;
        }
      }
      return Rejected;
    }

    /** movePiece: its tests decide the branch, then the branch's effects
        are carried out; the result is what Turns.Move says. */
    method MovePiece(from: Pos, to: Pos) returns (moved: bool)
      requires WellFormed(board) && InBounds(from) && InBounds(to) && QueenMoveDiagonal(board, from, to)
      modifies this
      ensures (State(), moved) == Move(old(State()), from, to) && playerId == old(playerId)
    {
      MoveByOutcome(State(), from, to);
      var outcome := Decision(from, to);
      match outcome {
        case Rejected =>
          moved := false;
        case Slide =>
          CompleteSlide(from, to);
          moved := true;
        case Capture(taken) =>
          CaptureTarget(board, current, from, to);
          CompleteCapture(from, to, taken);
          moved := true;
      }
    }

    /** applyRemoteMove: the peer's move replayed through movePiece. */
    method ApplyRemoteMove(from: Pos, to: Pos)
      requires Valid() && InBounds(from) && InBounds(to) && QueenMoveDiagonal(board, from, to)
      modifies this
      ensures State() == Move(old(State()), from, to).0
      ensures Valid() && playerId == old(playerId)
    {
      MovePreservesInv(State(), from, to);
      var _ := MovePiece(from, to);
    }

    /** The queen part of highlightMoves along one direction: step outward
        over dark squares, marking empty ones, until the board ends, a light
        square, a piece not of `3 - current`, or a second piece of
        `3 - current`. */
    method QueenRay(from: Pos, dx: int, dy: int) returns (marked: set<Pos>)
      requires WellFormed(board) && InBounds(from) && (dx == 1 || dx == -1) && (dy == 1 || dy == -1)
      ensures forall p :: p in marked <==> QueenHint(board, current, from, p) && DirOf(from, p) == StepDir(dx, dy)
    {
      var g, cur := board, current;
      ghost var d := StepDir(dx, dy);
      marked := {};
      var step := 1;
      var foundEnemy := false;
      ghost var walked := Clear;
      QueenHintsNone(g, cur, from, d);
      while true
        invariant 1 <= step <= 8
        invariant forall k :: 1 <= k < step ==> IsDark(Ray(from, d, k))
        invariant walked == ScanRay(g, cur, from, d, step - 1)
        invariant walked != Blocked && foundEnemy == walked.OneEnemy?
        invariant marked == QueenHintsWithin(g, cur, from, d, step)
        decreases 8 - step
      {
        var target := Offset(from, dx, dy, step);
        if !InBounds(target) || !IsDark(target) {
          QueenNoHintBeyond(g, cur, from, d, step);
          break;
        }
        if At(g, target).None? {
          // `!foundEnemy || isQueen` always holds here: the walk is a queen's.
          QueenWalkOn(g, cur, from, d, step);
          marked := marked + {target};
        } else if At(g, target).value.owner == 3 - cur {
          if foundEnemy {
            QueenNoHintBeyond(g, cur, from, d, step);
            break;
          }
          QueenWalkOn(g, cur, from, d, step);
          foundEnemy := true;
        } else {
          QueenNoHintBeyond(g, cur, from, d, step);
          break;
        }
        walked := ScanRay(g, cur, from, d, step);
        step := step + 1;
      }
    }

    /** The man part of highlightMoves: for each of the two forward
        diagonals, the square beyond a piece of `3 - current` when it is
        empty, and the adjacent square when it is empty. */
    method ManHighlights(from: Pos, owner: Player) returns (hs: set<Pos>)
      requires WellFormed(board) && InBounds(from)
      ensures forall p :: p in hs <==> ManHint(board, current, from, owner, p)
    {
      hs := {};
      var dx := if owner == 1 then -1 else 1;
      for i := 0 to 2
        invariant forall p :: p in hs <==>
                    ManHint(board, current, from, owner, p)
                    && ((i >= 1 && p.col < from.col) || (i == 2 && p.col > from.col))
      {
        var dy := [-1, 1][i];
        var step := Pos(from.row + dx, from.col + dy);
        var jump := Pos(from.row + dx * 2, from.col + dy * 2);
        ManHintSide(board, current, from, owner, dy);
        var mid := Lookup(board, step);
        if mid.Some? && mid.value.owner == 3 - current && InBounds(jump) && At(board, jump).None? {
          hs := hs + {jump};
        }
        if InBounds(step) && At(board, step).None? {
          hs := hs + {step};
        }
      }
    }

    /** The queen part of highlightMoves: the walk along each of the four
        diagonals in turn. */
    method QueenHighlights(from: Pos) returns (hs: set<Pos>)
      requires WellFormed(board) && InBounds(from)
      ensures forall p :: p in hs <==> QueenHint(board, current, from, p)
    {
      hs := {};
      var directions := [(1, 1), (1, -1), (-1, 1), (-1, -1)];
      ghost var dirs := [Dir(true, true), Dir(true, false), Dir(false, true), Dir(false, false)];
      for i := 0 to 4
        invariant forall p :: p in hs <==> QueenHint(board, current, from, p) && DirOf(from, p) in dirs[..i]
      {
        var (dx, dy) := directions[i];
        assert StepDir(dx, dy) == dirs[i];
        var marked := QueenRay(from, dx, dy);
        assert dirs[..i + 1] == dirs[..i] + [dirs[i]];
        hs := hs + marked;
      }
      assert dirs[..4] == dirs;
    }

    /** highlightMoves for the piece standing at `from`: exactly the squares
        Hint describes. */
    method HighlightMoves(from: Pos) returns (hs: set<Pos>)
      requires WellFormed(board) && InBounds(from) && At(board, from).Some?
      ensures hs == Hints(board, current, from)
    {
      var piece := At(board, from).value;
      if !piece.queen {
        hs := ManHighlights(from, piece.owner);
      } else {
        hs := QueenHighlights(from);
      }
      HintsMeaning(board, current, from);
    }

    /** The lock's timer fires. */
    method TimerFires()
      requires Valid() && timers > 0
      modifies this
      ensures State() == Fire(old(State()))
      ensures Valid() && playerId == old(playerId)
    {
      FirePreservesInv(State());
      mustEndTurn := false;
      timers := timers - 1;
      if !gameOver {
        EndTurn();
      }
    }

    /** handleMove for a click on square `at`: the new state is Click's, and
        the line sent to the relay is the move Click reports, if any. */
    method HandleClick(at: Pos) returns (sent: Option<string>)
      requires Valid() && InBounds(at) && ClickMoveDiagonal(State(), at)
      modifies this
      ensures State() == Click(old(State()), old(playerId), at).0
      ensures sent == match Click(old(State()), old(playerId), at).1
                      case None => None
                      case Some(m) => Some(MoveText(m.0, m.1))
      ensures Valid() && playerId == old(playerId)
    {
      ClickPreservesInv(State(), playerId, at);
      if mustEndTurn || gameOver || playerId != Some(current) {
        return None;
      }
      if OwnedBy(At(board, at), current) {
        selected := Some(at);
        var hs := HighlightMoves(at);
        highlights := hs;
        return None;
      } else if IsDark(at) && selected.Some? && At(board, at).None? && at in highlights {
        highlights := {};
        var from := selected.value;
        var moved := MovePiece(from, at);
        if moved {
          return Some(MoveText(from, at));
        }
        return None;
      }
      return None;
    }

    /** socket.onmessage: an `init` line sets the identity, a `move` line is
        replayed, anything else is ignored. */
    method OnMessage(text: string)
      requires Valid()
      requires var m := ParseMessage(text);
        m.MoveNotice? ==> RemoteMoveReadable(board, m)
      modifies this
      ensures Valid()
      ensures var m := ParseMessage(text);
        match m
        case InitNotice(id) => playerId == id && State() == old(State())
        case MoveNotice(r1, c1, r2, c2) =>
          playerId == old(playerId) && State() == Move(old(State()), Pos(r1.value, c1.value), Pos(r2.value, c2.value)).0
        case Ignored => playerId == old(playerId) && State() == old(State())
    {
      var m := ParseMessage(text);
      if m.InitNotice? {
        playerId := m.id;
      }
      if m.MoveNotice? {
        ApplyRemoteMove(Pos(m.fromRow.value, m.fromCol.value), Pos(m.toRow.value, m.toCol.value));
      }
    }
  }

  /** An offset divided by the distance travelled, which is its length
      on a diagonal: the step of one square in its direction. */
  method UnitStep(diff: int, steps: int) returns (u: int)
    requires diff != 0 && steps == Abs(diff)
    ensures u == Unit(diff > 0)
  {
    u := diff / steps;
    DivByLength(diff);
  }

  /** The square k unit steps (dx, dy) away from `from`, as both queen
      loops compute it: k squares along the direction of (dx, dy). */
  method Offset(from: Pos, dx: int, dy: int, k: int) returns (p: Pos)
    requires (dx == 1 || dx == -1) && (dy == 1 || dy == -1)
    ensures p == Ray(from, StepDir(dx, dy), k)
  {
    p := Pos(from.row + dx * k, from.col + dy * k);
    UnitTimes(dx, k);
    UnitTimes(dy, k);
  }

  /** The queen loop of movePiece: the squares strictly between `from` and
      the square `steps` unit steps (dx, dy) away, visited in order. It
      gives up (Blocked) at a piece not of `3 - cur` or at a second piece of
      `3 - cur`, and otherwise reports the one such piece it met, if any. */
  method WalkPath(g: Grid, cur: Player, from: Pos, dx: int, dy: int, steps: nat) returns (v: PathVerdict)
    requires WellFormed(g) && (dx == 1 || dx == -1) && (dy == 1 || dy == -1) && steps >= 1
    requires InBounds(from) && InBounds(Ray(from, StepDir(dx, dy), steps))
    ensures v == ScanRay(g, cur, from, StepDir(dx, dy), steps - 1)
  {
    ghost var d := StepDir(dx, dy);
    var foundEnemy := false;
    var captured: Option<Pos> := None;
    for i := 1 to steps
      invariant foundEnemy == captured.Some?
      invariant ScanRay(g, cur, from, d, i - 1) == if foundEnemy then OneEnemy(captured.value) else Clear
    {
      var check := Offset(from, dx, dy, i);
      WalkStep(g, cur, from, d, i, steps);
      var square := At(g, check);
      ghost var was := ScanRay(g, cur, from, d, i - 1);
      if square.Some? {
        if square.value.owner == 3 - cur {
          if foundEnemy {
            assert ScanStep(was, square, check, cur) == Blocked;
            return Blocked;
          }
          foundEnemy := true;
          captured := Some(check);
        } else {
          assert ScanStep(was, square, check, cur) == Blocked;
          return Blocked;
        }
      }
    }
    v := if foundEnemy then OneEnemy(captured.value) else Clear;
  }

  /** The peer that receives the line a client sends after a move reads
      back the same two squares, so that MoveSharesGame makes both peers
      reach the same board, side to move and scores. */
  lemma PeerReplays(g: Grid, from: Pos, to: Pos)
    requires WellFormed(g) && InBounds(from) && InBounds(to) && QueenMoveDiagonal(g, from, to)
    ensures var m := ParseMessage(MoveText(from, to));
      && m.MoveNotice? && RemoteMoveReadable(g, m)
      && Pos(m.fromRow.value, m.fromCol.value) == from && Pos(m.toRow.value, m.toCol.value) == to
  {
    MoveRoundTrip(from, to);
  }

  /** A move line the client can replay: four numbers naming squares of the
      board, and a diagonal move when a queen stands on the first. */
  predicate RemoteMoveReadable(g: Grid, m: Message)
    requires WellFormed(g) && m.MoveNotice?
  {
    m.fromRow.Some? && m.fromCol.Some? && m.toRow.Some? && m.toCol.Some?
    && InBounds(Pos(m.fromRow.value, m.fromCol.value)) && InBounds(Pos(m.toRow.value, m.toCol.value))
    && QueenMoveDiagonal(g, Pos(m.fromRow.value, m.fromCol.value), Pos(m.toRow.value, m.toCol.value))
  }
}
