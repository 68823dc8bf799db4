# Checkers rule engine and two-seat relay, in Dafny

This project models the core of a two-player checkers (draughts) game played in
the browser. Each client validates its own moves and sends them to its peer
through a minimal relay. The model has two parts.

- **The client rule engine** (`public/script.js`) is modelled with an explicit
  8×8 grid of `Option<Piece(owner, queen)>` in place of the DOM squares. It
  covers:
  - the initial placement;
  - `movePiece`, with its three branches: a man's one-square step, a man's
    two-square capture, and the queen's walk along the diagonal;
  - promotion, scoring, the piece-count victory and the reset;
  - turn alternation, and the post-capture lock with the timer that releases
    it;
  - the click handler's gate and selection;
  - the move hints of `highlightMoves`;
  - the text line `move r c r c` that one peer sends and the other parses back.
- **The relay roster** (`server.js`) covers:
  - admission of at most two connections;
  - the 1-based identity sent in the `init <id>` line;
  - the fan-out of a received line to every other open connection;
  - removal of a connection that closes.

The modules are laid out as follows:

- `Board` (board.dfy) holds the squares, pieces, grid, initial layout and
  piece counts.
- `Rules` (rules.dfy) holds diagonal geometry and `Decide`, which is
  `movePiece`'s verdict. It also proves that verdict's meaning for the queen
  walk, and defines the board after a move, promotion and the move hints.
- `Turns` (turns.dfy) holds the whole client state as a value (`GameState`).
  It defines `movePiece` together with `updateScore`, `checkVictory`,
  `checkPromotion`, `endTurn` and `resetGame` as the function `Move`. It also
  defines the lock timer (`Fire`) and the click handler (`Click`), and proves
  their properties.
- `Wire` (wire.dfy) models JavaScript's `trim`, `split(' ')`, `parseInt` and
  template-literal number printing. It also holds the message parser and the
  round trips.
- `Client` (client.dfy) holds class `Game`, whose fields are the script's
  globals. Each function of the script becomes a method there, proved against
  the matching function of `Turns`. The loops of the script (board creation,
  the piece count, the queen walk and the hint walks) are `for`/`while` loops
  with invariants.
- `Relay` (relay.dfy) holds class `Server`, with the `players` roster, and
  the broadcast loop.

Several quirks of the code are kept as written:

- `movePiece` does not check that the moving piece belongs to the side to move.
- `movePiece` does not check that a man moves forward.
- "Opponent" always means `3 - currentPlayer`.
- After a winning capture, `resetGame` runs first, and then the lock is set.
  The pending timer therefore still calls `endTurn`, so player 2 moves first
  in the new game.

`resetGame` itself leaves player 1 to move with the lock released
(public/script.js:327-331). The `mustEndTurn = true` and the `setTimeout` that
run after it (public/script.js:142-143) then hand the first move of the new
game to player 2. `Turns.VictoryResets` and `Turns.VictoryThenTimer` state this.

## Model

| member | source | states |
|---|---|---|
| Board.Opponent | public/script.js:136 | `3 - p` is a player other than p, and p is `3 -` it in turn |
| Board.Put | public/script.js:137-138 | writing one square changes that square only; the grid stays 8×8 |
| Board.RowCountPut | public/script.js:295-298 | in one row, a write changes a side's count by the piece it removes and the piece it adds |
| Board.CountRowsPut | public/script.js:295-298 | the same over the first n rows |
| Board.CountPut | public/script.js:291-298 | a write changes a side's board-wide count exactly by the piece it removes and the piece it adds |
| Board.RowCountAlternating | public/script.js:53-63 | a row whose dark squares alternate with empty light ones holds half its squares, rounded by parity |
| Board.RowCountNone | public/script.js:53-63 | a row without pieces of a side counts zero for that side |
| Board.InitialRowCount | public/script.js:53-63 | each of rows 0-2 holds four pieces of player 2, each of rows 5-7 four of player 1, and no other row holds any |
| Board.InitialLayout | public/script.js:44-63 | player 2 occupies exactly the dark squares of rows 0-2 and player 1 exactly those of rows 5-7; rows 3-4 are empty; there are 12 pieces per side, none of them queens |
| Board.InitialGrid | public/script.js:44-63 | the board createBoard builds; its layout is stated by `Board.InitialLayout` |
| Board.Count | public/script.js:291-298 | the pieces of one side on the board, as checkVictory counts them; `Board.CountPut`, `Turns.CountRelocate` and `Turns.CountPromote` say how moves change it |
| Rules.DivByLength | public/script.js:150-152 | dividing a non-zero offset by its absolute value gives the unit step in its direction |
| Rules.UnitTimes | public/script.js:157-158 | a unit step times k is k squares forward or backward |
| Rules.DiagonalIsRay | public/script.js:150-158 | a diagonal target lies as many squares from the start as it lies rows away, along the direction of the move |
| Rules.RayIsDiagonal | public/script.js:241-242 | the square k ≥ 1 steps along a direction is diagonal to the start, in that direction, at distance k |
| Rules.RayBetween | public/script.js:156-159 | the squares between two on-board squares of a diagonal are on the board |
| Rules.RayKeepsColour | public/script.js:245 | a diagonal walk stays on squares of the starting colour |
| Rules.ScanBlockedStays | public/script.js:163-167 | once the queen walk has rejected the move, further squares do not revive it |
| Rules.WalkStep | public/script.js:156-170 | the walk over squares 1..i is the walk over 1..i-1 followed by the test of square i |
| Rules.ScanMeaning | public/script.js:156-170 | the walk finds nothing iff every square on the way is empty; it finds one enemy at j iff j is the only occupied square with an enemy and everything else on the way is empty |
| Rules.ScanBlockedMeaning | public/script.js:161-168 | the walk rejects iff there is a piece not of `3 - current` on the way, or two pieces of `3 - current` |
| Rules.QueenVerdict | public/script.js:149-187 | a queen slides iff the way is empty; it captures exactly the lone enemy on an otherwise empty way; it is rejected iff a foreign piece or a second enemy is on the way |
| Rules.Relocate | public/script.js:123 | the moved piece is on the target, the start is empty, and every other square is unchanged |
| Rules.PromoteAt | public/script.js:270-276 | the piece on the square becomes a queen on its side's far row (row 0 for player 1, row 7 for player 2) or stays as it was; nothing else changes |
| Rules.ManHintSide | public/script.js:207-229 | on one side, a man is offered the empty forward-diagonal square, and the empty square beyond it when that holds a piece of `3 - current`, and nothing else |
| Rules.QueenHintAtStep | public/script.js:247-249 | an empty square reached over dark squares before the walk is blocked is offered to a queen |
| Rules.QueenHintExtend | public/script.js:240-265 | one more step of the hint walk adds exactly that step's square when it is empty |
| Rules.QueenHintsWithinMeaning | public/script.js:240-265 | the set of squares the walk has offered so far is the set described by the hint predicate |
| Rules.QueenHintsNone | public/script.js:237 | before the first step nothing is offered |
| Rules.QueenWalkOn | public/script.js:240-265 | a step over an empty square or the first enemy keeps the walk going on the board, and adds just the empty square |
| Rules.QueenNoHintBeyond | public/script.js:245-261 | once the walk stops (board edge, light square, foreign piece or second enemy), what was offered is every queen hint in that direction |
| Rules.HintAccepted | public/script.js:198-267 | every highlighted square is one movePiece accepts from the selected square; a man's hints lie forward and are captures iff two rows away; a queen's hints lie on its diagonals |
| Rules.ScanRay | public/script.js:156-170 | what the queen loop has found after the first n squares along a direction; `Rules.ScanMeaning` and `Rules.ScanBlockedMeaning` give its meaning |
| Rules.Decide | public/script.js:115-189 | movePiece's verdict (reject, slide or capture); `Turns.Rejections`, `Turns.ManStepAccepted`, `Turns.ManJump` and `Rules.QueenVerdict` characterise it branch by branch |
| Turns.CaptureTarget | public/script.js:130-180 | the captured square is on the board, holds a piece of `3 - current`, and is neither the start nor the target |
| Turns.CountRelocate | public/script.js:123 | relocating a piece keeps both sides' counts |
| Turns.CountPromote | public/script.js:270-276 | promotion keeps both sides' counts |
| Turns.Rejections | public/script.js:110-190 | movePiece returns false and changes nothing when the start is empty, the target is occupied, a man moves neither one nor two diagonal squares, or a man's jump has no piece of `3 - current` in the middle |
| Turns.MadeMoveIsDiagonal | public/script.js:122-186 | every accepted move is diagonal and stays on its colour |
| Turns.SlideEffect | public/script.js:122-127 | a slide moves the (possibly promoted) piece, changes no other square and no count, passes the turn to `3 - current`, drops the selection, and keeps scores, lock, game-over flag and timers |
| Turns.ManStepAccepted | public/script.js:122-127 | a man's one-square diagonal move to an empty square is accepted as a slide |
| Turns.ManJump | public/script.js:130-145 | a man's two-square diagonal move is accepted iff the middle square holds a piece of `3 - current`, which is then the piece taken |
| Turns.CaptureEffect | public/script.js:130-145 | a capture without victory removes exactly the taken piece, moves and promotes the capturer, lowers the opponent's count by one, scores a point for the side to move, keeps the turn, sets the lock and schedules one timer |
| Turns.VictoryResets | public/script.js:290-309 | a capture that leaves a side without pieces rebuilds the initial board with scores 0/0, player 1 to move, nothing selected, game-over cleared, and yet the lock set and one timer pending |
| Turns.VictoryThenTimer | public/script.js:140-143 | after a winning capture, the lock timer hands the first move of the new game to player 2 |
| Turns.CaptureThenTimer | public/script.js:143 | after a capture, the timer releases the lock, drops the selection and passes the turn |
| Turns.QueensStayQueens | public/script.js:270-276 | the moved piece is a queen afterwards iff it was one or it reached its far row; no other queen loses its rank |
| Turns.MovePreservesInv | public/script.js:110-190 | a move keeps the board 8×8, its pieces on dark squares, and any selection on a piece of the side to move |
| Turns.OnDarkAfterMove | public/script.js:122-186 | emptying squares and placing a piece on a dark square keeps every piece on a dark square |
| Turns.FirePreservesInv | public/script.js:143 | the lock timer keeps the invariant |
| Turns.ClickGate | public/script.js:73 | a click during the lock, after the game ended, or when it is not this client's turn is ignored |
| Turns.ClickMoveIsOwn | public/script.js:78-107 | a click that yields a move comes from this client on its turn, unlocked, on a highlighted square; it moves a selected piece of the side to move, which movePiece accepts |
| Turns.SelectThenClickMoves | public/script.js:78-99 | selecting an own piece highlights its hints, and clicking a hint then makes movePiece's move |
| Turns.MoveIgnoresSelectionView | public/script.js:91-99 | movePiece's verdict and board do not depend on the selection or the highlights |
| Turns.MoveSharesGame | public/script.js:193-195 | two peers that agree on board, side to move and scores and apply the same move agree on them again, and on whether it was made |
| Turns.CaptureSharesGame | public/script.js:130-145 | the same for the capture part of a move |
| Turns.HintsMeaning | public/script.js:198-267 | the hint set holds exactly the squares the hint predicate describes |
| Turns.ClickPreservesInv | public/script.js:71-107 | a click keeps the invariant |
| Turns.Reset | public/script.js:322-334 | resetGame's new state; `Turns.VictoryResets` states it after a winning capture |
| Turns.AfterSlide | public/script.js:122-127 | the state after a move without capture; `Turns.SlideEffect` states it in full |
| Turns.AfterCapture | public/script.js:137-143 | the state after a capture; `Turns.CaptureEffect` and `Turns.VictoryResets` state it in full |
| Turns.Move | public/script.js:110-190 | movePiece's new state and result; `Turns.Rejections`, `Turns.SlideEffect`, `Turns.CaptureEffect`, `Turns.QueensStayQueens` and `Turns.MovePreservesInv` give its meaning |
| Turns.Fire | public/script.js:143 | the lock timer's callback; `Turns.CaptureThenTimer`, `Turns.VictoryThenTimer` and `Turns.FirePreservesInv` give its meaning |
| Turns.Hints | public/script.js:198-267 | the squares highlightMoves marks; `Turns.HintsMeaning` and `Rules.HintAccepted` give its meaning |
| Turns.Click | public/script.js:71-107 | handleMove's new state and the move it makes; `Turns.ClickGate`, `Turns.ClickMoveIsOwn`, `Turns.SelectThenClickMoves` and `Turns.ClickPreservesInv` give its meaning |
| Wire.TrimStart | public/script.js:7 | the result is a suffix of the input, does not start with white space, and only white space was dropped |
| Wire.TrimEnd | public/script.js:7 | the result is a prefix of the input, does not end with white space, and only white space was dropped |
| Wire.IndexOfSpace | public/script.js:8 | the first space of the string |
| Wire.Split | public/script.js:8 | there is at least one part, and no part contains a space |
| Wire.SplitJoin | public/script.js:8 | splitting a space-joined list of space-free parts gives the parts back |
| Wire.SplitHead | public/script.js:8 | the first part is a prefix of the string |
| Wire.ShowNat | public/script.js:102 | a natural number prints as a non-empty string of decimal digits |
| Wire.DigitPrefix | public/script.js:12 | parseInt reads the longest prefix of digits of the radix |
| Wire.ShowInt | public/script.js:102 | a printed integer is non-empty, contains no space, and starts and ends with a visible character |
| Wire.ShowNatValue | public/script.js:19-20 | the digits of a printed number have its value |
| Wire.DigitCharValue | public/script.js:19-20 | a printed digit reads back as itself |
| Wire.DigitPrefixAll | public/script.js:19-20 | a string of digits is read whole |
| Wire.ParseDigitsShowNat | public/script.js:19-20 | the unsigned part of parseInt reads a printed natural back |
| Wire.TrimStartVisible | public/script.js:12 | a string starting with a visible character is not trimmed |
| Wire.DigitIsVisible | public/script.js:12 | a digit is neither white space nor a sign |
| Wire.ParseIntMinus | public/script.js:12 | parseInt of a minus sign followed by digits is the negated value |
| Wire.ParseShowNat | public/script.js:12 | parseInt reads a printed natural back |
| Wire.ParseShowInt | public/script.js:19-20 | parseInt reads any printed integer back, negative ones included |
| Wire.TrimLine | public/script.js:7 | trimming a visible line with its newline gives the line |
| Wire.ShowNatNoSpace | public/script.js:102 | a printed natural contains no space |
| Wire.MoveRoundTrip | public/script.js:7-21 | the line a client sends after a move parses back as a move with the same four coordinates |
| Wire.InitRoundTrip | server.js:37 | the `init` line sent to an admitted connection parses back as its identity |
| Wire.JoinEndsWith | public/script.js:102 | a joined line ends with the last character of its last part |
| Wire.BraceIgnored | server.js:25 | a line starting with `{`, such as the relay's error notice, is neither an init nor a move |
| Wire.ParseInt | public/script.js:12 | parseInt on one part of a line; `Wire.ParseShowInt` and `Wire.ParseShowNat` state that it reads printed numbers back |
| Wire.ParseMessage | public/script.js:6-25 | onmessage's reading of a line; `Wire.MoveRoundTrip`, `Wire.InitRoundTrip` and `Wire.BraceIgnored` give its meaning |
| Wire.MoveText | public/script.js:102 | the line sent after a move; `Wire.MoveRoundTrip` states that it parses back to the same squares |
| Wire.InitText | server.js:37 | the line sent to an admitted connection; `Wire.InitRoundTrip` states that it parses back to the identity |
| Client.Game.constructor | public/script.js:35-39 | the page starts in `Turns.InitialState`: the initial board, player 1 to move, scores 0/0, nothing selected, no lock and no identity |
| Client.Game.CreateBoard | public/script.js:42-68 | the board becomes the initial layout and the highlights are gone; everything else is kept |
| Client.Game.EndTurn | public/script.js:312-319 | the new state is `Turns.EndTurn`'s: the selection is dropped and the turn passes to `3 - current` |
| Client.Game.UpdateScore | public/script.js:279-287 | the new state is `Turns.AddPoint`'s: the side to move scores one point |
| Client.Game.CheckPromotion | public/script.js:270-276 | the piece on the square is promoted on its far row |
| Client.Game.ResetGame | public/script.js:322-334 | scores 0/0, player 1 to move, flags cleared, selection dropped and the board rebuilt |
| Client.Game.CountPieces | public/script.js:291-298 | the two counters are the pieces of player 1 and player 2 on the board |
| Client.Game.CheckVictory | public/script.js:290-309 | the game resets iff `Turns.Wiped` holds (a side has no piece left), and otherwise nothing changes |
| Client.Game.AppendChild | public/script.js:123 | the piece moves, and the selection follows it (`Turns.Follow`) |
| Client.Game.CompleteSlide | public/script.js:122-127 | the state after a slide is `Turns.AfterSlide`'s: relocate, promote, end the turn |
| Client.Game.TakePiece | public/script.js:137-138 | the new state is `Turns.Take`'s: the taken piece is removed and the capturer moved |
| Client.Game.SettleCapture | public/script.js:140-141 | the new state is `Turns.Settle`'s: a victory resets the game, and otherwise the capturer is promoted |
| Client.Game.CompleteCapture | public/script.js:137-143 | the state after a capture is `Turns.AfterCapture`'s: take, score, check victory, promote, then `Turns.Lock` |
| Client.Game.Decision | public/script.js:115-189 | movePiece's branches, the queen's walk loop included, reach the verdict `Decide` |
| Client.Game.MovePiece | public/script.js:110-190 | movePiece's new state and its return value are `Move`'s |
| Client.Game.ApplyRemoteMove | public/script.js:193-195 | a remote move is movePiece's move, and it keeps the invariant |
| Client.Game.QueenRay | public/script.js:237-265 | the hint walk in one direction marks exactly the queen hints in that direction |
| Client.Game.ManHighlights | public/script.js:206-231 | a man's hint loop marks exactly the man hints |
| Client.Game.QueenHighlights | public/script.js:235-266 | the four walks mark exactly the queen hints |
| Client.Game.HighlightMoves | public/script.js:198-267 | the highlighted set is exactly the hint set of the selected piece |
| Client.Game.TimerFires | public/script.js:143 | the lock is released and, unless the game is over, the turn ends; the invariant is kept |
| Client.Game.HandleClick | public/script.js:71-107 | the click handler's new state is `Click`'s, and it sends exactly the move line of the move it made |
| Client.Game.OnMessage | public/script.js:6-25 | an `init` line sets the identity, a `move` line applies movePiece, and any other line changes nothing |
| Client.UnitStep | public/script.js:150-152 | `rowDiff / steps` is the unit step toward the target |
| Client.Offset | public/script.js:157-158 | `row + dx * i` is the square i steps along the direction (dx, dy) |
| Client.WalkPath | public/script.js:156-170 | the queen loop of movePiece computes the walk's verdict over the squares strictly between start and target |
| Client.PeerReplays | public/script.js:17-24 | the peer reads back a valid move with the same two squares |
| Relay.WithoutMembers | server.js:54 | removal keeps every other connection and adds none |
| Relay.WithoutAbsent | server.js:54 | removing an absent connection changes nothing |
| Relay.WithoutAt | server.js:54 | removing a roster member leaves those before it and those after it, in order |
| Relay.WithoutDistinct | server.js:54 | removal keeps the roster free of repeats and never lengthens it |
| Relay.IndexOf | server.js:34 | the first index of the connection, or -1 exactly when it is absent |
| Relay.DeliveriesMeaning | server.js:44-48 | every send carries the received line unchanged to an open connection other than the sender, and every such connection gets one |
| Relay.DeliveriesOnce | server.js:44-48 | no connection receives the line twice |
| Relay.Relay | server.js:44-48 | the broadcast loop makes exactly the deliveries described |
| Relay.Server.constructor | server.js:18 | the roster starts empty |
| Relay.Server.Connect | server.js:21-37 | a connection arriving at a full roster is refused and the roster is kept; otherwise it is appended and told its 1-based index, which is 1 or 2, in an `init` line |
| Relay.Server.Disconnect | server.js:52-55 | exactly the closing connection is removed, the others keep their order, and the roster stays within two without repeats |
| Relay.RejoinScenario | server.js:31-54 | when the first of two players leaves, the next newcomer is also told identity 2 |
| Relay.FullScenario | server.js:23-28 | a third connection is refused and the roster stays the first two |
| Relay.Without | server.js:54 | the roster filtered on close; `Relay.WithoutMembers`, `Relay.WithoutAt`, `Relay.WithoutAbsent` and `Relay.WithoutDistinct` give its meaning |
| Relay.Deliveries | server.js:44-48 | the sends of the broadcast; `Relay.DeliveriesMeaning` and `Relay.DeliveriesOnce` give its meaning |

## Left out

- Rendering is not modelled: classes used only for display ('selected', the piece glyphs), score and turn labels, `alert` and `console.log`. Highlights are a set of squares.
- `setTimeout` is modelled without its 100 ms delay. Pending lock-release callbacks are a counter, and `TimerFires` runs one of them; their interleaving with clicks and network lines is left to the caller.
- The WebSocket transport, Express static serving, the HTTP server and `listen` are not modelled. Connections are abstract ids, and `wss.clients` and the open ready state are parameters of `Relay.Relay`.
- The JSON error payload sent to a refused connection is not modelled beyond `Refused`; `Wire.BraceIgnored` shows that a client would ignore it.
- The roster's message and close handlers are attached only to admitted connections; `Relay.Server.Disconnect` is meant for those, and `Relay.Relay` takes any sender.
- Client.Game.MovePiece: requires a queen's target to be on one of its diagonals (`Rules.QueenMoveDiagonal`). The code does not check this, and the model leaves out what it does with other targets:
  - a target on the same row gives `steps = 0`, the walk loop does not run, and the queen slides there, even onto a light square;
  - a target one row away gives `steps = 1`, and the queen slides there whatever the column offset;
  - a whole-number column step, as in (0,0) to (2,4) or (0,0) to (2,0), walks real squares and usually accepts the move;
  - only a fractional column step makes the lookup of a square fail, and the handler then throws.
- Client.Game.ApplyRemoteMove: requires a readable move: four numbers on the board, and a target on a diagonal for a queen. What the code does with `NaN` coordinates, and with the non-diagonal queen moves listed above, is left out.
- Client.Game.OnMessage: requires the same of a `move` line (`Client.RemoteMoveReadable`). `Client.PeerReplays` proves that the coordinates of a line a client sends come back unchanged and on the board. It proves the queen-diagonal part on the sender's board. That part carries over to the receiver when the two boards agree, which `Turns.MoveSharesGame` keeps true from one move to the next.
- Client.Game.HandleClick: requires a highlighted square clicked under a selected queen to be on its diagonal (`Turns.ClickMoveDiagonal`). That holds for highlights the client computed itself. A remote move arriving between selection and click can leave the highlights stale.
- Wire.ParseShowInt: JavaScript's `parseInt` loses precision above 2^53; integers here are unbounded, and the coordinates the game sends are 0-7.
- `Wire.IsSpace` covers the white-space characters of `String.prototype.trim` as listed in ECMAScript, without the Unicode category lookup for any others.
- The visible 'dark' class is modelled as `row + col` even. A click on a light empty square never matches a highlight, so `Turns.Click` checks darkness as the code does.
