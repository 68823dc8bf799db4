/** The 8x8 board of the checkers client: squares, pieces, the starting
    layout built by createBoard, and piece counting as checkVictory does it. */
module Board {

  datatype Option<+T> = None | Some(value: T)

  /** A player number; the source only ever uses 1 and 2. */
  type Player = p: int | p == 1 || p == 2 witness 1

  /** The source names "the other side" as `3 - currentPlayer`. */
  function Opponent(p: Player): (q: Player)
    ensures q != p
    ensures p == 3 - q
  {
    3 - p
  }

  /** A man or (after promotion) a queen, owned by player 1 or 2. */
  datatype Piece = Piece(owner: Player, queen: bool)

  datatype Pos = Pos(row: int, col: int)

  type Square = Option<Piece>

  /** Row-major grid: g[row][col]. */
  type Grid = seq<seq<Square>>

  predicate InBounds(p: Pos) {
    0 <= p.row < 8 && 0 <= p.col < 8
  }

  /** Playable squares: row + col even (the 'dark' class). */
  predicate IsDark(p: Pos) {
    (p.row + p.col) % 2 == 0
  }

  predicate WellFormed(g: Grid) {
    |g| == 8 && forall r :: 0 <= r < 8 ==> |g[r]| == 8
  }

  function At(g: Grid, p: Pos): Square
    requires WellFormed(g) && InBounds(p)
  {
    g[p.row][p.col]
  }

  /** The grid with square p replaced by s and every other square kept. */
  function Put(g: Grid, p: Pos, s: Square): (h: Grid)
    requires WellFormed(g) && InBounds(p)
    ensures WellFormed(h)
    ensures At(h, p) == s
    ensures forall q :: InBounds(q) && q != p ==> At(h, q) == At(g, q)
  {
    g[p.row := g[p.row][p.col := s]]
  }

  /** The square at p, or an empty square off the board, as a DOM lookup
      that finds no square yields no piece. */
  function Lookup(g: Grid, p: Pos): Square
    requires WellFormed(g)
  {
    if InBounds(p) then At(g, p) else None
  }

  predicate OwnedBy(s: Square, p: Player) {
    s.Some? && s.value.owner == p
  }

  /** Pieces sit only on playable squares. */
  ghost predicate OnDark(g: Grid)
    requires WellFormed(g)
  {
    forall p :: InBounds(p) && At(g, p).Some? ==> IsDark(p)
  }

  // ---------------------------------------------------------------------
  // Starting layout (createBoard)

  /** What createBoard puts on square p: player 2 men on the dark squares
      of rows 0-2, player 1 men on the dark squares of rows 5-7. */
  function InitialSquare(p: Pos): Square {
    if IsDark(p) && p.row < 3 then Some(Piece(2, false))
    else if IsDark(p) && p.row > 4 then Some(Piece(1, false))
    else None
  }

  function InitialGrid(): Grid {
    seq(8, r => seq(8, c => InitialSquare(Pos(r, c))))
  }

  // ---------------------------------------------------------------------
  // Counting pieces

  /** Pieces of p among the first n squares of a row. */
  function RowCount(row: seq<Square>, p: Player, n: nat): nat
    requires n <= |row|
  {
    if n == 0 then 0
    else RowCount(row, p, n - 1) + (if OwnedBy(row[n - 1], p) then 1 else 0)
  }

  /** Pieces of p in the first n rows. */
  function CountRows(g: Grid, p: Player, n: nat): nat
    requires WellFormed(g) && n <= |g|
  {
    if n == 0 then 0
    else CountRows(g, p, n - 1) + RowCount(g[n - 1], p, |g[n - 1]|)
  }

  /** Pieces of player p on the whole board. */
  function Count(g: Grid, p: Player): nat
    requires WellFormed(g)
  {
    CountRows(g, p, |g|)
  }

  lemma {:induction false} RowCountPut(row: seq<Square>, c: int, s: Square, p: Player, n: nat)
    requires 0 <= c < |row| && n <= |row|
    ensures RowCount(row[c := s], p, n)
         == RowCount(row, p, n)
            - (if c < n && OwnedBy(row[c], p) then 1 else 0)
            + (if c < n && OwnedBy(s, p) then 1 else 0)
  {
    if n > 0 {
      RowCountPut(row, c, s, p, n - 1);
    }
  }

  lemma {:induction false} CountRowsPut(g: Grid, q: Pos, s: Square, p: Player, n: nat)
    requires WellFormed(g) && InBounds(q) && n <= 8
    ensures CountRows(Put(g, q, s), p, n)
         == CountRows(g, p, n)
            - (if q.row < n && OwnedBy(At(g, q), p) then 1 else 0)
            + (if q.row < n && OwnedBy(s, p) then 1 else 0)
  {
    if n > 0 {
      CountRowsPut(g, q, s, p, n - 1);
      if n - 1 == q.row {
        RowCountPut(g[q.row], q.col, s, p, |g[q.row]|);
      } else {
        assert Put(g, q, s)[n - 1] == g[n - 1];
      }
    }
  }

  /** Replacing one square changes a player's count only by what left and
      what arrived on that square. */
  lemma CountPut(g: Grid, q: Pos, s: Square, p: Player)
    requires WellFormed(g) && InBounds(q)
    ensures Count(Put(g, q, s), p)
         == Count(g, p)
            - (if OwnedBy(At(g, q), p) then 1 else 0)
            + (if OwnedBy(s, p) then 1 else 0)
  {
    CountRowsPut(g, q, s, p, 8);
  }

  /** A row whose squares hold p's pieces exactly at the columns of one
      parity k has (n + 1 - k) / 2 of them among its first n squares. */
  lemma {:induction false} RowCountAlternating(row: seq<Square>, p: Player, k: int, n: nat)
    requires k == 0 || k == 1
    requires n <= |row|
    requires forall c :: 0 <= c < |row| ==> (OwnedBy(row[c], p) <==> c % 2 == k)
    ensures RowCount(row, p, n) == (n + 1 - k) / 2
  {
    if n > 0 {
      RowCountAlternating(row, p, k, n - 1);
    }
  }

  lemma {:induction false} RowCountNone(row: seq<Square>, p: Player, n: nat)
    requires n <= |row|
    requires forall c :: 0 <= c < |row| ==> !OwnedBy(row[c], p)
    ensures RowCount(row, p, n) == 0
  {
    if n > 0 {
      RowCountNone(row, p, n - 1);
    }
  }

  /** Pieces of each player on one row of the starting layout. */
  lemma InitialRowCount(r: int)
    requires 0 <= r < 8
    ensures RowCount(InitialGrid()[r], 2, 8) == (if r < 3 then 4 else 0)
    ensures RowCount(InitialGrid()[r], 1, 8) == (if r > 4 then 4 else 0)
  {
    var row := InitialGrid()[r];
    assert forall c :: 0 <= c < 8 ==> row[c] == InitialSquare(Pos(r, c));
    if r < 3 {
      RowCountAlternating(row, 2, r % 2, 8);
      RowCountNone(row, 1, 8);
    } else if r > 4 {
      RowCountAlternating(row, 1, r % 2, 8);
      RowCountNone(row, 2, 8);
    } else {
      RowCountNone(row, 1, 8);
      RowCountNone(row, 2, 8);
    }
  }

  /** The starting layout: twelve men per side, player 2 on the dark squares
      of rows 0-2, player 1 on the dark squares of rows 5-7, rows 3 and 4
      empty, every piece on a dark square. */
  lemma InitialLayout()
    ensures WellFormed(InitialGrid()) && OnDark(InitialGrid())
    ensures Count(InitialGrid(), 1) == 12 && Count(InitialGrid(), 2) == 12
    ensures forall p :: InBounds(p) && (p.row == 3 || p.row == 4) ==> At(InitialGrid(), p).None?
    ensures forall p :: InBounds(p) ==>
              (OwnedBy(At(InitialGrid(), p), 2) <==> IsDark(p) && p.row <= 2)
    ensures forall p :: InBounds(p) ==>
              (OwnedBy(At(InitialGrid(), p), 1) <==> IsDark(p) && p.row >= 5)
    ensures forall p :: InBounds(p) && At(InitialGrid(), p).Some? ==> !At(InitialGrid(), p).value.queen
  {
    var g := InitialGrid();
    InitialRowCount(0); InitialRowCount(1); InitialRowCount(2); InitialRowCount(3);
    InitialRowCount(4); InitialRowCount(5); InitialRowCount(6); InitialRowCount(7);
  }
}
