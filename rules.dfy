/** The placement and flip rule of the engine, as functions of a grid and the
    side to move: legality, the board after a move, the move list, the end
    of the game and the winner. */
module Rules {
  import opened Board

  /** The engine scans eight directions, in the order (-1,-1), (-1,0),
      (-1,1), (0,-1), (0,1), (1,-1), (1,0), (1,1); direction d, for
      0 <= d < NumDirections, is the step (DR(d), DC(d)). */
  const NumDirections: int := 8

  function DR(d: int): int {
    if d < 3 then -1 else if d < 5 then 0 else 1
  }

  function DC(d: int): int {
    if d == 0 || d == 3 || d == 5 then -1 else if d == 1 || d == 6 then 0 else 1
  }

  predicate IsDirection(dr: int, dc: int) {
    -1 <= dr <= 1 && -1 <= dc <= 1 && (dr != 0 || dc != 0)
  }

  lemma DirectionIs(d: int)
    requires 0 <= d < NumDirections
    ensures IsDirection(DR(d), DC(d))
  {
  }

  /** t steps of size d, for d in {-1, 0, 1}, kept linear for the solver. */
  function Scale(t: int, d: int): int {
    if d > 0 then t else if d < 0 then -t else 0
  }

  /** How many steps of size dx stay inside [0, Size) from x, itself inside. */
  function Steps(x: int, dx: int): int {
    if dx > 0 then Size - 1 - x else if dx < 0 then x else Size
  }

  /** The ray from (row, col) along (dr, dc): the cells 1, 2, ... steps away,
      up to the last one on the board. Its t-th cell lies t + 1 steps away,
      and one step past its end leaves the board. */
  function Ray(row: int, col: int, dr: int, dc: int): (ray: seq<Pos>)
    requires InBounds(row, col) && IsDirection(dr, dc)
    ensures AllOnBoard(ray)
    ensures forall t :: 0 <= t < |ray| ==> ray[t] == Pos(row + Scale(t + 1, dr), col + Scale(t + 1, dc))
    ensures !InBounds(row + Scale(|ray| + 1, dr), col + Scale(|ray| + 1, dc))
  {
    var a := Steps(row, dr);
    var b := Steps(col, dc);
    seq(if a < b then a else b, t => Pos(row + Scale(t + 1, dr), col + Scale(t + 1, dc)))
  }

  /** The ray of direction d from (row, col). */
  function DirRay(row: int, col: int, d: int): (ray: seq<Pos>)
    requires InBounds(row, col) && 0 <= d < NumDirections
    ensures AllOnBoard(ray)
    ensures forall t :: 0 <= t < |ray| ==> ray[t] == Pos(row + Scale(t + 1, DR(d)), col + Scale(t + 1, DC(d)))
    ensures !InBounds(row + Scale(|ray| + 1, DR(d)), col + Scale(|ray| + 1, DC(d)))
  {
    DirectionIs(d);
    Ray(row, col, DR(d), DC(d))
  }

  /** The ray, seen as the engine walks it: its first cell is one step
      (dr, dc) from (row, col), each next cell one more step, and one more
      step past its end leaves the board. */
  ghost predicate StepsAlong(ray: seq<Pos>, row: int, col: int, dr: int, dc: int) {
    && AllOnBoard(ray)
    && (|ray| > 0 ==> ray[0] == Pos(row + dr, col + dc))
    && (forall t :: 0 <= t < |ray| - 1 ==> ray[t + 1] == Pos(ray[t].row + dr, ray[t].col + dc))
    && (|ray| == 0 ==> !InBounds(row + dr, col + dc))
    && (|ray| > 0 ==> !InBounds(ray[|ray| - 1].row + dr, ray[|ray| - 1].col + dc))
  }

  /** One step past cell t of a walk: the next cell, or off the board at its end. */
  lemma StepNext(ray: seq<Pos>, row: int, col: int, dr: int, dc: int, t: nat)
    requires StepsAlong(ray, row, col, dr, dc) && t < |ray|
    ensures InBounds(ray[t].row + dr, ray[t].col + dc) <==> t + 1 < |ray|
    ensures t + 1 < |ray| ==> ray[t + 1] == Pos(ray[t].row + dr, ray[t].col + dc)
  {
    if t + 1 < |ray| {
      assert OnBoard(ray[t + 1]);
    }
  }

  /** The length of the run of -p disks at the start of the ray. */
  function Run(g: Grid, p: int, ray: seq<Pos>): (k: nat)
    requires IsGrid(g) && AllOnBoard(ray)
    ensures k <= |ray|
    ensures forall t :: 0 <= t < k ==> At(g, ray[t]) == -p
    ensures k < |ray| ==> At(g, ray[k]) != -p
  {
    if |ray| > 0 && At(g, ray[0]) == -p then 1 + Run(g, p, ray[1..]) else 0
  }

  /** The ray starts with at least one -p disk, closed off by a p disk. */
  predicate Flanks(g: Grid, p: int, ray: seq<Pos>)
    requires IsGrid(g) && AllOnBoard(ray)
  {
    var k := Run(g, p, ray);
    1 <= k < |ray| && At(g, ray[k]) == p
  }

  /** Placing p at (row, col) is legal: the cell is empty and some direction flanks. */
  predicate ValidMove(g: Grid, p: int, row: int, col: int)
    requires IsGrid(g) && InBounds(row, col)
  {
    g[row][col] == 0 && exists d :: 0 <= d < NumDirections && Flanks(g, p, DirRay(row, col, d))
  }

  /** Independent statement of the rule: walking k >= 1 steps from (row, col)
      in direction (dr, dc) meets only in-bounds -p disks, and step k + 1 is an
      in-bounds p disk. */
  predicate Bracket(g: Grid, p: int, row: int, col: int, dr: int, dc: int, k: int)
    requires IsGrid(g)
  {
    && 1 <= k
    && (forall t :: 1 <= t <= k ==>
          InBounds(row + Scale(t, dr), col + Scale(t, dc))
          && g[row + Scale(t, dr)][col + Scale(t, dc)] == -p)
    && InBounds(row + Scale(k + 1, dr), col + Scale(k + 1, dc))
    && g[row + Scale(k + 1, dr)][col + Scale(k + 1, dc)] == p
  }

  /** The listed cells painted v, in list order. */
  function Paint(g: Grid, cells: seq<Pos>, v: int): (h: Grid)
    requires IsGrid(g) && AllOnBoard(cells)
    ensures IsGrid(h)
    ensures forall y :: OnBoard(y) ==> At(h, y) == if y in cells then v else At(g, y)
  {
    if |cells| == 0 then g
    else
      assert forall y :: y in cells <==> y in Init(cells) || y == Last(cells) by {
        assert cells == Init(cells) + [Last(cells)];
      }
      Set(Paint(g, Init(cells), v), Last(cells), v)
  }

  /** The grid after the engine's scan of a ray: the flanked run, if any,
      turns p. */
  function FlipRay(g: Grid, p: int, ray: seq<Pos>): (h: Grid)
    requires IsGrid(g) && AllOnBoard(ray)
    ensures IsGrid(h)
  {
    if Flanks(g, p, ray) then Paint(g, ray[..Run(g, p, ray)], p) else g
  }

  /** The grid after the engine's scan of direction d. */
  function FlipDir(g: Grid, p: int, row: int, col: int, d: int): (h: Grid)
    requires IsGrid(g) && InBounds(row, col) && 0 <= d < NumDirections
    ensures IsGrid(h)
  {
    FlipRay(g, p, DirRay(row, col, d))
  }

  /** The grid after the scans of the first n directions, one after the other. */
  function FlipAll(g: Grid, p: int, row: int, col: int, n: nat): (h: Grid)
    requires IsGrid(g) && InBounds(row, col) && n <= NumDirections
    ensures IsGrid(h)
  {
    if n == 0 then g else FlipDir(FlipAll(g, p, row, col, n - 1), p, row, col, n - 1)
  }

  /** The grid after p moves at (row, col): the disk is placed, then the eight
      directions are scanned and their flanked runs flipped. */
  function Play(g: Grid, p: int, row: int, col: int): (h: Grid)
    requires IsGrid(g) && InBounds(row, col)
    ensures IsGrid(h)
  {
    FlipAll(Set(g, Pos(row, col), p), p, row, col, NumDirections)
  }

  /** The listed cells where p may move, kept in list order. */
  function MovesIn(g: Grid, p: int, cells: seq<Pos>): (moves: seq<Pos>)
    requires IsGrid(g) && AllOnBoard(cells)
    ensures AllOnBoard(moves) && |moves| <= |cells|
  {
    if |cells| == 0 then []
    else
      var rest := MovesIn(g, p, Init(cells));
      if ValidMove(g, p, Last(cells).row, Last(cells).col) then rest + [Last(cells)] else rest
  }

  /** Filtering one more cell of a list appends it when it is legal. */
  lemma MovesInStep(g: Grid, p: int, cells: seq<Pos>, k: nat)
    requires IsGrid(g) && AllOnBoard(cells) && k < |cells|
    ensures MovesIn(g, p, cells[..k + 1])
         == MovesIn(g, p, cells[..k]) + if ValidMove(g, p, cells[k].row, cells[k].col) then [cells[k]] else []
  {
    assert Init(cells[..k + 1]) == cells[..k] && Last(cells[..k + 1]) == cells[k];
  }

  /** Only listed legal cells are kept. */
  lemma {:induction false} MovesInSound(g: Grid, p: int, cells: seq<Pos>)
    requires IsGrid(g) && AllOnBoard(cells)
    ensures forall m :: m in MovesIn(g, p, cells) ==> m in cells && ValidMove(g, p, m.row, m.col)
  {
    if |cells| > 0 {
      MovesInSound(g, p, Init(cells));
      assert cells == Init(cells) + [Last(cells)];
    }
  }

  /** Every listed legal cell is kept. */
  lemma {:induction false} MovesInComplete(g: Grid, p: int, cells: seq<Pos>, k: nat)
    requires IsGrid(g) && AllOnBoard(cells) && k < |cells|
    requires ValidMove(g, p, cells[k].row, cells[k].col)
    ensures cells[k] in MovesIn(g, p, cells)
  {
    if k < |cells| - 1 {
      MovesInComplete(g, p, Init(cells), k);
    }
  }

  /** Filtering keeps the row-major order. */
  lemma {:induction false} MovesInIncreasing(g: Grid, p: int, cells: seq<Pos>)
    requires IsGrid(g) && AllOnBoard(cells) && Increasing(cells)
    ensures Increasing(MovesIn(g, p, cells))
  {
    if |cells| > 0 {
      MovesInIncreasing(g, p, Init(cells));
      var rest := MovesIn(g, p, Init(cells));
      var moves := MovesIn(g, p, cells);
      MovesInSound(g, p, Init(cells));
      if moves != rest {
        assert moves == rest + [Last(cells)];
        forall i, j | 0 <= i < j < |moves|
          ensures Key(moves[i]) < Key(moves[j])
        {
          if j == |rest| {
            var m := rest[i];
            assert m in Init(cells);
            var k :| 0 <= k < |Init(cells)| && Init(cells)[k] == m;
            assert cells[k] == m;
          } else {
            assert moves[i] == rest[i] && moves[j] == rest[j];
          }
        }
      }
    }
  }

  /** All legal moves of p, in row-major order. */
  function ValidMoves(g: Grid, p: int): (moves: seq<Pos>)
    requires IsGrid(g)
    ensures AllOnBoard(moves) && Increasing(moves) && Distinct(moves)
    ensures forall m :: m in moves <==> OnBoard(m) && ValidMove(g, p, m.row, m.col)
  {
    var moves := MovesIn(g, p, AllCells());
    MovesInIncreasing(g, p, AllCells());
    MovesInSound(g, p, AllCells());
    forall m | OnBoard(m) && ValidMove(g, p, m.row, m.col)
      ensures m in moves
    {
      MovesInComplete(g, p, AllCells(), Key(m));
    }
    moves
  }

  /** The legal moves of p among the first n cells in row-major order. */
  function MovesBefore(g: Grid, p: int, n: int): (moves: seq<Pos>)
    requires IsGrid(g) && 0 <= n <= Size * Size
  {
    MovesIn(g, p, AllCells()[..n])
  }

  /** Scanning cell (row, col) next appends it when it is legal. */
  lemma MovesBeforeStep(g: Grid, p: int, row: int, col: int)
    requires IsGrid(g) && InBounds(row, col)
    ensures MovesBefore(g, p, 8 * row + col + 1)
         == MovesBefore(g, p, 8 * row + col) + if ValidMove(g, p, row, col) then [Pos(row, col)] else []
  {
    assert AllCells()[8 * row + col] == Pos(row, col) by {
      assert Key(Pos(row, col)) == 8 * row + col;
    }
    MovesInStep(g, p, AllCells(), 8 * row + col);
  }

  /** Scanning all 64 cells gives the move list. */
  lemma MovesBeforeAll(g: Grid, p: int)
    requires IsGrid(g)
    ensures MovesBefore(g, p, 8 * Size) == ValidMoves(g, p)
  {
    assert AllCells()[..8 * Size] == AllCells();
  }

  /** The engine's end-of-game test: the side to move has no move, or the
      board is full. There is no pass. */
  predicate GameOver(g: Grid, p: int)
    requires IsGrid(g)
  {
    ValidMoves(g, p) == [] || Full(g)
  }

  /** 1 if dark has more disks, -1 if light has more, 0 on a tie. */
  function Winner(g: Grid): (w: int)
    requires IsGrid(g)
    ensures w == 1 <==> Count(g, 1) > Count(g, -1)
    ensures w == -1 <==> Count(g, 1) < Count(g, -1)
    ensures w == 0 <==> Count(g, 1) == Count(g, -1)
  {
    var dark := Count(g, 1);
    var light := Count(g, -1);
    if dark > light then 1 else if dark < light then -1 else 0
  }

  /** The opening position: dark on (3,3) and (4,4), light on (3,4) and (4,3). */
  function Opening(): (g: Grid)
    ensures IsGrid(g)
  {
    Set(Set(Set(Set(EmptyGrid(), Pos(3, 3), 1), Pos(3, 4), -1), Pos(4, 3), -1), Pos(4, 4), 1)
  }
}
