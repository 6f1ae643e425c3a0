/** What a move does to the grid: only flanked runs of the opponent on the
    eight rays from the target turn, disks are conserved, the  move list is
    exactly the legal cells in row-major order. */
module MoveProperties {
  import opened Board
  import opened Rules

  /** Steps a >= 1 and b >= 1 along two directions that reach the same
      offset are steps along the same direction. */
  lemma SameOffsetSameDirection(d1: int, d2: int, a: int, b: int)
    requires 0 <= d1 < NumDirections && 0 <= d2 < NumDirections && 1 <= a && 1 <= b
    requires Scale(a, DR(d1)) == Scale(b, DR(d2))
    requires Scale(a, DC(d1)) == Scale(b, DC(d2))
    ensures d1 == d2
  {
    assert DR(d1) == DR(d2) && DC(d1) == DC(d2);
  }

  /** A cell of one ray is neither the target nor on any other ray. */
  lemma RaysApart(row: int, col: int, d: int, y: Pos)
    requires InBounds(row, col) && 0 <= d < NumDirections && y in DirRay(row, col, d)
    ensures y != Pos(row, col)
    ensures forall e :: 0 <= e < NumDirections && e != d ==> y !in DirRay(row, col, e)
  {
    var t := RayOffset(row, col, d, y);
    DirectionIs(d);
    forall e | 0 <= e < NumDirections && y in DirRay(row, col, e)
      ensures e == d
    {
      var s := RayOffset(row, col, e, y);
      SameOffsetSameDirection(d, e, t + 1, s + 1);
    }
  }

  /** A cell of the ray of d lies some t + 1 >= 1 steps along d. */
  lemma RayOffset(row: int, col: int, d: int, y: Pos) returns (t: nat)
    requires InBounds(row, col) && 0 <= d < NumDirections && y in DirRay(row, col, d)
    ensures y == Pos(row + Scale(t + 1, DR(d)), col + Scale(t + 1, DC(d)))
  {
    var ray := DirRay(row, col, d);
    t :| 0 <= t < |ray| && ray[t] == y;
  }

  /** g and h hold the same value on every listed cell. */
  ghost predicate AgreeOn(g: Grid, h: Grid, cells: seq<Pos>)
    requires IsGrid(g) && IsGrid(h) && AllOnBoard(cells)
  {
    forall t :: 0 <= t < |cells| ==> At(g, cells[t]) == At(h, cells[t])
  }

  /** The run and the flank of a ray depend only on the ray's own cells. */
  lemma {:induction false} RunLocal(g: Grid, h: Grid, p: int, ray: seq<Pos>)
    requires IsGrid(g) && IsGrid(h) && AllOnBoard(ray)
    requires AgreeOn(g, h, ray)
    ensures Run(g, p, ray) == Run(h, p, ray)
    ensures Flanks(g, p, ray) == Flanks(h, p, ray)
  {
    if |ray| > 0 {
      assert AgreeOn(g, h, ray[1..]) by {
        forall t | 0 <= t < |ray| - 1 ensures At(g, ray[1..][t]) == At(h, ray[1..][t]) {
          assert ray[1..][t] == ray[t + 1];
        }
      }
      RunLocal(g, h, p, ray[1..]);
    }
  }

  /** The scan of direction d, made on g, turns cell y. */
  ghost predicate TurnsCell(g: Grid, p: int, row: int, col: int, d: int, y: Pos)
    requires IsGrid(g) && InBounds(row, col) && 0 <= d < NumDirections
  {
    var ray := DirRay(row, col, d);
    Flanks(g, p, ray) && y in ray[..Run(g, p, ray)]
  }

  /** Some scan among the first n, each made on g, turns y. */
  ghost predicate TurnedBy(g: Grid, p: int, row: int, col: int, n: int, y: Pos)
    requires IsGrid(g) && InBounds(row, col)
  {
    exists d :: 0 <= d < n && d < NumDirections && TurnsCell(g, p, row, col, d, y)
  }

  /** A move flips cell y: y lies in the flanked run of -p disks on one of the
      eight rays from (row, col). */
  ghost predicate Flipped(g: Grid, p: int, row: int, col: int, y: Pos)
    requires IsGrid(g) && InBounds(row, col)
  {
    TurnedBy(g, p, row, col, NumDirections, y)
  }

  /** One scan on a board h that agrees with g along the ray of d turns
      exactly the cells that the same scan on g would turn. */
  lemma FlipDirAt(g: Grid, h: Grid, p: int, row: int, col: int, d: int)
    requires IsGrid(g) && IsGrid(h) && InBounds(row, col) && 0 <= d < NumDirections
    requires AgreeOn(g, h, DirRay(row, col, d))
    ensures forall y :: OnBoard(y) ==>
      At(FlipDir(h, p, row, col, d), y) == if TurnsCell(g, p, row, col, d, y) then p else At(h, y)
  {
    RunLocal(g, h, p, DirRay(row, col, d));
  }

  /** The cells on the ray of d are untouched by the scans before d. */
  lemma RayUntouched(g: Grid, h: Grid, p: int, row: int, col: int, d: int)
    requires IsGrid(g) && IsGrid(h) && InBounds(row, col) && 0 <= d < NumDirections
    requires AfterScans(g, p, row, col, d, h)
    ensures AgreeOn(g, h, DirRay(row, col, d))
  {
    var ray := DirRay(row, col, d);
    forall t | 0 <= t < |ray|
      ensures At(h, ray[t]) == At(g, ray[t])
    {
      RaysApart(row, col, d, ray[t]);
    }
  }

  /** h is g after p moved at (row, col) and the first n scans ran, as if
      every scan looked at g: the target and the cells those scans turn hold
      p, every other cell is as in g. */
  ghost predicate AfterScans(g: Grid, p: int, row: int, col: int, n: int, h: Grid)
    requires IsGrid(g) && IsGrid(h) && InBounds(row, col)
  {
    forall y :: OnBoard(y) ==>
      At(h, y) == if y == Pos(row, col) || TurnedBy(g, p, row, col, n, y) then p else At(g, y)
  }

  /** The scans, run one after the other, act as if each looked at the board
      before the move. */
  lemma {:induction false} FlipAllAt(g: Grid, p: int, row: int, col: int, n: nat)
    requires IsGrid(g) && InBounds(row, col) && n <= NumDirections
    ensures AfterScans(g, p, row, col, n, FlipAll(Set(g, Pos(row, col), p), p, row, col, n))
  {
    var start := Set(g, Pos(row, col), p);
    if n == 0 {
      NoScans(g, p, row, col);
    } else {
      FlipAllAt(g, p, row, col, n - 1);
      var h := FlipAll(start, p, row, col, n - 1);
      FlipAllStep(g, p, row, col, n, h);
      assert FlipAll(start, p, row, col, n) == FlipDir(h, p, row, col, n - 1);
    }
  }

  /** Before any scan only the target has changed. */
  lemma NoScans(g: Grid, p: int, row: int, col: int)
    requires IsGrid(g) && InBounds(row, col)
    ensures AfterScans(g, p, row, col, 0, Set(g, Pos(row, col), p))
  {
  }

  /** The induction step of FlipAllAt. */
  lemma FlipAllStep(g: Grid, p: int, row: int, col: int, n: nat, h: Grid)
    requires IsGrid(g) && IsGrid(h) && InBounds(row, col) && 0 < n <= NumDirections
    requires AfterScans(g, p, row, col, n - 1, h)
    ensures AfterScans(g, p, row, col, n, FlipDir(h, p, row, col, n - 1))
  {
    RayUntouched(g, h, p, row, col, n - 1);
    FlipDirAt(g, h, p, row, col, n - 1);
    forall y | OnBoard(y)
      ensures At(FlipDir(h, p, row, col, n - 1), y)
           == if y == Pos(row, col) || TurnedBy(g, p, row, col, n, y) then p else At(g, y)
    {
      TurnedByStep(g, p, row, col, n, y);
    }
  }

  lemma TurnedByStep(g: Grid, p: int, row: int, col: int, n: int, y: Pos)
    requires IsGrid(g) && InBounds(row, col) && 0 < n <= NumDirections
    ensures TurnedBy(g, p, row, col, n, y)
        <==> TurnedBy(g, p, row, col, n - 1, y) || TurnsCell(g, p, row, col, n - 1, y)
  {
    if TurnedBy(g, p, row, col, n, y) {
      var e :| 0 <= e < n && e < NumDirections && TurnsCell(g, p, row, col, e, y);
      if e < n - 1 {
        assert TurnedBy(g, p, row, col, n - 1, y);
      }
    }
  }

  /** The board after a move, cell by cell. */
  lemma PlayAt(g: Grid, p: int, row: int, col: int, y: Pos)
    requires IsGrid(g) && InBounds(row, col) && OnBoard(y)
    ensures At(Play(g, p, row, col), y)
         == if y == Pos(row, col) || Flipped(g, p, row, col, y) then p else At(g, y)
  {
    FlipAllAt(g, p, row, col, NumDirections);
    assert AfterScans(g, p, row, col, NumDirections, Play(g, p, row, col));
  }

  /** A flipped cell held an opponent disk and is not the target. */
  lemma FlippedWasOpponent(g: Grid, p: int, row: int, col: int, y: Pos)
    requires IsGrid(g) && InBounds(row, col) && OnBoard(y) && Flipped(g, p, row, col, y)
    ensures At(g, y) == -p && y != Pos(row, col)
  {
    var d :| 0 <= d < NumDirections && TurnsCell(g, p, row, col, d, y);
    var ray := DirRay(row, col, d);
    var t :| 0 <= t < Run(g, p, ray) && ray[..Run(g, p, ray)][t] == y;
    assert ray[t] == y;
    RaysApart(row, col, d, y);
  }

  /** What a move does to each cell: the target takes p, a cell either keeps
      its value or turns from -p to p, so no disk is ever removed and the
      grid keeps its three cell states. */
  lemma PlayShape(g: Grid, p: int, row: int, col: int)
    requires IsGrid(g) && InBounds(row, col)
    ensures At(Play(g, p, row, col), Pos(row, col)) == p
    ensures forall y :: OnBoard(y) && y != Pos(row, col) ==>
      At(Play(g, p, row, col), y) == At(g, y)
      || (At(g, y) == -p && At(Play(g, p, row, col), y) == p)
    ensures forall y :: OnBoard(y) && At(g, y) != 0 && p != 0 ==> At(Play(g, p, row, col), y) != 0
    ensures Tristate(g) && IsCell(p) ==> Tristate(Play(g, p, row, col))
  {
    var h := Play(g, p, row, col);
    forall y | OnBoard(y)
      ensures At(h, y) == if y == Pos(row, col) || Flipped(g, p, row, col, y) then p else At(g, y)
      ensures y != Pos(row, col) && Flipped(g, p, row, col, y) ==> At(g, y) == -p
    {
      PlayAt(g, p, row, col, y);
      if Flipped(g, p, row, col, y) {
        FlippedWasOpponent(g, p, row, col, y);
      }
    }
    if Tristate(g) && IsCell(p) {
      forall i, j | 0 <= i < Size && 0 <= j < Size
        ensures IsCell(h[i][j])
      {
        assert At(h, Pos(i, j)) == h[i][j];
      }
    }
  }

  /** The first cell of a flanking ray is flipped by the move. */
  lemma FirstOfRayFlips(g: Grid, p: int, row: int, col: int, d: int)
    requires IsGrid(g) && InBounds(row, col) && 0 <= d < NumDirections
    requires Flanks(g, p, DirRay(row, col, d))
    ensures At(g, DirRay(row, col, d)[0]) == -p
    ensures At(Play(g, p, row, col), DirRay(row, col, d)[0]) == p
  {
    var ray := DirRay(row, col, d);
    assert ray[..Run(g, p, ray)][0] == ray[0];
    assert TurnsCell(g, p, row, col, d, ray[0]);
    assert Flipped(g, p, row, col, ray[0]);
    PlayAt(g, p, row, col, ray[0]);
  }

  /** Two boards with the same -p cells count the same turned cells. */
  lemma {:induction false} TurnedInSameOpponent(g: Grid, s: Grid, h: Grid, cells: seq<Pos>, p: int)
    requires IsGrid(g) && IsGrid(s) && IsGrid(h) && AllOnBoard(cells)
    requires forall k :: 0 <= k < |cells| ==> (At(g, cells[k]) == -p) == (At(s, cells[k]) == -p)
    ensures TurnedIn(g, h, cells, p) == TurnedIn(s, h, cells, p)
  {
    if |cells| > 0 {
      TurnedInSameOpponent(g, s, h, Init(cells), p);
    }
  }

  /** Against the grid s with the disk just placed, a move only turns -p
      cells to p; s has the same -p cells as the grid before. */
  lemma PlayAfterPlacing(g: Grid, s: Grid, p: int, row: int, col: int, cells: seq<Pos>)
    requires IsGrid(g) && InBounds(row, col) && p != 0 && g[row][col] == 0
    requires s == Set(g, Pos(row, col), p) && AllOnBoard(cells)
    ensures forall k :: 0 <= k < |cells| ==>
      At(Play(g, p, row, col), cells[k]) == At(s, cells[k])
      || (At(s, cells[k]) == -p && At(Play(g, p, row, col), cells[k]) == p)
    ensures forall k :: 0 <= k < |cells| ==> (At(g, cells[k]) == -p) == (At(s, cells[k]) == -p)
  {
    PlayShape(g, p, row, col);
  }

  /** A legal move adds 1 + k disks of the mover, where k >= 1 is the number of
      opponent disks turned, removes k opponent disks and fills one empty cell. */
  lemma PlayCounts(g: Grid, p: int, row: int, col: int)
    requires IsGrid(g) && InBounds(row, col) && (p == 1 || p == -1)
    requires ValidMove(g, p, row, col)
    ensures Turned(g, Play(g, p, row, col), p) >= 1
    ensures Count(Play(g, p, row, col), p) == Count(g, p) + 1 + Turned(g, Play(g, p, row, col), p)
    ensures Count(Play(g, p, row, col), -p) == Count(g, -p) - Turned(g, Play(g, p, row, col), p)
    ensures Count(Play(g, p, row, col), 0) == Count(g, 0) - 1
  {
    PlayTurnsSome(g, p, row, col);
    var x := Pos(row, col);
    var s := Set(g, x, p);
    var h := Play(g, p, row, col);
    var cells := AllCells();
    PlayAfterPlacing(g, s, p, row, col, cells);
    InAllCells(x);
    CountInSet(g, cells, x, p, p);
    CountInSet(g, cells, x, p, -p);
    CountInSet(g, cells, x, p, 0);
    CountInTurned(s, h, cells, p);
    TurnedInSameOpponent(g, s, h, cells, p);
  }

  /** A legal move turns at least one disk: the first cell of a flanking ray. */
  lemma PlayTurnsSome(g: Grid, p: int, row: int, col: int)
    requires IsGrid(g) && InBounds(row, col)
    requires ValidMove(g, p, row, col)
    ensures Turned(g, Play(g, p, row, col), p) >= 1
  {
    var d :| 0 <= d < NumDirections && Flanks(g, p, DirRay(row, col, d));
    FirstOfRayFlips(g, p, row, col, d);
    TurnedInPositive(g, Play(g, p, row, col), AllCells(), p, Key(DirRay(row, col, d)[0]));
  }

  /** The engine's legality test agrees with the independent statement of
      the rule: the target is empty and, along some direction, k >= 1
      in-bounds opponent disks follow it, then an in-bounds own disk. */
  lemma ValidMoveIff(g: Grid, p: int, row: int, col: int)
    requires IsGrid(g) && InBounds(row, col) && p != 0
    ensures ValidMove(g, p, row, col)
        <==> g[row][col] == 0
             && exists d, k :: 0 <= d < NumDirections && Bracket(g, p, row, col, DR(d), DC(d), k)
  {
    if ValidMove(g, p, row, col) {
      var d :| 0 <= d < NumDirections && Flanks(g, p, DirRay(row, col, d));
      FlanksBracket(g, p, row, col, d);
    }
    if g[row][col] == 0 && exists d, k :: 0 <= d < NumDirections && Bracket(g, p, row, col, DR(d), DC(d), k) {
      var d, k :| 0 <= d < NumDirections && Bracket(g, p, row, col, DR(d), DC(d), k);
      BracketFlanks(g, p, row, col, d, k);
    }
  }

  /** The run of -p disks of a ray, read as steps from (row, col). */
  lemma RunOnLine(g: Grid, p: int, row: int, col: int, d: int)
    requires IsGrid(g) && InBounds(row, col) && 0 <= d < NumDirections
    ensures forall t :: 1 <= t <= Run(g, p, DirRay(row, col, d)) ==>
      InBounds(row + Scale(t, DR(d)), col + Scale(t, DC(d)))
      && g[row + Scale(t, DR(d))][col + Scale(t, DC(d))] == -p
  {
    var ray := DirRay(row, col, d);
    var k := Run(g, p, ray);
    var dr, dc := DR(d), DC(d);
    forall t | 1 <= t <= k
      ensures InBounds(row + Scale(t, dr), col + Scale(t, dc))
      ensures g[row + Scale(t, dr)][col + Scale(t, dc)] == -p
    {
      var x := ray[t - 1];
      assert x == Pos(row + Scale(t, dr), col + Scale(t, dc));
      assert OnBoard(x) && At(g, x) == -p;
    }
  }

  /** The own disk that closes a flanked run, read as a step from (row, col). */
  lemma RunEnd(g: Grid, p: int, row: int, col: int, d: int, k: int)
    requires IsGrid(g) && InBounds(row, col) && 0 <= d < NumDirections
    requires Flanks(g, p, DirRay(row, col, d)) && k == Run(g, p, DirRay(row, col, d))
    ensures 1 <= k && InBounds(row + Scale(k + 1, DR(d)), col + Scale(k + 1, DC(d)))
    ensures g[row + Scale(k + 1, DR(d))][col + Scale(k + 1, DC(d))] == p
  {
    var last := DirRay(row, col, d)[k];
    assert last == Pos(row + Scale(k + 1, DR(d)), col + Scale(k + 1, DC(d)));
    assert OnBoard(last) && At(g, last) == p;
  }

  lemma FlanksBracket(g: Grid, p: int, row: int, col: int, d: int)
    requires IsGrid(g) && InBounds(row, col) && 0 <= d < NumDirections
    requires Flanks(g, p, DirRay(row, col, d))
    ensures Bracket(g, p, row, col, DR(d), DC(d), Run(g, p, DirRay(row, col, d)))
  {
    hide Run, Flanks, DirRay, Scale, DR, DC;
    RunEnd(g, p, row, col, d, Run(g, p, DirRay(row, col, d)));
    RunOnLine(g, p, row, col, d);
  }

  lemma BracketFlanks(g: Grid, p: int, row: int, col: int, d: int, k: int)
    requires IsGrid(g) && InBounds(row, col) && 0 <= d < NumDirections && p != 0
    requires Bracket(g, p, row, col, DR(d), DC(d), k)
    ensures Flanks(g, p, DirRay(row, col, d)) && Run(g, p, DirRay(row, col, d)) == k
  {
    var ray := DirRay(row, col, d);
    forall t | 0 <= t <= k
      ensures At(g, ray[t]) == if t < k then -p else p
    {
    }
    RunIs(g, p, ray, k);
  }

  /** The ray of direction d is the walk of the engine's scan. */
  lemma DirRaySteps(row: int, col: int, d: int)
    requires InBounds(row, col) && 0 <= d < NumDirections
    ensures StepsAlong(DirRay(row, col, d), row, col, DR(d), DC(d))
  {
    DirRayNext(row, col, d);
    DirRayEnds(row, col, d);
  }

  /** Each cell of a ray is one step past the one before it. */
  lemma DirRayNext(row: int, col: int, d: int)
    requires InBounds(row, col) && 0 <= d < NumDirections
    ensures var ray := DirRay(row, col, d);
      forall t :: 0 <= t < |ray| - 1 ==> ray[t + 1] == Pos(ray[t].row + DR(d), ray[t].col + DC(d))
  {
    var ray := DirRay(row, col, d);
    var dr, dc := DR(d), DC(d);
    DirectionIs(d);
    forall t | 0 <= t < |ray| - 1
      ensures ray[t + 1] == Pos(ray[t].row + dr, ray[t].col + dc)
    {
      ScaleNext(t + 1, dr);
      ScaleNext(t + 1, dc);
    }
  }

  /** A ray starts one step from (row, col) and one step past its end leaves
      the board. */
  lemma DirRayEnds(row: int, col: int, d: int)
    requires InBounds(row, col) && 0 <= d < NumDirections
    ensures var ray := DirRay(row, col, d);
      && (|ray| > 0 ==> ray[0] == Pos(row + DR(d), col + DC(d)))
      && (|ray| == 0 ==> !InBounds(row + DR(d), col + DC(d)))
      && (|ray| > 0 ==> !InBounds(ray[|ray| - 1].row + DR(d), ray[|ray| - 1].col + DC(d)))
  {
    var ray := DirRay(row, col, d);
    var dr, dc := DR(d), DC(d);
    DirectionIs(d);
    if |ray| > 0 {
      assert ray[|ray| - 1] == Pos(row + Scale(|ray|, dr), col + Scale(|ray|, dc));
      ScaleNext(|ray|, dr);
      ScaleNext(|ray|, dc);
    }
  }

  /** One more step of size d, for d in {-1, 0, 1}. */
  lemma ScaleNext(t: int, d: int)
    requires -1 <= d <= 1
    ensures Scale(t + 1, d) == Scale(t, d) + d
  {
  }

  /** The cells of a ray are pairwise different. */
  lemma DirRayDistinct(row: int, col: int, d: int)
    requires InBounds(row, col) && 0 <= d < NumDirections
    ensures Distinct(DirRay(row, col, d))
  {
    DirectionIs(d);
  }

  /** A ray made only of -p disks is one whole run, so it flanks nothing. */
  lemma RunAll(g: Grid, p: int, ray: seq<Pos>)
    requires IsGrid(g) && AllOnBoard(ray)
    requires forall t :: 0 <= t < |ray| ==> At(g, ray[t]) == -p
    ensures Run(g, p, ray) == |ray| && !Flanks(g, p, ray)
  {
  }

  /** A run is k long when k cells of -p are followed by another value. */
  lemma RunIs(g: Grid, p: int, ray: seq<Pos>, k: nat)
    requires IsGrid(g) && AllOnBoard(ray) && k < |ray|
    requires forall t :: 0 <= t < k ==> At(g, ray[t]) == -p
    requires At(g, ray[k]) != -p
    ensures Run(g, p, ray) == k
  {
  }

  /** A full board offers no move, so the end test is exactly "no move". */
  lemma GameOverIff(g: Grid, p: int)
    requires IsGrid(g)
    ensures Full(g) ==> ValidMoves(g, p) == []
    ensures GameOver(g, p) <==> ValidMoves(g, p) == []
  {
    if Full(g) {
      MovesInNone(g, p, AllCells());
    }
  }

  /** Where no listed cell is a legal move, the filtered list is empty. */
  lemma {:induction false} MovesInNone(g: Grid, p: int, cells: seq<Pos>)
    requires IsGrid(g) && AllOnBoard(cells)
    requires forall k :: 0 <= k < |cells| ==> !ValidMove(g, p, cells[k].row, cells[k].col)
    ensures MovesIn(g, p, cells) == []
  {
    if |cells| > 0 {
      MovesInNone(g, p, Init(cells));
    }
  }

  /** Swapping the colours of every disk swaps the winner. */
  lemma WinnerNegate(g: Grid)
    requires IsGrid(g)
    ensures Winner(Negate(g)) == -Winner(g)
  {
    CountInNegate(g, AllCells(), 1);
    CountInNegate(g, AllCells(), -1);
  }
}
