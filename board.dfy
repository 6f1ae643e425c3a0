/** Positions, the 8x8 grid of cell values and counting over lists of cells.
    A cell holds 1 (dark, the first player), -1 (light) or 0 (empty). */
module Board {

  /** A (row, col) coordinate; on the board when both lie in [0, 8). */
  datatype Pos = Pos(row: int, col: int)

  const Size: int := 8

  predicate InBounds(r: int, c: int) {
    0 <= r < Size && 0 <= c < Size
  }

  predicate OnBoard(x: Pos) {
    InBounds(x.row, x.col)
  }

  predicate AllOnBoard(cells: seq<Pos>) {
    forall k :: 0 <= k < |cells| ==> OnBoard(cells[k])
  }

  /** The grid as a list of rows, as the source keeps it. */
  type Grid = seq<seq<int>>

  predicate IsGrid(g: Grid) {
    |g| == Size && forall i :: 0 <= i < Size ==> |g[i]| == Size
  }

  predicate IsCell(v: int) {
    v == -1 || v == 0 || v == 1
  }

  /** Every cell is one of the three states. */
  predicate Tristate(g: Grid)
    requires IsGrid(g)
  {
    forall i, j :: 0 <= i < Size && 0 <= j < Size ==> IsCell(g[i][j])
  }

  function At(g: Grid, x: Pos): int
    requires IsGrid(g) && OnBoard(x)
  {
    g[x.row][x.col]
  }

  /** The grid with one cell overwritten. */
  function Set(g: Grid, x: Pos, v: int): (g': Grid)
    requires IsGrid(g) && OnBoard(x)
    ensures IsGrid(g')
    ensures At(g', x) == v
    ensures forall y :: OnBoard(y) && y != x ==> At(g', y) == At(g, y)
  {
    g[x.row := g[x.row][x.col := v]]
  }

  /** Two grids that agree on every cell are the same grid. */
  lemma GridExt(g: Grid, h: Grid)
    requires IsGrid(g) && IsGrid(h)
    requires forall y :: OnBoard(y) ==> At(g, y) == At(h, y)
    ensures g == h
  {
    forall i | 0 <= i < Size
      ensures g[i] == h[i]
    {
      forall j | 0 <= j < Size
        ensures g[i][j] == h[i][j]
      {
        assert At(g, Pos(i, j)) == At(h, Pos(i, j));
      }
    }
  }

  /** The grid with every cell empty. */
  function EmptyGrid(): (g: Grid)
    ensures IsGrid(g) && Tristate(g)
    ensures forall y :: OnBoard(y) ==> At(g, y) == 0
  {
    seq(Size, i => seq(Size, j => 0))
  }

  /** Every cell of the board is occupied. */
  predicate Full(g: Grid)
    requires IsGrid(g)
  {
    forall i, j :: 0 <= i < Size && 0 <= j < Size ==> g[i][j] != 0
  }

  /** The row-major index of a cell. */
  function Key(x: Pos): int {
    x.row * Size + x.col
  }

  predicate Increasing(cells: seq<Pos>) {
    forall i, j :: 0 <= i < j < |cells| ==> Key(cells[i]) < Key(cells[j])
  }

  predicate Distinct(cells: seq<Pos>) {
    forall i, j :: 0 <= i < j < |cells| ==> cells[i] != cells[j]
  }

  /** All 64 cells in row-major order: (0,0), (0,1), ..., (7,7). */
  function AllCells(): (cells: seq<Pos>)
    ensures |cells| == Size * Size
    ensures AllOnBoard(cells)
    ensures forall k :: 0 <= k < |cells| ==> Key(cells[k]) == k
    ensures Increasing(cells) && Distinct(cells)
    ensures forall y :: OnBoard(y) ==> 0 <= Key(y) < |cells| && cells[Key(y)] == y
  {
    seq(Size * Size, k => Pos(k / Size, k % Size))
  }

  lemma InAllCells(y: Pos)
    ensures y in AllCells() <==> OnBoard(y)
  {
    if OnBoard(y) {
      assert AllCells()[Key(y)] == y;
    }
  }

  function Last(cells: seq<Pos>): Pos
    requires |cells| > 0
  {
    cells[|cells| - 1]
  }

  function Init(cells: seq<Pos>): seq<Pos>
    requires |cells| > 0
  {
    cells[..|cells| - 1]
  }

  /** How many of the listed cells hold v. */
  function CountIn(g: Grid, cells: seq<Pos>, v: int): (n: nat)
    requires IsGrid(g) && AllOnBoard(cells)
    ensures n <= |cells|
  {
    if |cells| == 0 then 0
    else CountIn(g, Init(cells), v) + (if At(g, Last(cells)) == v then 1 else 0)
  }

  /** How many cells of the whole board hold v
      (the sum of the per-row counts the source takes). */
  function Count(g: Grid, v: int): (n: nat)
    requires IsGrid(g)
  {
    CountIn(g, AllCells(), v)
  }

  /** How many of the listed cells go from -p in g to p in h. */
  function TurnedIn(g: Grid, h: Grid, cells: seq<Pos>, p: int): (n: nat)
    requires IsGrid(g) && IsGrid(h) && AllOnBoard(cells)
    ensures n <= |cells|
  {
    if |cells| == 0 then 0
    else TurnedIn(g, h, Init(cells), p)
         + (if At(g, Last(cells)) == -p && At(h, Last(cells)) == p then 1 else 0)
  }

  /** The number of cells of the board that go from -p in g to p in h. */
  function Turned(g: Grid, h: Grid, p: int): (n: nat)
    requires IsGrid(g) && IsGrid(h)
  {
    TurnedIn(g, h, AllCells(), p)
  }

  lemma InitPrefix(cells: seq<Pos>, i: nat)
    requires i < |cells|
    ensures Init(cells[..i + 1]) == cells[..i] && Last(cells[..i + 1]) == cells[i]
  {
  }

  /** One more cell of a list, taken in order. */
  lemma TakeOneMore(cells: seq<Pos>, t: nat)
    requires t < |cells|
    ensures cells[..t + 1] == cells[..t] + [cells[t]]
  {
  }

  /** In a list without repeats, a cell does not occur before its position. */
  lemma NotBefore(cells: seq<Pos>, t: nat)
    requires t < |cells| && Distinct(cells)
    ensures cells[t] !in cells[..t]
  {
    forall s | 0 <= s < t
      ensures cells[..t][s] != cells[t]
    {
      assert cells[..t][s] == cells[s];
    }
  }

  lemma DistinctInit(cells: seq<Pos>)
    requires |cells| > 0 && Distinct(cells)
    ensures Distinct(Init(cells)) && Last(cells) !in Init(cells)
  {
  }

  /** Overwriting one cell moves that one cell between the counts. */
  lemma {:induction false} CountInSet(g: Grid, cells: seq<Pos>, x: Pos, v: int, w: int)
    requires IsGrid(g) && AllOnBoard(cells) && OnBoard(x) && Distinct(cells)
    ensures CountIn(Set(g, x, v), cells, w)
         == if x in cells
            then CountIn(g, cells, w) - (if At(g, x) == w then 1 else 0) + (if v == w then 1 else 0)
            else CountIn(g, cells, w)
  {
    if |cells| > 0 {
      var init, last := Init(cells), Last(cells);
      DistinctInit(cells);
      CountInSet(g, init, x, v, w);
      assert cells == init + [last];
      assert x in cells <==> x in init || x == last;
      if x != last {
        assert At(Set(g, x, v), last) == At(g, last);
      }
    }
  }

  /** If h differs from g only where a -p cell became p, each such cell
      moves from the -p count to the p count and the empty count is kept. */
  lemma {:induction false} CountInTurned(g: Grid, h: Grid, cells: seq<Pos>, p: int)
    requires IsGrid(g) && IsGrid(h) && AllOnBoard(cells) && p != 0
    requires forall k :: 0 <= k < |cells| ==>
      At(h, cells[k]) == At(g, cells[k]) || (At(g, cells[k]) == -p && At(h, cells[k]) == p)
    ensures CountIn(h, cells, p) == CountIn(g, cells, p) + TurnedIn(g, h, cells, p)
    ensures CountIn(h, cells, -p) == CountIn(g, cells, -p) - TurnedIn(g, h, cells, p)
    ensures CountIn(h, cells, 0) == CountIn(g, cells, 0)
  {
    if |cells| > 0 {
      CountInTurned(g, h, Init(cells), p);
    }
  }

  /** A listed cell that turns from -p to p is counted by TurnedIn. */
  lemma {:induction false} TurnedInPositive(g: Grid, h: Grid, cells: seq<Pos>, p: int, k: nat)
    requires IsGrid(g) && IsGrid(h) && AllOnBoard(cells) && k < |cells|
    requires At(g, cells[k]) == -p && At(h, cells[k]) == p
    ensures TurnedIn(g, h, cells, p) >= 1
  {
    if k < |cells| - 1 {
      TurnedInPositive(g, h, Init(cells), p, k);
    }
  }

  /** The empty board holds no disk: every listed cell counts as empty. */
  lemma {:induction false} CountInEmpty(cells: seq<Pos>, v: int)
    requires AllOnBoard(cells)
    ensures CountIn(EmptyGrid(), cells, v) == if v == 0 then |cells| else 0
  {
    if |cells| > 0 {
      CountInEmpty(Init(cells), v);
    }
  }

  /** The grid with every disk swapped for the other colour. */
  function Negate(g: Grid): (h: Grid)
    requires IsGrid(g)
    ensures IsGrid(h)
    ensures forall y :: OnBoard(y) ==> At(h, y) == -At(g, y)
  {
    seq(Size, i requires 0 <= i < Size => seq(Size, j requires 0 <= j < Size => -g[i][j]))
  }

  lemma {:induction false} CountInNegate(g: Grid, cells: seq<Pos>, v: int)
    requires IsGrid(g) && AllOnBoard(cells)
    ensures CountIn(Negate(g), cells, v) == CountIn(g, cells, -v)
  {
    if |cells| > 0 {
      CountInNegate(g, Init(cells), v);
    }
  }

  /** Counting over two lists one after the other adds up. */
  lemma {:induction false} CountInConcat(g: Grid, a: seq<Pos>, b: seq<Pos>, v: int)
    requires IsGrid(g) && AllOnBoard(a) && AllOnBoard(b)
    ensures AllOnBoard(a + b)
    ensures CountIn(g, a + b, v) == CountIn(g, a, v) + CountIn(g, b, v)
  {
    if |b| > 0 {
      assert Init(a + b) == a + Init(b) && Last(a + b) == Last(b);
      CountInConcat(g, a, Init(b), v);
    } else {
      assert a + b == a;
    }
  }

  /** The listed cells holding v, as a set. */
  ghost function Holding(g: Grid, cells: seq<Pos>, v: int): set<Pos>
    requires IsGrid(g) && AllOnBoard(cells)
  {
    set k | 0 <= k < |cells| && At(g, cells[k]) == v :: cells[k]
  }

  /** The set of a list with one more cell: that cell joins the set when it
      holds v. */
  lemma HoldingStep(g: Grid, cells: seq<Pos>, v: int)
    requires IsGrid(g) && AllOnBoard(cells) && |cells| > 0
    ensures Holding(g, cells, v)
         == if At(g, Last(cells)) == v then Holding(g, Init(cells), v) + {Last(cells)}
            else Holding(g, Init(cells), v)
  {
    var init, last := Init(cells), Last(cells);
    var h, h' := Holding(g, init, v), Holding(g, cells, v);
    forall y | y in h'
      ensures y in h || (y == last && At(g, last) == v)
    {
      var k :| 0 <= k < |cells| && At(g, cells[k]) == v && cells[k] == y;
      if k < |init| {
        assert init[k] == y;
      }
    }
    forall y | y in h
      ensures y in h'
    {
      var k :| 0 <= k < |init| && At(g, init[k]) == v && init[k] == y;
      assert cells[k] == y;
    }
    if At(g, last) == v {
      assert cells[|cells| - 1] == last;
    }
  }

  /** Every member of the set is one of the listed cells. */
  lemma HoldingListed(g: Grid, cells: seq<Pos>, v: int, y: Pos)
    requires IsGrid(g) && AllOnBoard(cells) && y in Holding(g, cells, v)
    ensures y in cells
  {
    var k :| 0 <= k < |cells| && At(g, cells[k]) == v && cells[k] == y;
  }

  /** Over a list without repeats, the count is the size of that set. */
  lemma {:induction false} CountInCard(g: Grid, cells: seq<Pos>, v: int)
    requires IsGrid(g) && AllOnBoard(cells) && Distinct(cells)
    ensures CountIn(g, cells, v) == |Holding(g, cells, v)|
  {
    if |cells| > 0 {
      var init, last := Init(cells), Last(cells);
      DistinctInit(cells);
      CountInCard(g, init, v);
      HoldingStep(g, cells, v);
      if last in Holding(g, init, v) {
        HoldingListed(g, init, v, last);
      }
    }
  }

  /** A set inside another is no larger. */
  lemma {:induction false} SubsetCard<T>(a: set<T>, b: set<T>)
    requires a <= b
    ensures |a| <= |b|
    decreases a
  {
    if a != {} {
      var x :| x in a;
      SubsetCard(a - {x}, b - {x});
    }
  }

  /** A list of distinct cells holds no more v cells than the whole board. */
  lemma CountInAtMostCount(g: Grid, cells: seq<Pos>, v: int)
    requires IsGrid(g) && AllOnBoard(cells) && Distinct(cells)
    ensures CountIn(g, cells, v) <= Count(g, v)
  {
    CountInCard(g, cells, v);
    CountInCard(g, AllCells(), v);
    var all := AllCells();
    forall y | y in Holding(g, cells, v)
      ensures y in Holding(g, all, v)
    {
      assert all[Key(y)] == y;
    }
    SubsetCard(Holding(g, cells, v), Holding(g, all, v));
  }
}
