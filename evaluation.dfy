/** The position evaluator of the search player: a weighted sum of disk
    balance, mobility, corner and edge occupancy and a count of "stable"
    disks, all read from the board and the side to move. */
module Evaluation {
  import opened Board
  import opened Rules
  import opened OpeningPosition
  import opened Othello

  const CoinParityWeight: real := 1.0
  const MobilityWeight: real := 2.0
  const CornerOccupancyWeight: real := 5.0
  const StabilityWeight: real := 3.0
  const EdgeOccupancyWeight: real := 2.5

  /** The four corners, in the evaluator's order. */
  const Corners: seq<Pos> := [Pos(0, 0), Pos(0, 7), Pos(7, 0), Pos(7, 7)]

  /** The 24 edge cells that are not corners: rows 0 and 7 (columns 1 to 6),
      then rows 1 to 6 (columns 0 and 7), in the evaluator's order. Edge
      occupancy and the stability count use the same cells. */
  const Edges: seq<Pos> := [
    Pos(0, 1), Pos(0, 2), Pos(0, 3), Pos(0, 4), Pos(0, 5), Pos(0, 6),
    Pos(7, 1), Pos(7, 2), Pos(7, 3), Pos(7, 4), Pos(7, 5), Pos(7, 6),
    Pos(1, 0), Pos(1, 7), Pos(2, 0), Pos(2, 7), Pos(3, 0), Pos(3, 7),
    Pos(4, 0), Pos(4, 7), Pos(5, 0), Pos(5, 7), Pos(6, 0), Pos(6, 7)]

  /** The 4x4 centre block, rows and columns 2 to 5, row by row. */
  const InnerRegion: seq<Pos> := [
    Pos(2, 2), Pos(2, 3), Pos(2, 4), Pos(2, 5),
    Pos(3, 2), Pos(3, 3), Pos(3, 4), Pos(3, 5),
    Pos(4, 2), Pos(4, 3), Pos(4, 4), Pos(4, 5),
    Pos(5, 2), Pos(5, 3), Pos(5, 4), Pos(5, 5)]

  /** The regions the stability count visits, in order. Cells of rows and
      columns 1 and 6 that are not on the border belong to none of them. */
  const Regions: seq<seq<Pos>> := [Corners, Edges, InnerRegion]

  predicate RegionsOnBoard(rs: seq<seq<Pos>>) {
    forall i :: 0 <= i < |rs| ==> AllOnBoard(rs[i])
  }

  lemma RegionsAreOnBoard()
    ensures AllOnBoard(Corners) && AllOnBoard(Edges) && AllOnBoard(InnerRegion)
    ensures RegionsOnBoard(Regions)
  {
    assert AllOnBoard(Corners) && AllOnBoard(Edges) && AllOnBoard(InnerRegion);
  }

  /** The border cells: row or column 0 or 7. */
  predicate OnBorder(x: Pos) {
    x.row == 0 || x.row == Size - 1 || x.col == 0 || x.col == Size - 1
  }

  /** The edge and corner lists hold exactly the border cells. */
  lemma BorderCells(x: Pos)
    requires OnBoard(x)
    ensures x in Edges + Corners <==> OnBorder(x)
  {
    if OnBorder(x) {
      if x.row == 0 {
        assert x.col == 0 || x.col == 7 || x == Edges[x.col - 1];
      } else if x.row == 7 {
        assert x.col == 0 || x.col == 7 || x == Edges[x.col + 5];
      } else if x.col == 0 {
        assert x == Edges[2 * x.row + 10];
      } else {
        assert x == Edges[2 * x.row + 11];
      }
    }
  }

  /** The listed cells that lie on the board, in list order. */
  function KeepOnBoard(cells: seq<Pos>): (kept: seq<Pos>)
    ensures AllOnBoard(kept)
    ensures forall y :: y in kept <==> y in cells && OnBoard(y)
  {
    if |cells| == 0 then []
    else (if OnBoard(cells[0]) then [cells[0]] else []) + KeepOnBoard(cells[1..])
  }

  /** The eight cells around (row, col), from (row - 1, col - 1) to
      (row + 1, col + 1) row by row, on the board or not. */
  function Around(row: int, col: int): seq<Pos> {
    [Pos(row - 1, col - 1), Pos(row - 1, col), Pos(row - 1, col + 1),
     Pos(row, col - 1), Pos(row, col + 1),
     Pos(row + 1, col - 1), Pos(row + 1, col), Pos(row + 1, col + 1)]
  }

  /** The cells around (row, col) are those one step away in some direction. */
  lemma AroundIff(row: int, col: int)
    ensures forall y :: y in Around(row, col) <==>
      y != Pos(row, col) && -1 <= y.row - row <= 1 && -1 <= y.col - col <= 1
  {
    var a := Around(row, col);
    forall y | y != Pos(row, col) && -1 <= y.row - row <= 1 && -1 <= y.col - col <= 1
      ensures y in a
    {
      var i := 3 * (y.row - row + 1) + (y.col - col + 1);
      var k := if i < 4 then i else i - 1;
      assert a[k] == y;
    }
  }

  /** The on-board cells among the eight around (row, col), in the same order. */
  function Neighbors(row: int, col: int): (ns: seq<Pos>)
    ensures AllOnBoard(ns)
    ensures forall y :: y in ns <==>
      OnBoard(y) && y != Pos(row, col) && -1 <= y.row - row <= 1 && -1 <= y.col - col <= 1
  {
    AroundIff(row, col);
    KeepOnBoard(Around(row, col))
  }

  /** The evaluator's notion of a stable disk position: every neighbour holds
      p, or the cell is an edge or corner cell. (The cell's own disk is
      checked by the caller.) */
  predicate IsStableDisk(g: Grid, p: int, x: Pos)
    requires IsGrid(g) && OnBoard(x)
    ensures OnBorder(x) ==> IsStableDisk(g, p, x)
  {
    BorderCells(x);
    var ns := Neighbors(x.row, x.col);
    (forall k :: 0 <= k < |ns| ==> At(g, ns[k]) == p) || x in Edges + Corners
  }

  /** How many listed cells hold p and pass the stability test. */
  function StableIn(g: Grid, p: int, cells: seq<Pos>): (n: nat)
    requires IsGrid(g) && AllOnBoard(cells)
    ensures n <= CountIn(g, cells, p)
  {
    if |cells| == 0 then 0
    else StableIn(g, p, Init(cells))
         + (if At(g, Last(cells)) == p && IsStableDisk(g, p, Last(cells)) then 1 else 0)
  }

  /** The stable disks counted over a list of regions, region by region. */
  function StableRegions(g: Grid, p: int, rs: seq<seq<Pos>>): nat
    requires IsGrid(g) && RegionsOnBoard(rs)
  {
    if |rs| == 0 then 0
    else StableRegions(g, p, rs[..|rs| - 1]) + StableIn(g, p, rs[|rs| - 1])
  }

  /** The stability term: the stable p disks over corners, edges and centre. */
  function Stability(g: Grid, p: int): nat
    requires IsGrid(g)
  {
    RegionsAreOnBoard();
    StableRegions(g, p, Regions)
  }

  /** The sum of the cell values over the listed cells. */
  function SumIn(g: Grid, cells: seq<Pos>): int
    requires IsGrid(g) && AllOnBoard(cells)
  {
    if |cells| == 0 then 0 else SumIn(g, Init(cells)) + At(g, Last(cells))
  }

  /** The five terms combined with their weights. */
  function WeightedSum(coinParity: int, mobility: int, cornerOccupancy: int, stability: int,
                       edgeOccupancy: int): real
  {
    coinParity as real * CoinParityWeight
      + mobility as real * MobilityWeight
      + cornerOccupancy as real * CornerOccupancyWeight
      + stability as real * StabilityWeight
      + edgeOccupancy as real * EdgeOccupancyWeight
  }

  /** The evaluation of the position for p, the side to move. The mobility
      term subtracts the move count of dark in a fresh game, and corner and
      edge occupancy add up the raw cell values. */
  function Evaluate(g: Grid, p: int): real
    requires IsGrid(g)
  {
    RegionsAreOnBoard();
    var coinParity := Count(g, p) - Count(g, -p);
    var mobility := |ValidMoves(g, p)| - |ValidMoves(Opening(), 1)|;
    var cornerOccupancy := SumIn(g, Corners);
    var stability := Stability(g, p);
    var edgeOccupancy := SumIn(g, Edges);
    WeightedSum(coinParity, mobility, cornerOccupancy, stability, edgeOccupancy)
  }

  // ----- What the terms mean -----

  /** On a well-formed board the sum of cell values is the number of dark
      disks minus the number of light disks, whoever is to move. */
  lemma {:induction false} SumInBalance(g: Grid, cells: seq<Pos>)
    requires IsGrid(g) && Tristate(g) && AllOnBoard(cells)
    ensures SumIn(g, cells) == CountIn(g, cells, 1) - CountIn(g, cells, -1)
    ensures -|cells| <= SumIn(g, cells) <= |cells|
  {
    if |cells| > 0 {
      SumInBalance(g, Init(cells));
      assert IsCell(At(g, Last(cells)));
    }
  }

  /** The opponent mobility the evaluator subtracts is a constant: the four
      opening moves of dark. */
  lemma OpponentMobility()
    ensures |ValidMoves(Opening(), 1)| == 4
  {
    OpeningValidMoves();
  }

  /** The evaluation spelled out: mobility is measured against the constant
      4, and the corner and edge terms count dark minus light disks, the same
      for either side to move. */
  lemma EvaluateTerms(g: Grid, p: int)
    requires IsGrid(g) && Tristate(g)
    ensures AllOnBoard(Corners) && AllOnBoard(Edges)
    ensures Evaluate(g, p)
         == (Count(g, p) - Count(g, -p)) as real
          + 2.0 * (|ValidMoves(g, p)| - 4) as real
          + 5.0 * (CountIn(g, Corners, 1) - CountIn(g, Corners, -1)) as real
          + 3.0 * Stability(g, p) as real
          + 2.5 * (CountIn(g, Edges, 1) - CountIn(g, Edges, -1)) as real
  {
    RegionsAreOnBoard();
    OpponentMobility();
    SumInBalance(g, Corners);
    SumInBalance(g, Edges);
  }

  /** Corner occupancy lies in [-4, 4] and edge occupancy in [-24, 24]. */
  lemma OccupancyBounds(g: Grid)
    requires IsGrid(g) && Tristate(g)
    ensures -4 <= SumIn(g, Corners) <= 4
    ensures -24 <= SumIn(g, Edges) <= 24
  {
    SumInBalance(g, Corners);
    SumInBalance(g, Edges);
  }

  /** A border cell passes the stability test whatever its neighbours hold. */
  lemma BorderIsStable(g: Grid, p: int, x: Pos)
    requires IsGrid(g) && OnBoard(x) && OnBorder(x)
    ensures IsStableDisk(g, p, x)
  {
    BorderCells(x);
  }

  /** The centre block holds exactly the cells of rows and columns 2 to 5. */
  lemma InnerCells(x: Pos)
    ensures x in InnerRegion <==> 2 <= x.row <= 5 && 2 <= x.col <= 5
  {
    if 2 <= x.row <= 5 && 2 <= x.col <= 5 {
      assert x == InnerRegion[4 * (x.row - 2) + x.col - 2];
    }
  }

  /** A cell off the border is not an edge or corner cell. */
  lemma NotBorder(x: Pos)
    requires OnBoard(x) && !OnBorder(x)
    ensures x !in Edges + Corners
  {
    BorderCells(x);
  }

  /** The cells around x other than x itself all hold p. */
  ghost predicate Surrounded(g: Grid, p: int, x: Pos)
    requires IsGrid(g)
  {
    forall y :: OnBoard(y) && y != x && -1 <= y.row - x.row <= 1 && -1 <= y.col - x.col <= 1 ==>
      At(g, y) == p
  }

  /** The neighbour test of the evaluator holds exactly when x is surrounded. */
  lemma NeighborsAllIff(g: Grid, p: int, x: Pos)
    requires IsGrid(g) && OnBoard(x)
    ensures (forall k :: 0 <= k < |Neighbors(x.row, x.col)| ==> At(g, Neighbors(x.row, x.col)[k]) == p)
        <==> Surrounded(g, p, x)
  {
    var ns := Neighbors(x.row, x.col);
    if forall k :: 0 <= k < |ns| ==> At(g, ns[k]) == p {
      forall y | OnBoard(y) && y != x && -1 <= y.row - x.row <= 1 && -1 <= y.col - x.col <= 1
        ensures At(g, y) == p
      {
        assert y in ns;
      }
    }
    if Surrounded(g, p, x) {
      forall k | 0 <= k < |ns|
        ensures At(g, ns[k]) == p
      {
        assert ns[k] in ns;
      }
    }
  }

  /** A cell off the border (the centre block among them) passes the
      stability test exactly when all eight cells around it hold p. */
  lemma InnerStableIff(g: Grid, p: int, x: Pos)
    requires IsGrid(g) && OnBoard(x) && !OnBorder(x)
    ensures IsStableDisk(g, p, x) <==> Surrounded(g, p, x)
  {
    NotBorder(x);
    NeighborsAllIff(g, p, x);
  }

  /** Every listed cell that passes the test and holds p is counted. */
  lemma {:induction false} StableInAll(g: Grid, p: int, cells: seq<Pos>)
    requires IsGrid(g) && AllOnBoard(cells)
    requires forall k :: 0 <= k < |cells| ==> IsStableDisk(g, p, cells[k])
    ensures StableIn(g, p, cells) == CountIn(g, cells, p)
  {
    if |cells| > 0 {
      StableInAll(g, p, Init(cells));
    }
  }

  /** The stability term counts every p disk on the border and the p disks
      of the centre block whose eight neighbours all hold p; disks of rows
      and columns 1 and 6 off the border are never counted. */
  lemma StabilityParts(g: Grid, p: int)
    requires IsGrid(g)
    ensures AllOnBoard(Corners) && AllOnBoard(Edges) && AllOnBoard(InnerRegion)
    ensures Stability(g, p)
         == CountIn(g, Corners, p) + CountIn(g, Edges, p) + StableIn(g, p, InnerRegion)
  {
    RegionsAreOnBoard();
    forall k | 0 <= k < |Corners|
      ensures IsStableDisk(g, p, Corners[k])
    {
      assert Corners[k] in Edges + Corners;
    }
    forall k | 0 <= k < |Edges|
      ensures IsStableDisk(g, p, Edges[k])
    {
      assert Edges[k] in Edges + Corners;
    }
    StableInAll(g, p, Corners);
    StableInAll(g, p, Edges);
    var r1, r2 := Regions[..1], Regions[..2];
    assert r1[..0] == [] && r1[0] == Corners;
    assert StableRegions(g, p, r1) == StableIn(g, p, Corners);
    assert r2[..1] == r1 && r2[1] == Edges;
    assert StableRegions(g, p, r2) == StableIn(g, p, Corners) + StableIn(g, p, Edges);
    assert Regions[..2] == r2 && Regions[2] == InnerRegion;
    assert Stability(g, p) == StableRegions(g, p, r2) + StableIn(g, p, InnerRegion);
  }

  predicate IsCorner(x: Pos) {
    (x.row == 0 || x.row == Size - 1) && (x.col == 0 || x.col == Size - 1)
  }

  /** The position of an edge cell in the edge list. */
  function EdgeIndex(x: Pos): int {
    if x.row == 0 then x.col - 1
    else if x.row == Size - 1 then x.col + 5
    else if x.col == 0 then 2 * x.row + 10
    else 2 * x.row + 11
  }

  lemma EdgesShape()
    ensures forall k :: 0 <= k < |Edges| ==>
      EdgeIndex(Edges[k]) == k && OnBorder(Edges[k]) && !IsCorner(Edges[k])
  {
  }

  lemma InnerShape()
    ensures forall k :: 0 <= k < |InnerRegion| ==>
      4 * (InnerRegion[k].row - 2) + InnerRegion[k].col - 2 == k
      && 2 <= InnerRegion[k].row <= 5 && 2 <= InnerRegion[k].col <= 5
  {
  }

  /** Two lists without repeats and without a common cell make one. */
  lemma DistinctConcat(a: seq<Pos>, b: seq<Pos>)
    requires Distinct(a) && Distinct(b)
    requires forall i, j :: 0 <= i < |a| && 0 <= j < |b| ==> a[i] != b[j]
    ensures Distinct(a + b)
  {
  }

  /** The three regions do not overlap. */
  lemma RegionsDistinct()
    ensures Distinct(Corners + Edges + InnerRegion)
  {
    EdgesShape();
    InnerShape();
    assert forall k :: 0 <= k < |Corners| ==> IsCorner(Corners[k]);
    DistinctConcat(Corners, Edges);
    DistinctConcat(Corners + Edges, InnerRegion);
  }

  /** The stability term never exceeds the 44 cells the regions cover, nor
      the number of disks p has on the board. */
  lemma StabilityBounds(g: Grid, p: int)
    requires IsGrid(g)
    ensures Stability(g, p) <= 44
    ensures Stability(g, p) <= Count(g, p)
  {
    StabilityParts(g, p);
    RegionsDistinct();
    CountInConcat(g, Corners, Edges, p);
    CountInConcat(g, Corners + Edges, InnerRegion, p);
    CountInAtMostCount(g, Corners + Edges + InnerRegion, p);
  }

  /** The stability count of the evaluator: the regions are visited in
      order and each cell holding the side to move that passes the test
      adds one. */
  method CalculateStability(game: OthelloGame) returns (stableCount: int)
    requires game.Valid()
    ensures stableCount == Stability(game.cells, game.currentPlayer)
  {
    RegionsAreOnBoard();
    stableCount := 0;
    for i := 0 to |Regions|
      invariant stableCount == StableRegions(game.cells, game.currentPlayer, Regions[..i])
    {
      assert Regions[..i + 1][..i] == Regions[..i];
      var n := StableCountIn(game, Regions[i]);
      stableCount := stableCount + n;
    }
    assert Regions[..|Regions|] == Regions;
  }

  /** The inner loop of the stability count: the cells of one region that
      hold the side to move and pass the stability test. */
  method StableCountIn(game: OthelloGame, region: seq<Pos>) returns (n: int)
    requires game.Valid() && AllOnBoard(region)
    ensures n == StableIn(game.cells, game.currentPlayer, region)
  {
    var g := game.Grid();
    var p := game.currentPlayer;
    n := 0;
    for k := 0 to |region|
      invariant n == StableIn(g, p, region[..k])
    {
      var x := region[k];
      InitPrefix(region, k);
      if game.board[x.row, x.col] == p && IsStableDisk(g, p, x) {
        n := n + 1;
      }
    }
    assert region[..|region|] == region;
  }

  /** A proof step of EvaluateGameState: the five values the method
      computes, combined with their weights, give the evaluation. */
  lemma EvaluateFromTerms(g: Grid, p: int, coinParity: int, mobility: int, cornerOccupancy: int,
                          stability: int, edgeOccupancy: int)
    requires IsGrid(g) && AllOnBoard(Corners) && AllOnBoard(Edges)
    requires coinParity == Count(g, p) - Count(g, -p)
    requires mobility == |ValidMoves(g, p)| - |ValidMoves(Opening(), 1)|
    requires cornerOccupancy == SumIn(g, Corners)
    requires stability == Stability(g, p)
    requires edgeOccupancy == SumIn(g, Edges)
    ensures Evaluate(g, p) == WeightedSum(coinParity, mobility, cornerOccupancy, stability, edgeOccupancy)
  {
  }

  /** The evaluation of the game for its side to move; the opponent
      mobility is read from a fresh game. */
  method EvaluateGameState(game: OthelloGame) returns (evaluation: real)
    requires game.Valid()
    ensures evaluation == Evaluate(game.cells, game.currentPlayer)
  {
    var g := game.Grid();
    var p := game.currentPlayer;
    RegionsAreOnBoard();
    var playerDiskCount: int := Count(g, p);
    var opponentDiskCount := Count(g, -p);
    var coinParity := playerDiskCount - opponentDiskCount;
    var playerMoves := game.GetValidMoves();
    var newGame := new OthelloGame();
    var opponentMoves := newGame.GetValidMoves();
    var mobility := |playerMoves| - |opponentMoves|;
    var cornerOccupancy := SumIn(g, Corners);
    var stability := CalculateStability(game);
    var edgeOccupancy := SumIn(g, Edges);
    EvaluateFromTerms(g, p, coinParity, mobility, cornerOccupancy, stability, edgeOccupancy);
    evaluation := WeightedSum(coinParity, mobility, cornerOccupancy, stability, edgeOccupancy);
  }
}
