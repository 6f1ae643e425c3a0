/** Facts about the opening position: its layout and counts, dark's four
    legal first moves, and the board after dark's first move at (2,4). */
module OpeningPosition {
  import opened Board
  import opened Rules
  import opened MoveProperties

  /** Dark on (3,3) and (4,4), light on (3,4) and (4,3), every other cell empty. */
  lemma OpeningAt(y: Pos)
    requires OnBoard(y)
    ensures At(Opening(), y)
         == if y == Pos(3, 3) || y == Pos(4, 4) then 1
            else if y == Pos(3, 4) || y == Pos(4, 3) then -1
            else 0
  {
  }

  /** Two disks of each colour and 60 empty cells. */
  lemma OpeningCounts()
    ensures Count(Opening(), 1) == 2 && Count(Opening(), -1) == 2 && Count(Opening(), 0) == 60
  {
    var cells := AllCells();
    var g0 := EmptyGrid();
    var g1 := Set(g0, Pos(3, 3), 1);
    var g2 := Set(g1, Pos(3, 4), -1);
    var g3 := Set(g2, Pos(4, 3), -1);
    InAllCells(Pos(3, 3));
    InAllCells(Pos(3, 4));
    InAllCells(Pos(4, 3));
    InAllCells(Pos(4, 4));
    forall v | v in {1, -1, 0}
      ensures Count(Opening(), v) == if v == 0 then 60 else 2
    {
      CountInEmpty(cells, v);
      CountInSet(g0, cells, Pos(3, 3), 1, v);
      CountInSet(g1, cells, Pos(3, 4), -1, v);
      CountInSet(g2, cells, Pos(4, 3), -1, v);
      CountInSet(g3, cells, Pos(4, 4), 1, v);
    }
  }

  /** The moves dark may open with. */
  const OpeningMoves: seq<Pos> := [Pos(2, 4), Pos(3, 5), Pos(4, 2), Pos(5, 3)]

  /** Each opening move flanks a light disk along one direction. */
  lemma OpeningMovesValid(y: Pos)
    requires y in OpeningMoves
    ensures ValidMove(Opening(), 1, y.row, y.col)
  {
    if y == Pos(2, 4) {
      OpensAlong(y, 6);
    } else if y == Pos(3, 5) {
      OpensAlong(y, 3);
    } else if y == Pos(4, 2) {
      OpensAlong(y, 4);
    } else {
      OpensAlong(y, 1);
    }
  }

  /** Dark may move at y when, along direction d, a light disk is next to y
      and a dark one follows it. */
  lemma OpensAlong(y: Pos, d: int)
    requires OnBoard(y) && 0 <= d < NumDirections && At(Opening(), y) == 0
    requires |DirRay(y.row, y.col, d)| >= 2
    requires At(Opening(), DirRay(y.row, y.col, d)[0]) == -1
    requires At(Opening(), DirRay(y.row, y.col, d)[1]) == 1
    ensures ValidMove(Opening(), 1, y.row, y.col)
  {
    RunIs(Opening(), 1, DirRay(y.row, y.col, d), 1);
  }

  predicate IsLightCentre(x: Pos) {
    x == Pos(3, 4) || x == Pos(4, 3)
  }

  predicate IsDarkCentre(x: Pos) {
    x == Pos(3, 3) || x == Pos(4, 4)
  }

  /** The cell t steps from y along (dr, dc). */
  function Step(y: Pos, dr: int, dc: int, t: int): Pos {
    Pos(y.row + Scale(t, dr), y.col + Scale(t, dc))
  }

  /** The two light centre disks sit on one diagonal, and the cell beyond
      them on it holds no centre disk. */
  lemma LightLine(y: Pos, dr: int, dc: int)
    requires IsDirection(dr, dc)
    requires IsLightCentre(Step(y, dr, dc, 1)) && IsLightCentre(Step(y, dr, dc, 2))
    ensures !IsLightCentre(Step(y, dr, dc, 3)) && !IsDarkCentre(Step(y, dr, dc, 3))
  {
  }

  /** A light centre disk followed by a dark one is seen only from the four
      opening moves. */
  lemma LightThenDark(y: Pos, dr: int, dc: int)
    requires IsDirection(dr, dc)
    requires IsLightCentre(Step(y, dr, dc, 1)) && IsDarkCentre(Step(y, dr, dc, 2))
    ensures y in OpeningMoves
  {
  }

  /** The first cells of a ray that flanks: at least two, one and two steps
      away, and a third, three steps away, when the run is longer than one. */
  lemma FlankedCells(g: Grid, y: Pos, d: int)
    requires IsGrid(g) && OnBoard(y) && 0 <= d < NumDirections
    requires Flanks(g, 1, DirRay(y.row, y.col, d))
    ensures var ray := DirRay(y.row, y.col, d);
      |ray| >= 2 && ray[0] == Step(y, DR(d), DC(d), 1) && ray[1] == Step(y, DR(d), DC(d), 2) &&
      (Run(g, 1, ray) >= 2 ==> |ray| >= 3 && ray[2] == Step(y, DR(d), DC(d), 3))
  {
  }

  /** Any first move of dark is one of the four: the run it flanks is the
      single light disk next to it, closed by a dark centre disk. */
  lemma OpeningMoveOnly(y: Pos)
    requires OnBoard(y) && ValidMove(Opening(), 1, y.row, y.col)
    ensures y in OpeningMoves
  {
    var g := Opening();
    var d :| 0 <= d < NumDirections && Flanks(g, 1, DirRay(y.row, y.col, d));
    var dr, dc := DR(d), DC(d);
    DirectionIs(d);
    var ray := DirRay(y.row, y.col, d);
    var k := Run(g, 1, ray);
    FlankedCells(g, y, d);
    OpeningAt(ray[0]);
    OpeningAt(ray[1]);
    if k >= 2 {
      OpeningAt(ray[2]);
      LightLine(y, dr, dc);
      assert false;
    }
    LightThenDark(y, dr, dc);
  }

  /** Two increasing lists of board cells with the same members are equal. */
  lemma {:induction false} IncreasingUnique(a: seq<Pos>, b: seq<Pos>)
    requires AllOnBoard(a) && AllOnBoard(b) && Increasing(a) && Increasing(b)
    requires forall m :: m in a <==> m in b
    ensures a == b
    decreases |a| + |b|
  {
    if |a| == 0 || |b| == 0 {
      if |a| > 0 {
        FirstIsMember(a);
      } else if |b| > 0 {
        FirstIsMember(b);
      }
    } else {
      var la, lb := Last(a), Last(b);
      assert la in b && lb in a;
      assert Key(la) == Key(lb) by {
        LastIsLargest(a, lb);
        LastIsLargest(b, la);
      }
      forall m
        ensures m in Init(a) <==> m in Init(b)
      {
        InitMembers(a, m);
        InitMembers(b, m);
      }
      IncreasingUnique(Init(a), Init(b));
      assert a == Init(a) + [la] && b == Init(b) + [lb];
    }
  }

  lemma FirstIsMember(a: seq<Pos>)
    requires |a| > 0
    ensures a[0] in a
  {
  }

  /** No member of an increasing list comes after its last element. */
  lemma LastIsLargest(a: seq<Pos>, m: Pos)
    requires |a| > 0 && Increasing(a) && m in a
    ensures Key(m) <= Key(Last(a))
  {
  }

  /** The members of Init(a) are those of a other than its last. */
  lemma InitMembers(a: seq<Pos>, m: Pos)
    requires |a| > 0 && AllOnBoard(a) && Increasing(a)
    ensures m in Init(a) <==> m in a && m != Last(a)
  {
    assert a == Init(a) + [Last(a)];
  }

  /** The move list is the one increasing list of exactly the legal cells. */
  lemma MovesAre(g: Grid, p: int, expected: seq<Pos>)
    requires IsGrid(g) && AllOnBoard(expected) && Increasing(expected)
    requires forall m :: OnBoard(m) ==> (ValidMove(g, p, m.row, m.col) <==> m in expected)
    ensures ValidMoves(g, p) == expected
  {
    IncreasingUnique(ValidMoves(g, p), expected);
  }

  /** A cell is a legal opening move for dark exactly when it is one of the four. */
  lemma OpeningMoveIff(m: Pos)
    requires OnBoard(m)
    ensures ValidMove(Opening(), 1, m.row, m.col) <==> m in OpeningMoves
  {
    if m in OpeningMoves {
      OpeningMovesValid(m);
    }
    if ValidMove(Opening(), 1, m.row, m.col) {
      OpeningMoveOnly(m);
    }
  }

  /** Dark's legal opening moves, as the engine lists them. */
  lemma OpeningValidMoves()
    ensures ValidMoves(Opening(), 1) == OpeningMoves
  {
    forall m | OnBoard(m)
      ensures ValidMove(Opening(), 1, m.row, m.col) <==> m in OpeningMoves
    {
      OpeningMoveIff(m);
    }
    OpeningMovesIncreasing();
    MovesAre(Opening(), 1, OpeningMoves);
  }

  lemma OpeningMovesIncreasing()
    ensures AllOnBoard(OpeningMoves) && Increasing(OpeningMoves)
  {
  }

  /** Dark's move at (2,4) turns the light disk at (3,4) and nothing else. */
  lemma FirstMoveFlips(y: Pos)
    requires OnBoard(y)
    ensures Flipped(Opening(), 1, 2, 4, y) <==> y == Pos(3, 4)
  {
    var g := Opening();
    if y == Pos(3, 4) {
      var ray := DirRay(2, 4, 6);
      OpeningAt(ray[0]);
      OpeningAt(ray[1]);
      RunIs(g, 1, ray, 1);
      assert ray[..Run(g, 1, ray)][0] == y;
      assert TurnsCell(g, 1, 2, 4, 6, y);
    }
    if Flipped(g, 1, 2, 4, y) {
      FlippedWasOpponent(g, 1, 2, 4, y);
      OpeningAt(y);
      FlippedAligned(g, 1, 2, 4, y);
    }
  }

  /** A turned disk lies on a line through the placed one: the same row,
      column or diagonal. */
  lemma FlippedAligned(g: Grid, p: int, row: int, col: int, y: Pos)
    requires IsGrid(g) && InBounds(row, col) && OnBoard(y) && Flipped(g, p, row, col, y)
    ensures y.row == row || y.col == col || y.row - row == y.col - col || y.row - row == col - y.col
  {
    var d :| 0 <= d < NumDirections && TurnsCell(g, p, row, col, d, y);
    var ray := DirRay(row, col, d);
    var t :| 0 <= t < Run(g, p, ray) && ray[..Run(g, p, ray)][t] == y;
    assert ray[t] == y;
    DirectionIs(d);
  }

  /** After dark opens at (2,4), dark has 4 disks and light 1. */
  lemma FirstMoveCounts()
    ensures Count(Play(Opening(), 1, 2, 4), 1) == 4
    ensures Count(Play(Opening(), 1, 2, 4), -1) == 1
  {
    var g := Opening();
    var h := Play(g, 1, 2, 4);
    var s1 := Set(g, Pos(2, 4), 1);
    var s2 := Set(s1, Pos(3, 4), 1);
    forall y | OnBoard(y)
      ensures At(h, y) == At(s2, y)
    {
      PlayAt(g, 1, 2, 4, y);
      FirstMoveFlips(y);
    }
    GridExt(h, s2);
    OpeningCounts();
    OpeningAt(Pos(2, 4));
    OpeningAt(Pos(3, 4));
    InAllCells(Pos(2, 4));
    InAllCells(Pos(3, 4));
    CountInSet(g, AllCells(), Pos(2, 4), 1, 1);
    CountInSet(g, AllCells(), Pos(2, 4), 1, -1);
    CountInSet(s1, AllCells(), Pos(3, 4), 1, 1);
    CountInSet(s1, AllCells(), Pos(3, 4), 1, -1);
  }
}
