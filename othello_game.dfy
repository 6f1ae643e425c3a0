/** The game engine: an 8x8 board updated in place and the side to move.
    Every method is specified by the pure rules of module Rules. */
module Othello {
  import opened Board
  import opened Rules
  import opened MoveProperties
  import opened OpeningPosition

  class OthelloGame {
    /** board[r, c] is 1 (dark), -1 (light) or 0 (empty). */
    var board: array2<int>
    /** 1 when dark is to move, -1 when light is. */
    var currentPlayer: int
    /** The board as a value: cells[r][c] is board[r, c]. */
    ghost var cells: Grid

    ghost predicate Valid()
      reads this, board
    {
      && board.Length0 == Size && board.Length1 == Size
      && IsGrid(cells) && Tristate(cells)
      && (forall i, j :: 0 <= i < Size && 0 <= j < Size ==> board[i, j] == cells[i][j])
      && (currentPlayer == 1 || currentPlayer == -1)
    }

    /** The board read into a value. */
    function Grid(): (g: Grid)
      reads this, board
      requires Valid()
      ensures g == cells
    {
      var b := board;
      var g := seq(Size, i requires 0 <= i < Size reads b =>
        seq(Size, j requires 0 <= j < Size reads b => b[i, j]));
      GridExt(g, cells);
      g
    }

    /** A new game: the opening position with dark to move. */
    constructor()
      ensures Valid() && fresh(board)
      ensures cells == Opening() && currentPlayer == 1
    {
      board := new int[Size, Size]((i, j) => 0);
      new;
      board[3, 3] := 1;
      board[3, 4] := -1;
      board[4, 3] := -1;
      board[4, 4] := 1;
      currentPlayer := 1;
      cells := Opening();
      forall i, j | 0 <= i < Size && 0 <= j < Size
        ensures board[i, j] == cells[i][j] && IsCell(cells[i][j])
      {
        OpeningAt(Pos(i, j));
      }
    }

    /** Whether the side to move may play at (row, col): the cell is empty
        and one of the eight scans finds a flanked run. The board is not
        changed. */
    method IsValidMove(row: int, col: int) returns (valid: bool)
      requires Valid() && InBounds(row, col)
      ensures valid == ValidMove(cells, currentPlayer, row, col)
    {
      if board[row, col] != 0 {
        return false;
      }
      for d := 0 to NumDirections
        invariant forall e :: 0 <= e < d ==> !Flanks(cells, currentPlayer, DirRay(row, col, e))
      {
        DirRaySteps(row, col, d);
        var flanked := ScanFlanks(row, col, DR(d), DC(d), DirRay(row, col, d));
        if flanked {
          return true;
        }
      }
      return false;
    }

    /** The scan the legality test makes along one direction (dr, dc), whose
        cells are ray: walk over the opponent's disks next to (row, col) and
        report whether an own disk follows them. */
    method ScanFlanks(row: int, col: int, dr: int, dc: int, ghost ray: seq<Pos>) returns (flanked: bool)
      requires Valid() && InBounds(row, col) && StepsAlong(ray, row, col, dr, dc)
      ensures flanked == Flanks(cells, currentPlayer, ray)
    {
      ghost var t := 0;
      var p := currentPlayer;
      var r, c := row + dr, col + dc;
      while InBounds(r, c) && board[r, c] == -p
        invariant 0 <= t <= |ray|
        invariant t < |ray| ==> ray[t] == Pos(r, c)
        invariant t == |ray| ==> !InBounds(r, c)
        invariant forall s :: 0 <= s < t ==> At(cells, ray[s]) == -p
        invariant 1 <= t < |ray| ==> At(cells, ray[t]) != p
        decreases |ray| - t
      {
        StepNext(ray, row, col, dr, dc, t);
        r, c := r + dr, c + dc;
        t := t + 1;
        if InBounds(r, c) && board[r, c] == p {
          RunIs(cells, p, ray, t);
          return true;
        }
      }
      if t < |ray| {
        RunIs(cells, p, ray, t);
      } else {
        RunAll(cells, p, ray);
      }
      return false;
    }

    /** The scan flip_disks makes along one direction (dr, dc), whose cells
        are ray: collect the opponent's disks next to (row, col) and turn
        the collected ones when an own disk follows them. */
    method FlipDirection(row: int, col: int, dr: int, dc: int, ghost ray: seq<Pos>)
      requires Valid() && InBounds(row, col) && StepsAlong(ray, row, col, dr, dc) && Distinct(ray)
      modifies this`cells, board
      ensures Valid()
      ensures cells == FlipRay(old(cells), currentPlayer, ray)
    {
      ghost var g := cells;
      ghost var t := 0;
      ghost var painted := false;
      var p := currentPlayer;
      var r, c := row + dr, col + dc;
      var flipList: seq<Pos> := [];
      while InBounds(r, c) && board[r, c] == -p
        invariant Valid()
        invariant 0 <= t <= |ray|
        invariant t < |ray| ==> ray[t] == Pos(r, c)
        invariant t == |ray| ==> !InBounds(r, c)
        invariant flipList == ray[..t]
        invariant forall s :: 0 <= s < t ==> At(g, ray[s]) == -p
        invariant !painted ==> cells == g && (1 <= t < |ray| ==> At(g, ray[t]) != p)
        invariant painted ==> 1 <= t < |ray| && At(g, ray[t]) == p && cells == Paint(g, flipList, p)
        decreases |ray| - t
      {
        TakeOneMore(ray, t);
        StepNext(ray, row, col, dr, dc, t);
        flipList := flipList + [Pos(r, c)];
        r, c := r + dr, c + dc;
        t := t + 1;
        if InBounds(r, c) && board[r, c] == p {
          NotBefore(ray, t);
          PaintCells(flipList, p);
          painted := true;
        }
      }
      if t < |ray| {
        RunIs(g, p, ray, t);
      } else {
        RunAll(g, p, ray);
      }
    }

    /** Sets each listed cell to v, in list order. */
    method PaintCells(list: seq<Pos>, v: int)
      requires Valid() && AllOnBoard(list) && IsCell(v)
      modifies this`cells, board
      ensures Valid()
      ensures cells == Paint(old(cells), list, v)
    {
      ghost var g := cells;
      for k := 0 to |list|
        invariant Valid()
        invariant cells == Paint(g, list[..k], v)
      {
        var x := list[k];
        board[x.row, x.col] := v;
        cells := Set(cells, x, v);
        InitPrefix(list, k);
      }
      assert list[..|list|] == list;
    }

    /** Turns every run of opponent disks that (row, col) flanks, one
        direction after the other. */
    method FlipDisks(row: int, col: int)
      requires Valid() && InBounds(row, col)
      modifies this`cells, board
      ensures Valid()
      ensures cells == FlipAll(old(cells), currentPlayer, row, col, NumDirections)
    {
      ghost var g := cells;
      for d := 0 to NumDirections
        invariant Valid()
        invariant cells == FlipAll(g, currentPlayer, row, col, d)
      {
        DirRaySteps(row, col, d);
        DirRayDistinct(row, col, d);
        FlipDirection(row, col, DR(d), DC(d), DirRay(row, col, d));
      }
    }

    /** Plays (row, col) for the side to move when that is a legal move:
        the disk is placed, the flanked runs turn and the turn passes to the
        other side. An illegal move changes nothing. */
    method MakeMove(row: int, col: int)
      requires Valid() && InBounds(row, col)
      modifies this, board
      ensures Valid() && board == old(board)
      ensures old(ValidMove(cells, currentPlayer, row, col)) ==>
        cells == Play(old(cells), old(currentPlayer), row, col) && currentPlayer == -old(currentPlayer)
      ensures !old(ValidMove(cells, currentPlayer, row, col)) ==>
        cells == old(cells) && currentPlayer == old(currentPlayer)
    {
      var valid := IsValidMove(row, col);
      if valid {
        board[row, col] := currentPlayer;
        cells := Set(cells, Pos(row, col), currentPlayer);
        FlipDisks(row, col);
        currentPlayer := -currentPlayer;
      }
    }

    /** The legal moves of the side to move, scanned in row-major order. */
    method GetValidMoves() returns (moves: seq<Pos>)
      requires Valid()
      ensures moves == ValidMoves(cells, currentPlayer)
    {
      moves := [];
      assert moves == MovesBefore(cells, currentPlayer, 0) by {
        assert AllCells()[..0] == [];
      }
      hide MovesBefore, MovesIn, ValidMoves, ValidMove;
      for row := 0 to Size
        invariant moves == MovesBefore(cells, currentPlayer, 8 * row)
      {
        for col := 0 to Size
          invariant moves == MovesBefore(cells, currentPlayer, 8 * row + col)
        {
          var valid := IsValidMove(row, col);
          MovesBeforeStep(cells, currentPlayer, row, col);
          if valid {
            moves := moves + [Pos(row, col)];
          }
        }
      }
      MovesBeforeAll(cells, currentPlayer);
    }

    /** The game ends when the side to move has no legal move or the board
        is full; there is no pass. */
    method IsGameOver() returns (over: bool)
      requires Valid()
      ensures over == GameOver(cells, currentPlayer)
      ensures over <==> ValidMoves(cells, currentPlayer) == []
    {
      var moves := GetValidMoves();
      over := moves == [] || Full(Grid());
      GameOverIff(cells, currentPlayer);
    }

    /** 1 when dark holds more disks, -1 when light does, 0 on equal counts. */
    function GetWinner(): (w: int)
      reads this, board
      requires Valid()
      ensures w == 1 <==> Count(cells, 1) > Count(cells, -1)
      ensures w == -1 <==> Count(cells, 1) < Count(cells, -1)
      ensures w == 0 <==> Count(cells, 1) == Count(cells, -1)
    {
      Winner(Grid())
    }
  }
}
