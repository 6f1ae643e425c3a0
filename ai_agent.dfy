/** The search player: depth-limited alpha-beta pruning over the game tree,
    with the evaluator at the leaves. The pruned search is specified by a
    function that follows the scan move by move, and is proved against a
    plain minimax of the same tree. */
module Search {
  import opened Board
  import opened Rules
  import opened Othello
  import opened Evaluation
  import opened MoveProperties

  /** The search's float values: a finite real or one of the two infinities
      that start the window and the running best. */
  datatype ExtReal = NegInf | Fin(r: real) | PosInf

  datatype Option<T> = None | Some(value: T)

  /** The order of the floats, infinities included. */
  predicate Less(a: ExtReal, b: ExtReal) {
    match a
    case NegInf => !b.NegInf?
    case Fin(x) => b.PosInf? || (b.Fin? && x < b.r)
    case PosInf => false
  }

  predicate LessEq(a: ExtReal, b: ExtReal) {
    !Less(b, a)
  }

  /** max(a, b): b only when it is strictly larger. */
  function Max(a: ExtReal, b: ExtReal): ExtReal {
    if Less(a, b) then b else a
  }

  /** min(a, b): b only when it is strictly smaller. */
  function Min(a: ExtReal, b: ExtReal): ExtReal {
    if Less(b, a) then b else a
  }

  /** x pushed into the window [lo, hi]. */
  function Clamp(x: ExtReal, lo: ExtReal, hi: ExtReal): ExtReal {
    Max(lo, Min(x, hi))
  }

  // ----- The search tree -----

  /** The tree the search explores: a leaf holds the evaluation of a
      position, a node one branch per legal move, in order; a node has at
      least one branch, since a position that is not over has a legal move. */
  datatype Tree = Leaf(score: real) | Node(first: Branch, others: seq<Branch>)

  /** A legal move and the tree below the position it leads to. */
  datatype Branch = Branch(move: Pos, child: Tree)

  /** The branches of a node, in order. */
  function Fan(t: Tree): (bs: seq<Branch>)
    requires t.Node?
    ensures |bs| > 0 && bs[0] == t.first && bs[1..] == t.others
  {
    [t.first] + t.others
  }

  /** The side to move after p has moved. */
  function Opponent(p: int): int {
    -p
  }

  /** The position after p plays m. */
  function Child(g: Grid, p: int, m: Pos): (c: Grid)
    requires IsGrid(g) && OnBoard(m)
    ensures IsGrid(c)
  {
    Play(g, p, m.row, m.col)
  }

  /** The tree searched from a position with p to move, depth plies deep. */
  function GameTree(g: Grid, p: int, depth: nat): Tree
    requires IsGrid(g)
    decreases depth, 1, 0
  {
    GameOverIff(g, p);
    if depth == 0 || GameOver(g, p) then Leaf(Evaluate(g, p))
    else
      var bs := Branches(g, p, depth, ValidMoves(g, p));
      Node(bs[0], bs[1..])
  }

  /** One branch per listed move, in order. */
  function Branches(g: Grid, p: int, depth: nat, ms: seq<Pos>): (bs: seq<Branch>)
    requires IsGrid(g) && 1 <= depth && AllOnBoard(ms)
    ensures |bs| == |ms|
    decreases depth, 0, |ms|
  {
    if |ms| == 0 then []
    else [Branch(ms[0], GameTree(Child(g, p, ms[0]), Opponent(p), depth - 1))] + Branches(g, p, depth, ms[1..])
  }

  lemma {:induction false} BranchesAt(g: Grid, p: int, depth: nat, ms: seq<Pos>, k: nat)
    requires IsGrid(g) && 1 <= depth && AllOnBoard(ms) && k < |ms|
    ensures Branches(g, p, depth, ms)[k] == Branch(ms[k], GameTree(Child(g, p, ms[k]), Opponent(p), depth - 1))
    decreases |ms|
  {
    if k > 0 {
      BranchesAt(g, p, depth, ms[1..], k - 1);
    }
  }

  /** The shape of the searched tree: a leaf with the evaluation for the
      side to move at depth 0 or once the game is over, otherwise one branch
      per legal move. */
  lemma GameTreeShape(g: Grid, p: int, depth: nat)
    requires IsGrid(g)
    ensures var t := GameTree(g, p, depth);
      && (t.Leaf? <==> depth == 0 || GameOver(g, p))
      && (t.Leaf? ==> t.score == Evaluate(g, p))
      && (t.Node? ==> |Fan(t)| == |ValidMoves(g, p)|)
  {
    GameOverIff(g, p);
    var t := GameTree(g, p, depth);
    if t.Node? {
      var bs := Branches(g, p, depth, ValidMoves(g, p));
      assert Fan(t) == bs;
    }
  }

  /** Branch k of a node is legal move k, in the order the moves are
      listed, leading to the tree one ply shallower with the opponent to
      move. */
  lemma GameTreeBranch(g: Grid, p: int, depth: nat, k: nat)
    requires IsGrid(g) && depth > 0 && !GameOver(g, p) && k < |ValidMoves(g, p)|
    ensures GameTree(g, p, depth).Node? && k < |Fan(GameTree(g, p, depth))|
    ensures Fan(GameTree(g, p, depth))[k] ==
            Branch(ValidMoves(g, p)[k], GameTree(Child(g, p, ValidMoves(g, p)[k]), Opponent(p), depth - 1))
  {
    GameOverIff(g, p);
    var bs := Branches(g, p, depth, ValidMoves(g, p));
    assert Fan(GameTree(g, p, depth)) == bs;
    BranchesAt(g, p, depth, ValidMoves(g, p), k);
  }

  // ----- The plain minimax value of the tree -----

  /** The minimax value: the score at a leaf, otherwise the best child value
      for the maximizing or the minimizing side. */
  function Minimax(t: Tree, maximizing: bool): ExtReal
    decreases t, 1
  {
    match t
    case Leaf(s) => Fin(s)
    case Node(_, _) => BestOf(t, 0, maximizing)
  }

  /** The best minimax value over the branches of a node from i on. */
  function BestOf(t: Tree, i: nat, maximizing: bool): ExtReal
    requires t.Node? && i <= |Fan(t)|
    decreases t, 0, |Fan(t)| - i
  {
    if i == |Fan(t)| then (if maximizing then NegInf else PosInf)
    else
      var v := Minimax(Fan(t)[i].child, !maximizing);
      var rest := BestOf(t, i + 1, maximizing);
      if maximizing then Max(v, rest) else Min(v, rest)
  }

  // ----- The pruned search, move by move -----

  /** The value and move the pruned search returns for a tree and a window
      (alpha, beta): no move at a leaf, otherwise the scan of the branches
      in order. */
  function AlphaBetaTree(t: Tree, maximizing: bool, alpha: ExtReal, beta: ExtReal): (ExtReal, Option<Pos>)
    decreases t, 1
  {
    match t
    case Leaf(s) => (Fin(s), None)
    case Node(_, _) =>
      if maximizing then MaxScan(t, 0, alpha, beta, NegInf, None)
      else MinScan(t, 0, alpha, beta, PosInf, None)
  }

  /** The maximizing scan from branch i on: a child value strictly above the
      best so far replaces it and its move, alpha rises to it, and the scan
      stops once beta <= alpha. */
  function MaxScan(t: Tree, i: nat, alpha: ExtReal, beta: ExtReal,
                   best: ExtReal, bestMove: Option<Pos>): (ExtReal, Option<Pos>)
    requires t.Node? && i <= |Fan(t)|
    decreases t, 0, |Fan(t)| - i
  {
    if i == |Fan(t)| then (best, bestMove)
    else
      var e := AlphaBetaTree(Fan(t)[i].child, false, alpha, beta).0;
      var best' := Max(best, e);
      var move' := if Less(best, e) then Some(Fan(t)[i].move) else bestMove;
      var alpha' := Max(alpha, e);
      if LessEq(beta, alpha') then (best', move')
      else MaxScan(t, i + 1, alpha', beta, best', move')
  }

  /** The minimizing scan: the mirror image, lowering beta. */
  function MinScan(t: Tree, i: nat, alpha: ExtReal, beta: ExtReal,
                   best: ExtReal, bestMove: Option<Pos>): (ExtReal, Option<Pos>)
    requires t.Node? && i <= |Fan(t)|
    decreases t, 0, |Fan(t)| - i
  {
    if i == |Fan(t)| then (best, bestMove)
    else
      var e := AlphaBetaTree(Fan(t)[i].child, true, alpha, beta).0;
      var best' := Min(best, e);
      var move' := if Less(e, best) then Some(Fan(t)[i].move) else bestMove;
      var beta' := Min(beta, e);
      if LessEq(beta', alpha) then (best', move')
      else MinScan(t, i + 1, alpha, beta', best', move')
  }

  // ----- Facts about the order -----

  /** One maximizing step that prunes: the rest of the moves cannot change
      the value seen through the window. Here a is the running alpha, e the
      pruned value of the child and m its minimax value. */
  lemma MaxCut(alpha: ExtReal, beta: ExtReal, best: ExtReal, a: ExtReal, e: ExtReal, m: ExtReal,
               rest: ExtReal)
    requires a == Max(alpha, best) && Less(a, beta)
    requires Clamp(e, a, beta) == Clamp(m, a, beta)
    requires LessEq(beta, Max(a, e))
    ensures Clamp(Max(best, e), alpha, beta) == Clamp(Max(best, Max(m, rest)), alpha, beta)
  {
  }

  /** One maximizing step that goes on: the new running alpha is the maximum
      of the window's alpha and the new best, and the value through the
      window is kept. */
  lemma MaxGoOn(alpha: ExtReal, beta: ExtReal, best: ExtReal, a: ExtReal, e: ExtReal, m: ExtReal,
                rest: ExtReal)
    requires a == Max(alpha, best) && Less(a, beta)
    requires Clamp(e, a, beta) == Clamp(m, a, beta)
    requires Less(Max(a, e), beta)
    ensures Max(a, e) == Max(alpha, Max(best, e))
    ensures Clamp(Max(Max(best, e), rest), alpha, beta) == Clamp(Max(best, Max(m, rest)), alpha, beta)
  {
  }

  /** One minimizing step that prunes; b is the running beta. */
  lemma MinCut(alpha: ExtReal, beta: ExtReal, best: ExtReal, b: ExtReal, e: ExtReal, m: ExtReal,
               rest: ExtReal)
    requires b == Min(beta, best) && Less(alpha, b)
    requires Clamp(e, alpha, b) == Clamp(m, alpha, b)
    requires LessEq(Min(b, e), alpha)
    ensures Clamp(Min(best, e), alpha, beta) == Clamp(Min(best, Min(m, rest)), alpha, beta)
  {
  }

  /** One minimizing step that goes on. */
  lemma MinGoOn(alpha: ExtReal, beta: ExtReal, best: ExtReal, b: ExtReal, e: ExtReal, m: ExtReal,
                rest: ExtReal)
    requires b == Min(beta, best) && Less(alpha, b)
    requires Clamp(e, alpha, b) == Clamp(m, alpha, b)
    requires Less(alpha, Min(b, e))
    ensures Min(b, e) == Min(beta, Min(best, e))
    ensures Clamp(Min(Min(best, e), rest), alpha, beta) == Clamp(Min(best, Min(m, rest)), alpha, beta)
  {
  }

  // ----- The pruned search computes the minimax value -----

  /** Within a non-empty window, the pruned value and the minimax value
      agree once pushed into the window: a value inside the window is
      exact, one outside is on the correct side of it. */
  lemma {:induction false} AlphaBetaClamp(t: Tree, maximizing: bool, alpha: ExtReal, beta: ExtReal)
    requires Less(alpha, beta)
    ensures Clamp(AlphaBetaTree(t, maximizing, alpha, beta).0, alpha, beta)
         == Clamp(Minimax(t, maximizing), alpha, beta)
    decreases t, 1
  {
    if t.Node? {
      if maximizing {
        MaxScanClamp(t, 0, alpha, beta, NegInf, None, alpha);
      } else {
        MinScanClamp(t, 0, alpha, beta, PosInf, None, beta);
      }
    }
  }

  /** The maximizing scan from branch i, with running alpha a = max(alpha,
      best) still below beta, gives the best of best and the remaining
      children, seen through the window. */
  lemma {:induction false} MaxScanClamp(t: Tree, i: nat, alpha: ExtReal, beta: ExtReal,
                                        best: ExtReal, bestMove: Option<Pos>, a: ExtReal)
    requires t.Node? && i <= |Fan(t)|
    requires a == Max(alpha, best) && Less(a, beta)
    ensures Clamp(MaxScan(t, i, a, beta, best, bestMove).0, alpha, beta)
         == Clamp(Max(best, BestOf(t, i, true)), alpha, beta)
    decreases t, 0, |Fan(t)| - i
  {
    if i < |Fan(t)| {
      var b := Fan(t)[i];
      AlphaBetaClamp(b.child, false, a, beta);
      var e := AlphaBetaTree(b.child, false, a, beta).0;
      var m := Minimax(b.child, false);
      var rest := BestOf(t, i + 1, true);
      var move' := if Less(best, e) then Some(b.move) else bestMove;
      if LessEq(beta, Max(a, e)) {
        MaxCut(alpha, beta, best, a, e, m, rest);
      } else {
        MaxGoOn(alpha, beta, best, a, e, m, rest);
        MaxScanClamp(t, i + 1, alpha, beta, Max(best, e), move', Max(a, e));
      }
    }
  }

  /** The minimizing scan, with running beta b = min(beta, best) still above
      alpha. */
  lemma {:induction false} MinScanClamp(t: Tree, i: nat, alpha: ExtReal, beta: ExtReal,
                                        best: ExtReal, bestMove: Option<Pos>, b: ExtReal)
    requires t.Node? && i <= |Fan(t)|
    requires b == Min(beta, best) && Less(alpha, b)
    ensures Clamp(MinScan(t, i, alpha, b, best, bestMove).0, alpha, beta)
         == Clamp(Min(best, BestOf(t, i, false)), alpha, beta)
    decreases t, 0, |Fan(t)| - i
  {
    if i < |Fan(t)| {
      var br := Fan(t)[i];
      AlphaBetaClamp(br.child, true, alpha, b);
      var e := AlphaBetaTree(br.child, true, alpha, b).0;
      var m := Minimax(br.child, true);
      var rest := BestOf(t, i + 1, false);
      var move' := if Less(e, best) then Some(br.move) else bestMove;
      if LessEq(Min(b, e), alpha) {
        MinCut(alpha, beta, best, b, e, m, rest);
      } else {
        MinGoOn(alpha, beta, best, b, e, m, rest);
        MinScanClamp(t, i + 1, alpha, beta, Min(best, e), move', Min(b, e));
      }
    }
  }

  /** With the default window (-inf, +inf) the pruned search returns the
      exact minimax value. */
  lemma AlphaBetaExact(t: Tree, maximizing: bool)
    ensures AlphaBetaTree(t, maximizing, NegInf, PosInf).0 == Minimax(t, maximizing)
  {
    AlphaBetaClamp(t, maximizing, NegInf, PosInf);
  }

  // ----- The value is finite and the move is one of the node's -----

  /** m is the move of one of the branches of node t. */
  ghost predicate MoveOf(t: Tree, m: Pos)
    requires t.Node?
  {
    exists k :: 0 <= k < |Fan(t)| && Fan(t)[k].move == m
  }

  /** The pruned search returns a finite value, no move at a leaf and, at a
      node, the move of one of its branches. */
  lemma {:induction false} AlphaBetaFinite(t: Tree, maximizing: bool, alpha: ExtReal, beta: ExtReal)
    ensures AlphaBetaTree(t, maximizing, alpha, beta).0.Fin?
    ensures t.Leaf? ==> AlphaBetaTree(t, maximizing, alpha, beta).1 == None
    ensures t.Node? ==> (AlphaBetaTree(t, maximizing, alpha, beta).1.Some?
                         && MoveOf(t, AlphaBetaTree(t, maximizing, alpha, beta).1.value))
    decreases t, 1
  {
    if t.Node? {
      if maximizing {
        MaxScanFinite(t, 0, alpha, beta, NegInf, None);
      } else {
        MinScanFinite(t, 0, alpha, beta, PosInf, None);
      }
    }
  }

  lemma {:induction false} MaxScanFinite(t: Tree, i: nat, alpha: ExtReal, beta: ExtReal,
                                         best: ExtReal, bestMove: Option<Pos>)
    requires t.Node? && i <= |Fan(t)|
    requires (i == 0 && best == NegInf) || (best.Fin? && bestMove.Some? && MoveOf(t, bestMove.value))
    ensures MaxScan(t, i, alpha, beta, best, bestMove).0.Fin?
    ensures MaxScan(t, i, alpha, beta, best, bestMove).1.Some?
    ensures MoveOf(t, MaxScan(t, i, alpha, beta, best, bestMove).1.value)
    decreases t, 0, |Fan(t)| - i
  {
    if i < |Fan(t)| {
      var b := Fan(t)[i];
      AlphaBetaFinite(b.child, false, alpha, beta);
      var e := AlphaBetaTree(b.child, false, alpha, beta).0;
      var move' := if Less(best, e) then Some(b.move) else bestMove;
      assert MoveOf(t, move'.value) by {
        if Less(best, e) {
          assert Fan(t)[i].move == move'.value;
        }
      }
      if !LessEq(beta, Max(alpha, e)) {
        MaxScanFinite(t, i + 1, Max(alpha, e), beta, Max(best, e), move');
      }
    }
  }

  lemma {:induction false} MinScanFinite(t: Tree, i: nat, alpha: ExtReal, beta: ExtReal,
                                         best: ExtReal, bestMove: Option<Pos>)
    requires t.Node? && i <= |Fan(t)|
    requires (i == 0 && best == PosInf) || (best.Fin? && bestMove.Some? && MoveOf(t, bestMove.value))
    ensures MinScan(t, i, alpha, beta, best, bestMove).0.Fin?
    ensures MinScan(t, i, alpha, beta, best, bestMove).1.Some?
    ensures MoveOf(t, MinScan(t, i, alpha, beta, best, bestMove).1.value)
    decreases t, 0, |Fan(t)| - i
  {
    if i < |Fan(t)| {
      var b := Fan(t)[i];
      AlphaBetaFinite(b.child, true, alpha, beta);
      var e := AlphaBetaTree(b.child, true, alpha, beta).0;
      var move' := if Less(e, best) then Some(b.move) else bestMove;
      assert MoveOf(t, move'.value) by {
        if Less(e, best) {
          assert Fan(t)[i].move == move'.value;
        }
      }
      if !LessEq(Min(beta, e), alpha) {
        MinScanFinite(t, i + 1, alpha, Min(beta, e), Min(best, e), move');
      }
    }
  }

  /** The minimax value of every tree is finite. */
  lemma MinimaxFinite(t: Tree, maximizing: bool)
    ensures Minimax(t, maximizing).Fin?
  {
    AlphaBetaExact(t, maximizing);
    AlphaBetaFinite(t, maximizing, NegInf, PosInf);
  }

  // ----- The move chosen at the root -----

  /** The index of the first maximal value of a non-empty list: every value
      is at most the one there, and every earlier one is strictly less. */
  function FirstBest(vs: seq<ExtReal>): (k: nat)
    requires |vs| > 0
    ensures k < |vs|
    ensures forall j :: 0 <= j < |vs| ==> LessEq(vs[j], vs[k])
    ensures forall j :: 0 <= j < k ==> Less(vs[j], vs[k])
  {
    if |vs| == 1 then 0
    else
      var k := FirstBest(vs[..|vs| - 1]);
      if Less(vs[k], vs[|vs| - 1]) then |vs| - 1 else k
  }

  /** The minimax values of the children of a node, for the side that
      moves after it. */
  function ChildValues(t: Tree, maximizing: bool): (vs: seq<ExtReal>)
    requires t.Node?
    ensures |vs| == |Fan(t)|
    ensures forall k :: 0 <= k < |vs| ==> vs[k] == Minimax(Fan(t)[k].child, !maximizing)
  {
    seq(|Fan(t)|, k requires 0 <= k < |Fan(t)| => Minimax(Fan(t)[k].child, !maximizing))
  }

  /** At a maximizing node searched with the default window, the search
      returns the first branch of greatest minimax value, and that value. */
  lemma RootChoice(t: Tree)
    requires t.Node?
    ensures var vs := ChildValues(t, true);
      AlphaBetaTree(t, true, NegInf, PosInf) == (vs[FirstBest(vs)], Some(Fan(t)[FirstBest(vs)].move))
  {
    RootScan(t, 0, NegInf, None);
  }

  /** One step of the root scan, in the order of the values: with the
      window's alpha equal to the best so far and beta infinite, the scan
      never prunes and takes a child exactly when its value is larger. */
  lemma RootStep(best: ExtReal, e: ExtReal, m: ExtReal)
    requires best.NegInf? || best.Fin?
    requires e.Fin? && m.Fin? && Clamp(e, best, PosInf) == Clamp(m, best, PosInf)
    ensures Less(best, e) <==> Less(best, m)
    ensures Max(best, e) == if Less(best, m) then m else best
    ensures !LessEq(PosInf, Max(best, e))
  {
  }

  lemma FirstBestStep(vs: seq<ExtReal>, i: nat)
    requires i < |vs|
    ensures FirstBest(vs[..i + 1]) == if i == 0 then 0 else
      var k := FirstBest(vs[..i]); if Less(vs[k], vs[i]) then i else k
  {
    if i > 0 {
      assert vs[..i + 1][..i] == vs[..i];
    }
  }

  lemma {:induction false} RootScan(t: Tree, i: nat, best: ExtReal, bestMove: Option<Pos>)
    requires t.Node? && i <= |Fan(t)|
    requires i == 0 ==> best == NegInf
    requires i > 0 ==> var vs := ChildValues(t, true); var k := FirstBest(vs[..i]);
      best == vs[k] && bestMove == Some(Fan(t)[k].move)
    ensures MaxScan(t, i, best, PosInf, best, bestMove)
         == (ChildValues(t, true)[FirstBest(ChildValues(t, true))],
             Some(Fan(t)[FirstBest(ChildValues(t, true))].move))
    decreases |Fan(t)| - i
  {
    hide ChildValues;
    var vs := ChildValues(t, true);
    if i == |Fan(t)| {
      assert vs[..i] == vs;
    } else {
      hide MaxScan, AlphaBetaTree, Minimax, FirstBest;
      var c := Fan(t)[i].child;
      if i > 0 {
        MinimaxFinite(Fan(t)[FirstBest(vs[..i])].child, false);
      }
      AlphaBetaClamp(c, false, best, PosInf);
      AlphaBetaFinite(c, false, best, PosInf);
      MinimaxFinite(c, false);
      var e := AlphaBetaTree(c, false, best, PosInf).0;
      RootStep(best, e, vs[i]);
      FirstBestStep(vs, i);
      var move' := if Less(best, e) then Some(Fan(t)[i].move) else bestMove;
      MaxScanStep(t, i, best, PosInf, best, bestMove, e);
      RootScan(t, i + 1, Max(best, e), move');
    }
  }

  /** The index of the first least value of a non-empty list: every value
      is at least the one there, and every earlier one is strictly greater. */
  function FirstLeast(vs: seq<ExtReal>): (k: nat)
    requires |vs| > 0
    ensures k < |vs|
    ensures forall j :: 0 <= j < |vs| ==> LessEq(vs[k], vs[j])
    ensures forall j :: 0 <= j < k ==> Less(vs[k], vs[j])
  {
    if |vs| == 1 then 0
    else
      var k := FirstLeast(vs[..|vs| - 1]);
      if Less(vs[|vs| - 1], vs[k]) then |vs| - 1 else k
  }

  /** At a minimizing node searched with the default window, the search
      returns the first branch of least minimax value, and that value. */
  lemma RootChoiceMin(t: Tree)
    requires t.Node?
    ensures var vs := ChildValues(t, false);
      AlphaBetaTree(t, false, NegInf, PosInf) == (vs[FirstLeast(vs)], Some(Fan(t)[FirstLeast(vs)].move))
  {
    RootScanMin(t, 0, PosInf, None);
  }

  /** One step of the minimizing root scan: with alpha infinite and the
      window's beta equal to the best so far, the scan never prunes and
      takes a child exactly when its value is smaller. */
  lemma RootStepMin(best: ExtReal, e: ExtReal, m: ExtReal)
    requires best.PosInf? || best.Fin?
    requires e.Fin? && m.Fin? && Clamp(e, NegInf, best) == Clamp(m, NegInf, best)
    ensures Less(e, best) <==> Less(m, best)
    ensures Min(best, e) == if Less(m, best) then m else best
    ensures !LessEq(Min(best, e), NegInf)
  {
  }

  lemma FirstLeastStep(vs: seq<ExtReal>, i: nat)
    requires i < |vs|
    ensures FirstLeast(vs[..i + 1]) == if i == 0 then 0 else
      var k := FirstLeast(vs[..i]); if Less(vs[i], vs[k]) then i else k
  {
    if i > 0 {
      assert vs[..i + 1][..i] == vs[..i];
    }
  }

  lemma {:induction false} RootScanMin(t: Tree, i: nat, best: ExtReal, bestMove: Option<Pos>)
    requires t.Node? && i <= |Fan(t)|
    requires i == 0 ==> best == PosInf
    requires i > 0 ==> var vs := ChildValues(t, false); var k := FirstLeast(vs[..i]);
      best == vs[k] && bestMove == Some(Fan(t)[k].move)
    ensures MinScan(t, i, NegInf, best, best, bestMove)
         == (ChildValues(t, false)[FirstLeast(ChildValues(t, false))],
             Some(Fan(t)[FirstLeast(ChildValues(t, false))].move))
    decreases |Fan(t)| - i
  {
    hide ChildValues;
    var vs := ChildValues(t, false);
    if i == |Fan(t)| {
      assert vs[..i] == vs;
    } else {
      hide MinScan, AlphaBetaTree, Minimax, FirstLeast;
      var c := Fan(t)[i].child;
      if i > 0 {
        MinimaxFinite(Fan(t)[FirstLeast(vs[..i])].child, true);
      }
      AlphaBetaClamp(c, true, NegInf, best);
      AlphaBetaFinite(c, true, NegInf, best);
      MinimaxFinite(c, true);
      var e := AlphaBetaTree(c, true, NegInf, best).0;
      RootStepMin(best, e, vs[i]);
      FirstLeastStep(vs, i);
      var move' := if Less(e, best) then Some(Fan(t)[i].move) else bestMove;
      MinScanStep(t, i, NegInf, best, best, bestMove, e);
      RootScanMin(t, i + 1, Min(best, e), move');
    }
  }

  // ----- The search on the game object -----

  /** One step of the maximizing scan, in the order the method takes it. */
  lemma MaxScanStep(t: Tree, i: nat, a: ExtReal, b: ExtReal, best: ExtReal, bestMove: Option<Pos>, e: ExtReal)
    requires t.Node? && i < |Fan(t)| && e == AlphaBetaTree(Fan(t)[i].child, false, a, b).0
    ensures var best' := if Less(best, e) then e else best;
            var move' := if Less(best, e) then Some(Fan(t)[i].move) else bestMove;
            MaxScan(t, i, a, b, best, bestMove) ==
            (if LessEq(b, Max(a, e)) then (best', move') else MaxScan(t, i + 1, Max(a, e), b, best', move'))
  {
  }

  /** One step of the minimizing scan. */
  lemma MinScanStep(t: Tree, i: nat, a: ExtReal, b: ExtReal, best: ExtReal, bestMove: Option<Pos>, e: ExtReal)
    requires t.Node? && i < |Fan(t)| && e == AlphaBetaTree(Fan(t)[i].child, true, a, b).0
    ensures var best' := if Less(e, best) then e else best;
            var move' := if Less(e, best) then Some(Fan(t)[i].move) else bestMove;
            MinScan(t, i, a, b, best, bestMove) ==
            (if LessEq(Min(b, e), a) then (best', move') else MinScan(t, i + 1, a, Min(b, e), best', move'))
  {
  }

  /** A new game with the position and the side to move of game, on a fresh
      copy of its board. */
  method CopyGame(game: OthelloGame) returns (copy: OthelloGame)
    requires game.Valid()
    ensures fresh(copy) && fresh(copy.board) && copy.Valid()
    ensures copy.cells == game.cells && copy.currentPlayer == game.currentPlayer
  {
    copy := new OthelloGame();
    var b := game.board;
    copy.board := new int[Size, Size]((i, j) requires 0 <= i < b.Length0 && 0 <= j < b.Length1 reads b => b[i, j]);
    copy.cells := game.cells;
    copy.currentPlayer := game.currentPlayer;
  }

  /** The pruned search of the game, maxDepth plies deep, within the window
      (alpha, beta): the value and move the pruned search of the game tree
      gives, the children searched on copies of the game. The ghost
      parameter t names that game tree, so that callers can relate the
      result to it. */
  method AlphaBeta(game: OthelloGame, maxDepth: nat, maximizingPlayer: bool := true,
                   alpha: ExtReal := NegInf, beta: ExtReal := PosInf, ghost t: Tree)
    returns (value: ExtReal, bestMove: Option<Pos>)
    requires game.Valid() && t == GameTree(game.cells, game.currentPlayer, maxDepth)
    ensures (value, bestMove) == AlphaBetaTree(t, maximizingPlayer, alpha, beta)
    decreases maxDepth, 2
  {
    GameTreeShape(game.cells, game.currentPlayer, maxDepth);
    var over := maxDepth == 0;
    if !over {
      over := game.IsGameOver();
    }
    if over {
      var score := EvaluateGameState(game);
      return Fin(score), None;
    }
    var validMoves := game.GetValidMoves();
    if maximizingPlayer {
      value, bestMove := MaxSearch(game, maxDepth, validMoves, alpha, beta, t);
    } else {
      value, bestMove := MinSearch(game, maxDepth, validMoves, alpha, beta, t);
    }
  }

  /** The maximizing loop of the search: every valid move is tried on a copy
      of the game, alpha rises with each value found, and the loop stops
      once beta <= alpha. */
  method MaxSearch(game: OthelloGame, maxDepth: nat, validMoves: seq<Pos>,
                   alpha: ExtReal, beta: ExtReal, ghost t: Tree)
    returns (value: ExtReal, bestMove: Option<Pos>)
    requires game.Valid() && maxDepth > 0 && !GameOver(game.cells, game.currentPlayer)
    requires validMoves == ValidMoves(game.cells, game.currentPlayer)
    requires t == GameTree(game.cells, game.currentPlayer, maxDepth)
    ensures t.Node? && (value, bestMove) == AlphaBetaTree(t, true, alpha, beta)
    decreases maxDepth, 1
  {
    hide GameTree, Branches, Evaluate, Play, GameOver, ValidMoves;
    GameTreeShape(game.cells, game.currentPlayer, maxDepth);
    var a, b := alpha, beta;
    value, bestMove := NegInf, None;
    var i := 0;
    while i < |validMoves|
      invariant i <= |validMoves| == |Fan(t)|
      invariant MaxScan(t, i, a, b, value, bestMove) == AlphaBetaTree(t, true, alpha, beta)
    {
      var eval := SearchChild(game, maxDepth, validMoves, i, false, a, b, t);
      MaxScanStep(t, i, a, b, value, bestMove, eval);
      if Less(value, eval) {
        value := eval;
        bestMove := Some(validMoves[i]);
      }
      a := Max(a, eval);
      if LessEq(b, a) {
        break;
      }
      i := i + 1;
    }
  }

  /** The minimizing loop of the search: beta falls with each value found,
      and the loop stops once beta <= alpha. */
  method MinSearch(game: OthelloGame, maxDepth: nat, validMoves: seq<Pos>,
                   alpha: ExtReal, beta: ExtReal, ghost t: Tree)
    returns (value: ExtReal, bestMove: Option<Pos>)
    requires game.Valid() && maxDepth > 0 && !GameOver(game.cells, game.currentPlayer)
    requires validMoves == ValidMoves(game.cells, game.currentPlayer)
    requires t == GameTree(game.cells, game.currentPlayer, maxDepth)
    ensures t.Node? && (value, bestMove) == AlphaBetaTree(t, false, alpha, beta)
    decreases maxDepth, 1
  {
    hide GameTree, Branches, Evaluate, Play, GameOver, ValidMoves;
    GameTreeShape(game.cells, game.currentPlayer, maxDepth);
    var a, b := alpha, beta;
    value, bestMove := PosInf, None;
    var i := 0;
    while i < |validMoves|
      invariant i <= |validMoves| == |Fan(t)|
      invariant MinScan(t, i, a, b, value, bestMove) == AlphaBetaTree(t, false, alpha, beta)
    {
      var eval := SearchChild(game, maxDepth, validMoves, i, true, a, b, t);
      MinScanStep(t, i, a, b, value, bestMove, eval);
      if Less(eval, value) {
        value := eval;
        bestMove := Some(validMoves[i]);
      }
      b := Min(b, eval);
      if LessEq(b, a) {
        break;
      }
      i := i + 1;
    }
  }

  /** The value of the i-th valid move: the move is made on a copy of the
      game and the search goes on from there one ply shallower, with the
      window (alpha, beta). */
  method SearchChild(game: OthelloGame, maxDepth: nat, validMoves: seq<Pos>, i: nat,
                     maximizing: bool, alpha: ExtReal, beta: ExtReal, ghost t: Tree)
    returns (eval: ExtReal)
    requires game.Valid() && maxDepth > 0 && !GameOver(game.cells, game.currentPlayer)
    requires validMoves == ValidMoves(game.cells, game.currentPlayer) && i < |validMoves|
    requires t == GameTree(game.cells, game.currentPlayer, maxDepth)
    ensures t.Node? && i < |Fan(t)| && Fan(t)[i].move == validMoves[i]
    ensures eval == AlphaBetaTree(Fan(t)[i].child, maximizing, alpha, beta).0
    decreases maxDepth, 0
  {
    hide GameTree, Branches, Evaluate, Play, GameOver, ValidMoves;
    ghost var g, p := game.cells, game.currentPlayer;
    var move := validMoves[i];
    var newGame := CopyGame(game);
    newGame.MakeMove(move.row, move.col);
    GameTreeBranch(g, p, maxDepth, i);
    var move';
    eval, move' := AlphaBeta(newGame, maxDepth - 1, maximizing, alpha, beta, Fan(t)[i].child);
  }

  /** The move the search player picks, searching maxDepth plies with the
      default window: none at depth 0 or once the game is over, otherwise
      the first legal move, in the order the moves are listed, whose minimax
      value is the greatest. */
  method GetBestMove(game: OthelloGame, maxDepth: nat := 8) returns (bestMove: Option<Pos>)
    requires game.Valid()
    ensures maxDepth == 0 || GameOver(game.cells, game.currentPlayer) ==> bestMove == None
    ensures maxDepth > 0 && !GameOver(game.cells, game.currentPlayer) ==>
      var vs := ChildValues(GameTree(game.cells, game.currentPlayer, maxDepth), true);
      bestMove == Some(ValidMoves(game.cells, game.currentPlayer)[FirstBest(vs)])
  {
    ghost var g, p := game.cells, game.currentPlayer;
    var value, move := AlphaBeta(game, maxDepth, t := GameTree(g, p, maxDepth));
    bestMove := move;
    GameTreeShape(g, p, maxDepth);
    if maxDepth > 0 && !GameOver(g, p) {
      var t := GameTree(g, p, maxDepth);
      RootChoice(t);
      GameTreeBranch(g, p, maxDepth, FirstBest(ChildValues(t, true)));
    }
  }
}
