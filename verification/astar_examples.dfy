/** Two searches worked through: one whose start is its goal, and a line of
    three nodes whose first link has three parallel edges, one of them
    without a weight. */
module AStarExamples {
  import opened Graphs
  import opened Frontier
  import opened AStarSpec
  import opened AStarRun

  /** When the start is the goal, the run is the start's snapshot and the end. */
  lemma {:induction false} StartIsGoal(P: Problem)
    requires ValidGraph(P.graph) && P.start == P.goal && P.start in P.graph
    ensures Run(P) == [Yield(Snapshot(Some(P.start), {P.start}, [P.start])), Stop]
  {
    FirstStep(P);
    RunFromUnfold(P, Initial());
    StepSnapshot(P, Initial());
    RunFromUnfold(P, Step(P, Initial()).1);
  }

  /** Nodes 1 -> 2 -> 3 with the heuristic 0. From 1 to 2 there are three
      parallel edges: one without a weight, one of weight 5, one of weight 3.
      From 2 to 3 there is one edge of weight 1. */
  function Line(): Problem {
    Problem(map[1 := [Arc(2, [None, Some(5), Some(3)])], 2 := [Arc(3, [Some(1)])], 3 := []], 1, 3, (n: Node, g: Node) => 0)
  }

  /** The locals of the search from 1 to 3 after each snapshot, and after
      each neighbour loop. */
  function LineAfter1(): State {
    State([], map[1 := 0], map[], {1}, map[1 := 0], Suspended(1))
  }

  function LineExpanded1(): State {
    State([Entry(3, 2)], map[1 := 0, 2 := 3], map[2 := 1], {1}, map[1 := 0], Suspended(1))
  }

  function LineAfter2(): State {
    State([], map[1 := 0, 2 := 3], map[2 := 1], {1, 2}, map[1 := 0, 2 := 1], Suspended(2))
  }

  function LineExpanded2(): State {
    State([Entry(4, 3)], map[1 := 0, 2 := 3, 3 := 4], map[2 := 1, 3 := 2], {1, 2}, map[1 := 0, 2 := 1], Suspended(2))
  }

  function LineAfter3(): State {
    State([], map[1 := 0, 2 := 3, 3 := 4], map[2 := 1, 3 := 2], {1, 2, 3}, map[1 := 0, 2 := 1, 3 := 2], Suspended(3))
  }

  /** The first resumption yields node 1. */
  lemma LineFirst()
    ensures ValidGraph(Line().graph) && Inv(Line(), Initial())
    ensures Step(Line(), Initial()) == (Yield(Snapshot(Some(1), {1}, [1])), LineAfter1())
  {
    FirstStep(Line());
    assert PopMin([Entry(0, 1)]) == (Entry(0, 1), []);
    assert Back(map[], map[1 := 0], 1) == [];
  }

  lemma LineInv1()
    ensures Inv(Line(), LineAfter1())
  {
    LineFirst();
    StepInv(Line(), Initial());
  }

  /** The neighbour loop of 1 uses the least weight, 3, and ignores the
      edge without a weight. */
  lemma LineExpand1()
    ensures Expand(Line(), LineAfter1(), 1) == LineExpanded1()
  {
    var P, s1 := Line(), LineAfter1();
    var ws: seq<Option<nat>> := [None, Some(5), Some(3)];
    assert ws[1..] == [Some(5), Some(3)] && ws[1..][1..] == [Some(3)] && |ws[1..][1..][1..]| == 0;
    assert EdgeCost([Some(3)]) == Some(3);
    assert EdgeCost([Some(5), Some(3)]) == Some(3);
    assert EdgeCost(ws) == Some(3);
    var arc := Arc(2, ws);
    assert P.graph[1] == [arc];
    assert RelaxArcs(P, s1, 1, 0, 0) == s1;
    assert Expand(P, s1, 1) == Relax(P, s1, 1, 0, arc);
  }

  /** The main loop then finalises 2, reached through 1. */
  lemma LineAdvance2()
    ensures Ranked(LineExpanded1().cameFrom, LineExpanded1().rank, LineExpanded1().visited)
    ensures Advance(Line(), LineExpanded1()) == (Yield(Snapshot(Some(2), {1, 2}, [1, 2])), LineAfter2())
  {
    var P, e1 := Line(), LineExpanded1();
    assert PopMin(e1.open) == (Entry(3, 2), []);
    AdvanceFinalises(P, e1);
    var rk := map[1 := 0, 2 := 1];
    assert e1.rank[2 := |e1.visited|] == rk;
    assert Back(map[2 := 1], rk, 1) == [];
    assert Back(map[2 := 1], rk, 2) == [2];
    assert PathTo(map[2 := 1], rk, 1, 2) == [1, 2];
    assert {1} + {2} == {1, 2};
  }

  /** The second resumption yields node 2 with the path [1, 2]. */
  lemma LineSecond()
    ensures Inv(Line(), LineAfter1())
    ensures Step(Line(), LineAfter1()) == (Yield(Snapshot(Some(2), {1, 2}, [1, 2])), LineAfter2())
  {
    LineInv1();
    LineExpand1();
    LineAdvance2();
    assert Step(Line(), LineAfter1()) == Advance(Line(), Expand(Line(), LineAfter1(), 1));
  }

  lemma LineInv2()
    ensures Inv(Line(), LineAfter2())
  {
    LineSecond();
    StepInv(Line(), LineAfter1());
  }

  /** The neighbour loop of 2 gives 3 the score 3 + 1. */
  lemma LineExpand2()
    ensures Expand(Line(), LineAfter2(), 2) == LineExpanded2()
  {
    var P, s2 := Line(), LineAfter2();
    var ws: seq<Option<nat>> := [Some(1)];
    assert |ws[1..]| == 0;
    assert EdgeCost(ws) == Some(1);
    var arc := Arc(3, ws);
    assert P.graph[2] == [arc];
    assert RelaxArcs(P, s2, 2, 3, 0) == s2;
    assert Expand(P, s2, 2) == Relax(P, s2, 2, 3, arc);
  }

  lemma LineRanked2()
    ensures Ranked(LineExpanded2().cameFrom, LineExpanded2().rank, LineExpanded2().visited)
  {
    var e2 := LineExpanded2();
    assert e2.rank.Keys == {1, 2};
    forall n | n in e2.cameFrom
      ensures e2.cameFrom[n] in e2.rank && (n in e2.rank ==> e2.rank[e2.cameFrom[n]] < e2.rank[n])
    {
      assert n == 2 || n == 3;
    }
  }

  /** The main loop then finalises 3, reached through 2. */
  lemma LineAdvance3()
    ensures Ranked(LineExpanded2().cameFrom, LineExpanded2().rank, LineExpanded2().visited)
    ensures Advance(Line(), LineExpanded2()) == (Yield(Snapshot(Some(3), {1, 2, 3}, [1, 2, 3])), LineAfter3())
  {
    var P, e2 := Line(), LineExpanded2();
    LineRanked2();
    assert PopMin(e2.open) == (Entry(4, 3), []);
    AdvanceFinalises(P, e2);
    var cf, rk := map[2 := 1, 3 := 2], map[1 := 0, 2 := 1, 3 := 2];
    assert e2.visited == {1} + {2} && 2 !in {1};
    assert |e2.visited| == 2;
    assert e2.rank[3 := |e2.visited|] == rk;
    assert Back(cf, rk, 1) == [];
    assert Back(cf, rk, 2) == [2];
    assert Back(cf, rk, 3) == [2, 3];
    assert PathTo(cf, rk, 1, 3) == [1, 2, 3];
    assert {1, 2} + {3} == {1, 2, 3};
  }

  /** The third resumption yields node 3 with the path [1, 2, 3]. */
  lemma LineThird()
    ensures Inv(Line(), LineAfter2())
    ensures Step(Line(), LineAfter2()) == (Yield(Snapshot(Some(3), {1, 2, 3}, [1, 2, 3])), LineAfter3())
  {
    LineInv2();
    LineExpand2();
    LineAdvance3();
    assert Step(Line(), LineAfter2()) == Advance(Line(), Expand(Line(), LineAfter2(), 2));
  }

  lemma LineTail3()
    ensures Inv(Line(), LineAfter3()) && RunFrom(Line(), LineAfter3()) == [Stop]
  {
    LineThird();
    StepInv(Line(), LineAfter2());
    RunFromUnfold(Line(), LineAfter3());
  }

  lemma LineTail2()
    ensures Inv(Line(), LineAfter2())
    ensures RunFrom(Line(), LineAfter2()) == [Yield(Snapshot(Some(3), {1, 2, 3}, [1, 2, 3])), Stop]
  {
    LineThird();
    LineTail3();
    RunFromUnfold(Line(), LineAfter2());
  }

  /** The run from the first suspension: 2, 3 and the end. */
  lemma LineTail1()
    ensures Inv(Line(), LineAfter1())
    ensures RunFrom(Line(), LineAfter1()) ==
      [Yield(Snapshot(Some(2), {1, 2}, [1, 2])), Yield(Snapshot(Some(3), {1, 2, 3}, [1, 2, 3])), Stop]
  {
    LineSecond();
    LineTail2();
    RunFromUnfold(Line(), LineAfter1());
  }

  /** The run starts with node 1 and continues from the first suspension. */
  lemma LineHead()
    ensures Inv(Line(), Initial()) && Inv(Line(), LineAfter1())
    ensures RunFrom(Line(), Initial()) == [Yield(Snapshot(Some(1), {1}, [1]))] + RunFrom(Line(), LineAfter1())
  {
    LineFirst();
    LineInv1();
    RunFromUnfold(Line(), Initial());
  }

  /** The run finalises 1, 2 and 3 in that order and stops after the goal. */
  lemma LineRun()
    ensures ValidGraph(Line().graph)
    ensures Run(Line()) == [
      Yield(Snapshot(Some(1), {1}, [1])),
      Yield(Snapshot(Some(2), {1, 2}, [1, 2])),
      Yield(Snapshot(Some(3), {1, 2, 3}, [1, 2, 3])),
      Stop]
  {
    LineFirst();
    LineHead();
    LineTail1();
  }
}
