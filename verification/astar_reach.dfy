/** When the frontier runs out, the generator has finalised exactly the nodes
    reachable from the start along edges that carry a weight: its failure
    snapshot reports the whole reachable component and nothing else. */
module AStarReach {
  import opened Graphs
  import opened Frontier
  import opened AStarSpec
  import opened AStarRun

  /** `path` is a walk of `g` from `s` to `n` along edges that have a weight. */
  ghost predicate Walk(g: Graph, path: seq<Node>, s: Node, n: Node) {
    && |path| >= 1 && path[0] == s && path[|path| - 1] == n
    && RouteCost(g, path).Some?
  }

  /** No edge with a weight leaves `S`. */
  ghost predicate Closed(g: Graph, S: set<Node>) {
    forall v, t | v in S && v in g && ArcCost(g[v], t).Some? :: t in S
  }

  /** `S` holds `s`, no weighted edge leaves it, and each of its nodes is
      reached from `s` by a walk. */
  ghost predicate Component(g: Graph, s: Node, S: set<Node>) {
    && s in S
    && Closed(g, S)
    && forall v | v in S :: exists path :: Walk(g, path, s, v)
  }

  /** A walk from a node of a closed set stays in it. */
  lemma {:induction false} WalkInClosed(g: Graph, S: set<Node>, path: seq<Node>, s: Node, n: Node)
    requires Closed(g, S) && s in S && Walk(g, path, s, n)
    ensures n in S
    decreases |path|
  {
    if |path| > 1 {
      var prefix, u := path[..|path| - 1], path[|path| - 2];
      assert Walk(g, prefix, s, u);
      WalkInClosed(g, S, prefix, s, u);
    }
  }

  /** A component of `s` is exactly the set of nodes reachable from `s`. */
  lemma {:induction false} ComponentIsReachable(g: Graph, s: Node, S: set<Node>)
    requires Component(g, s, S)
    ensures forall v :: v in S <==> exists path :: Walk(g, path, s, v)
  {
    forall v, path | Walk(g, path, s, v) ensures v in S {
      WalkInClosed(g, S, path, s, v);
    }
  }

  // ---------------------------------------------------------------------------
  // The frontier invariant

  /** Every successor of `v` along a weighted edge is finalised or has a score. */
  ghost predicate Expanded(g: Graph, visited: set<Node>, gScore: map<Node, nat>, v: Node) {
    v in g ==> forall t | ArcCost(g[v], t).Some? :: t in visited || t in gScore
  }

  /** Every scored node not yet finalised has an entry in the frontier. */
  ghost predicate Queued(open: seq<Entry>, gScore: map<Node, nat>, visited: set<Node>) {
    forall t | t in gScore && t !in visited :: exists e | e in open :: e.node == t
  }

  /** Scored nodes are queued and every finalised node outside `pending` has
      had its neighbour loop run. */
  ghost predicate Settled(P: Problem, st: State, pending: set<Node>) {
    && Queued(st.open, st.gScore, st.visited)
    && forall v | v in st.visited && v !in pending :: Expanded(P.graph, st.visited, st.gScore, v)
  }

  /** At a suspension point, only the node just yielded has not been expanded. */
  ghost predicate SettledAt(P: Problem, st: State) {
    match st.phase
    case Suspended(c) => Settled(P, st, {c})
    case _ => true
  }

  /** Popping keeps queued every scored node other than the popped one. */
  lemma {:induction false} QueuedPop(open: seq<Entry>, gScore: map<Node, nat>, visited: set<Node>)
    requires open != [] && Queued(open, gScore, visited)
    ensures Queued(PopMin(open).1, gScore, visited + {PopMin(open).0.node})
  {
    var (e, rest) := PopMin(open);
    forall t | t in gScore && t !in visited + {e.node} ensures exists x | x in rest :: x.node == t {
      var x :| x in open && x.node == t;
      assert x in multiset(open);
      assert x in multiset(rest);
    }
  }

  /** The main loop, started with every finalised node expanded, either
      suspends with only the new node unexpanded, or runs out of frontier with
      no weighted edge leaving the visited set. */
  lemma {:induction false} AdvanceSettled(P: Problem, st: State)
    requires Ranked(st.cameFrom, st.rank, st.visited) && Settled(P, st, {})
    ensures var st' := Advance(P, st).1;
      && SettledAt(P, st')
      && (st'.phase == Finished ==> Closed(P.graph, st.visited))
    decreases |st.open|
  {
    if st.open == [] {
      forall v, t | v in st.visited && v in P.graph && ArcCost(P.graph[v], t).Some? ensures t in st.visited {
        assert Expanded(P.graph, st.visited, st.gScore, v);
      }
    } else {
      var (e, rest) := PopMin(st.open);
      QueuedPop(st.open, st.gScore, st.visited);
      if e.node in st.visited {
        var st1 := st.(open := rest);
        assert st.visited + {e.node} == st.visited;
        assert Settled(P, st1, {});
        AdvanceSettled(P, st1);
        assert Advance(P, st) == Advance(P, st1);
      } else {
        AdvanceFinalises(P, st);
        var st' := Advance(P, st).1;
        forall v | v in st'.visited && v !in {e.node}
          ensures Expanded(P.graph, st'.visited, st'.gScore, v)
        {
          assert Expanded(P.graph, st.visited, st.gScore, v);
        }
      }
    }
  }

  /** The neighbour loop of the node just yielded completes the invariant. */
  lemma {:induction false} ExpandSettled(P: Problem, st: State, c: Node)
    requires ValidGraph(P.graph) && c in P.graph && c in st.gScore
    requires Settled(P, st, {c})
    ensures Settled(P, Expand(P, st, c), {})
  {
    var r, gc, arcs := Expand(P, st, c), st.gScore[c], P.graph[c];
    ExpandEffect(P, st, c);
    forall n | n in st.gScore ensures n in r.gScore {
      if !Improves(P, st, c, gc, n) {
        assert Untouched(st, r, n);
      }
    }
    forall t | t in r.gScore && t !in r.visited ensures exists x | x in r.open :: x.node == t {
      if Improves(P, st, c, gc, t) {
        ArcCostFound(arcs, t);
        var i :| 0 <= i < |arcs| && arcs[i].target == t;
        assert t in Targets(arcs);
        var j :| |st.open| <= j < |r.open| && r.open[j].node == t;
        assert r.open[j] in r.open;
      } else {
        assert Untouched(st, r, t);
        var x :| x in st.open && x.node == t;
        var k :| 0 <= k < |st.open| && st.open[k] == x;
        assert r.open[..|st.open|][k] == x;
      }
    }
    forall v | v in r.visited ensures Expanded(P.graph, r.visited, r.gScore, v) {
      if v != c {
        assert Expanded(P.graph, st.visited, st.gScore, v);
      } else {
        forall t | ArcCost(arcs, t).Some? ensures t in r.visited || t in r.gScore {
          if !Improves(P, st, c, gc, t) {
            assert t in st.visited || t in st.gScore;
          }
        }
      }
    }
  }

  /** Every finalised node is reached from the start by the path rebuilt for it. */
  lemma {:induction false} VisitedReached(P: Problem, st: State)
    requires Core(P, st)
    ensures forall v | v in st.visited :: exists path :: Walk(P.graph, path, P.start, v)
  {
    forall v | v in st.visited ensures exists path :: Walk(P.graph, path, P.start, v) {
      PathToChain(P, st, v);
      PathToCost(P, st, v);
      assert Walk(P.graph, PathTo(st.cameFrom, st.rank, P.start, v), P.start, v);
    }
  }

  /** The main loop started after `c`'s neighbour loop: its failure snapshot
      reports a component of the start. */
  lemma {:induction false} ResumedSettled(P: Problem, st: State, c: Node)
    requires ValidGraph(P.graph) && Core(P, st) && c in st.visited && Settled(P, st, {c})
    ensures c in P.graph && c in st.gScore && Core(P, Expand(P, st, c))
    ensures var (ev, st') := Advance(P, Expand(P, st, c));
      && SettledAt(P, st')
      && (ev.Yield? && ev.snapshot.current.None? ==> Component(P.graph, P.start, ev.snapshot.visited))
  {
    VisitedScored(P, st, c);
    ExpandCore(P, st, c);
    var ex := Expand(P, st, c);
    ExpandSettled(P, st, c);
    AdvanceSettled(P, ex);
    AdvanceYields(P, ex);
    VisitedReached(P, ex);
  }

  /** Every resumption keeps the frontier invariant, and a failure snapshot
      reports a component of the start. */
  lemma {:induction false} StepSettled(P: Problem, st: State)
    requires Inv(P, st) && SettledAt(P, st)
    ensures var (ev, st') := Step(P, st);
      && SettledAt(P, st')
      && (ev.Yield? && ev.snapshot.current.None? ==> Component(P.graph, P.start, ev.snapshot.visited))
  {
    match st.phase
    case Finished =>
    case Fresh =>
      if P.start in P.graph && P.goal in P.graph {
        var s0 := Seeded(P);
        assert Entry(0, P.start) in s0.open;
        assert Settled(P, s0, {});
        AdvanceSettled(P, s0);
        FirstStep(P);
        assert Step(P, st) == Advance(P, s0);
      }
    case Suspended(c) =>
      if c != P.goal {
        ResumedSettled(P, st, c);
        assert Step(P, st) == Advance(P, Expand(P, st, c));
      }
  }

  // ---------------------------------------------------------------------------
  // Runs

  /** Every failure snapshot of `evs` reports a component of the start. */
  ghost predicate ExhaustedOk(P: Problem, evs: seq<Event>) {
    forall i | 0 <= i < |evs| && evs[i].Yield? && evs[i].snapshot.current.None? ::
      Component(P.graph, P.start, evs[i].snapshot.visited)
  }

  lemma {:induction false} ExhaustedCons(P: Problem, ev: Event, rest: seq<Event>)
    requires ev.Yield? && (ev.snapshot.current.None? ==> Component(P.graph, P.start, ev.snapshot.visited))
    requires ExhaustedOk(P, rest)
    ensures ExhaustedOk(P, [ev] + rest)
  {
    var evs := [ev] + rest;
    forall i | 0 <= i < |evs| && evs[i].Yield? && evs[i].snapshot.current.None?
      ensures Component(P.graph, P.start, evs[i].snapshot.visited)
    {
      if i > 0 {
        assert evs[i] == rest[i - 1];
      }
    }
  }

  /** Every failure snapshot of a run from `st` reports a component of the start. */
  lemma {:induction false} RunFromExhausted(P: Problem, st: State)
    requires Inv(P, st) && SettledAt(P, st)
    ensures ExhaustedOk(P, RunFrom(P, st))
    decreases Progress(P, st)
  {
    RunFromUnfold(P, st);
    StepSettled(P, st);
    var (ev, st') := Step(P, st);
    if ev.Yield? {
      RunFromExhausted(P, st');
      ExhaustedCons(P, ev, RunFrom(P, st'));
    }
  }

  /** The failure snapshot of a fresh run reports as visited exactly the nodes
      reachable from the start along edges that carry a weight. */
  lemma {:induction false} RunExhausted(P: Problem, i: nat)
    requires ValidGraph(P.graph)
    requires i < |Run(P)| && Run(P)[i].Yield? && Run(P)[i].snapshot.current.None?
    ensures forall v :: v in Run(P)[i].snapshot.visited <==> exists path :: Walk(P.graph, path, P.start, v)
  {
    FirstStep(P);
    RunFromExhausted(P, Initial());
    ComponentIsReachable(P.graph, P.start, Run(P)[i].snapshot.visited);
  }
}
