/** The whole sequence of events a search generator produces, from its
    creation until it is exhausted, and what holds of every such sequence. */
module AStarRun {
  import opened Graphs
  import opened AStarSpec

  /** The events of the generator resumed again and again from `st` until it
      stops or raises. */
  function RunFrom(P: Problem, st: State): (r: seq<Event>)
    requires Inv(P, st)
    ensures 1 <= |r| <= Progress(P, st) + 1
    decreases Progress(P, st)
  {
    StepProgress(P, st);
    var (ev, st') := Step(P, st);
    if ev.Yield? then [ev] + RunFrom(P, st') else [ev]
  }

  /** A resumption keeps the invariant, and one that yields brings the
      generator closer to its end. */
  lemma {:induction false} StepProgress(P: Problem, st: State)
    requires Inv(P, st)
    ensures Inv(P, Step(P, st).1)
    ensures Step(P, st).0.Yield? ==> Progress(P, Step(P, st).1) < Progress(P, st)
  {
    StepInv(P, st);
    StepSnapshot(P, st);
  }

  /** The events of a fresh generator for `P`. */
  function Run(P: Problem): (r: seq<Event>)
    requires ValidGraph(P.graph)
    ensures 1 <= |r| <= |P.graph.Keys| + 2
  {
    FirstStep(P);
    RunFrom(P, Initial())
  }

  /** One more resumption: the run from `st` is the event of the next step
      followed, after a snapshot, by the run from the state it leaves. */
  lemma {:induction false} RunFromUnfold(P: Problem, st: State)
    requires Inv(P, st)
    ensures var (ev, st') := Step(P, st);
      && Inv(P, st')
      && (ev.Yield? ==> RunFrom(P, st) == [ev] + RunFrom(P, st') && Progress(P, st') < Progress(P, st))
      && (!ev.Yield? ==> RunFrom(P, st) == [ev])
  {
    StepInv(P, st);
    StepSnapshot(P, st);
  }

  // ---------------------------------------------------------------------------
  // Shape of a run

  /** Snapshots, then exactly one closing event that is not a snapshot. */
  ghost predicate WellShaped(evs: seq<Event>) {
    && |evs| >= 1
    && !evs[|evs| - 1].Yield?
    && forall i | 0 <= i < |evs| - 1 :: evs[i].Yield?
  }

  /** A run consists of snapshots closed by the end of the sequence or the
      error. */
  lemma {:induction false} RunFromShape(P: Problem, st: State)
    requires Inv(P, st)
    ensures WellShaped(RunFrom(P, st))
    decreases Progress(P, st)
  {
    RunFromUnfold(P, st);
    var (ev, st') := Step(P, st);
    if ev.Yield? {
      RunFromShape(P, st');
      var evs, rest := RunFrom(P, st), RunFrom(P, st');
      forall i | 0 <= i < |evs| - 1 ensures evs[i].Yield? {
        if i > 0 {
          assert evs[i] == rest[i - 1];
        }
      }
    }
  }

  /** The number of snapshots of `evs` that finalise a node. */
  function Finalised(evs: seq<Event>): nat {
    if evs == [] then 0
    else (if evs[0].Yield? && evs[0].snapshot.current.Some? then 1 else 0) + Finalised(evs[1..])
  }

  lemma {:induction false} FinalisedCons(ev: Event, rest: seq<Event>)
    ensures Finalised([ev] + rest) == (if ev.Yield? && ev.snapshot.current.Some? then 1 else 0) + Finalised(rest)
  {
    assert ([ev] + rest)[1..] == rest;
  }

  /** A run finalises at most the nodes of the graph not finalised yet. */
  lemma {:induction false} RunFromFinalised(P: Problem, st: State)
    requires Inv(P, st)
    ensures Finalised(RunFrom(P, st)) <= |P.graph.Keys - st.visited|
    decreases Progress(P, st)
  {
    RunFromUnfold(P, st);
    StepSnapshot(P, st);
    var (ev, st') := Step(P, st);
    if ev.Yield? {
      RunFromFinalised(P, st');
      FinalisedCons(ev, RunFrom(P, st'));
      match ev.snapshot.current
      case Some(c) => CardRemove(P.graph.Keys, st.visited, c);
      case None =>
    } else {
      FinalisedCons(ev, []);
      assert [ev] + [] == [ev];
    }
  }

  /** The snapshot `snap` extends the visited set `before`: by its node when it
      has one (a node not in `before`), by nothing in the failure snapshot. */
  ghost predicate Extends(before: set<Node>, snap: Snapshot) {
    match snap.current
    case Some(c) => c !in before && snap.visited == before + {c}
    case None => snap.visited == before
  }

  /** The visited set reported before the `i`-th event: `V0` at the start. */
  function Prior(V0: set<Node>, evs: seq<Event>, i: nat): set<Node>
    requires i < |evs|
  {
    if i == 0 || !evs[i - 1].Yield? then V0 else evs[i - 1].snapshot.visited
  }

  /** Each snapshot of `evs` reports the visited set of the one before it
      (`V0` for the first) extended by its own node. */
  ghost predicate VisitedGrows(V0: set<Node>, evs: seq<Event>) {
    forall i {:trigger Prior(V0, evs, i)} | 0 <= i < |evs| && evs[i].Yield? :: Extends(Prior(V0, evs, i), evs[i].snapshot)
  }

  /** Every snapshot of a run adds its own node, not reported before, to the
      visited set it reports. */
  lemma {:induction false} RunFromVisited(P: Problem, st: State)
    requires Inv(P, st)
    ensures VisitedGrows(st.visited, RunFrom(P, st))
    decreases Progress(P, st)
  {
    RunFromUnfold(P, st);
    StepSnapshot(P, st);
    var (ev, st') := Step(P, st);
    if ev.Yield? {
      RunFromVisited(P, st');
      RunFromShape(P, st');
      GrowsCons(st.visited, ev, RunFrom(P, st'));
    }
  }

  /** A snapshot extending `V0` followed by snapshots growing from its own
      visited set. */
  lemma {:induction false} GrowsCons(V0: set<Node>, ev: Event, rest: seq<Event>)
    requires ev.Yield? && Extends(V0, ev.snapshot)
    requires WellShaped(rest) && VisitedGrows(ev.snapshot.visited, rest)
    ensures VisitedGrows(V0, [ev] + rest)
  {
    var evs := [ev] + rest;
    forall i | 0 <= i < |evs| && evs[i].Yield?
      ensures Extends(Prior(V0, evs, i), evs[i].snapshot)
    {
      if i > 0 {
        assert evs[i] == rest[i - 1];
        if i > 1 {
          assert evs[i - 1] == rest[i - 2];
        }
        assert Prior(V0, evs, i) == Prior(ev.snapshot.visited, rest, i - 1);
      }
    }
  }

  /** The path of a snapshot with a node: it starts at the start, ends at the
      node, visits only nodes reported visited, and each of its consecutive
      pairs is joined by an edge with a weight. */
  ghost predicate PathOk(P: Problem, snap: Snapshot) {
    snap.current.Some? ==>
      && |snap.path| >= 1
      && snap.path[0] == P.start
      && snap.path[|snap.path| - 1] == snap.current.value
      && snap.current.value in P.graph
      && (forall x | x in snap.path :: x in snap.visited)
      && RouteCost(P.graph, snap.path).Some?
  }

  /** Every snapshot of `evs` satisfies `PathOk`. */
  ghost predicate PathsOk(P: Problem, evs: seq<Event>) {
    forall i | 0 <= i < |evs| && evs[i].Yield? :: PathOk(P, evs[i].snapshot)
  }

  /** Every snapshot of a run carries a route of the graph from the start to
      its node. */
  lemma {:induction false} RunFromPaths(P: Problem, st: State)
    requires Inv(P, st)
    ensures PathsOk(P, RunFrom(P, st))
    decreases Progress(P, st)
  {
    RunFromUnfold(P, st);
    StepSnapshot(P, st);
    var (ev, st') := Step(P, st);
    if ev.Yield? {
      RunFromPaths(P, st');
      PathsCons(P, ev, RunFrom(P, st'));
    }
  }

  lemma {:induction false} PathsCons(P: Problem, ev: Event, rest: seq<Event>)
    requires ev.Yield? && PathOk(P, ev.snapshot) && PathsOk(P, rest)
    ensures PathsOk(P, [ev] + rest)
  {
    var evs := [ev] + rest;
    forall i | 0 <= i < |evs| && evs[i].Yield? ensures PathOk(P, evs[i].snapshot) {
      if i > 0 {
        assert evs[i] == rest[i - 1];
      }
    }
  }

  /** How a run from a suspended or finished generator ends: with the end of the
      sequence, right after the failure snapshot or the snapshot of `goal`;
      every earlier snapshot is that of a node other than `goal`. */
  ghost predicate EndsAtGoalOrFailure(goal: Node, evs: seq<Event>)
    requires WellShaped(evs)
  {
    && evs[|evs| - 1] == Stop
    && (|evs| >= 2 ==> evs[|evs| - 2].snapshot.current in {None, Some(goal)})
    && forall i | 0 <= i < |evs| - 2 :: evs[i].snapshot.current.Some? && evs[i].snapshot.current != Some(goal)
  }

  /** After a snapshot the generator yields again exactly when that snapshot
      was of a node other than the goal. */
  lemma {:induction false} YieldsAgain(P: Problem, st: State)
    requires Inv(P, st)
    ensures var (ev, st') := Step(P, st);
      ev.Yield? ==>
        && Inv(P, st') && !st'.phase.Fresh?
        && (Step(P, st').0.Yield? <==> ev.snapshot.current.Some? && ev.snapshot.current != Some(P.goal))
  {
    StepInv(P, st);
    StepSnapshot(P, st);
    var (ev, st') := Step(P, st);
    if ev.Yield? {
      StepEvents(P, st');
    }
  }

  /** A run from a suspended or finished generator ends with the end of the
      sequence, right after the failure snapshot or the goal's snapshot. */
  lemma {:induction false} RunFromEnds(P: Problem, st: State)
    requires Inv(P, st) && !st.phase.Fresh?
    ensures WellShaped(RunFrom(P, st))
    ensures EndsAtGoalOrFailure(P.goal, RunFrom(P, st))
    decreases Progress(P, st)
  {
    RunFromShape(P, st);
    RunFromUnfold(P, st);
    StepEvents(P, st);
    var (ev, st') := Step(P, st);
    if ev.Yield? {
      YieldsAgain(P, st);
      RunFromEnds(P, st');
      RunFromUnfold(P, st');
      EndsCons(P.goal, ev, RunFrom(P, st'));
    }
  }

  /** A snapshot followed by a run that ends as described, which starts with a
      snapshot exactly when the first one's node is not the goal. */
  lemma {:induction false} EndsCons(goal: Node, ev: Event, rest: seq<Event>)
    requires ev.Yield? && WellShaped(rest) && EndsAtGoalOrFailure(goal, rest)
    requires rest[0].Yield? <==> ev.snapshot.current.Some? && ev.snapshot.current != Some(goal)
    ensures WellShaped([ev] + rest) && EndsAtGoalOrFailure(goal, [ev] + rest)
  {
    var evs := [ev] + rest;
    assert evs[|evs| - 1] == rest[|rest| - 1];
    forall i | 0 <= i < |evs| - 1 ensures evs[i].Yield? {
      if i > 0 {
        assert evs[i] == rest[i - 1];
      }
    }
    if |rest| >= 2 {
      assert evs[|evs| - 2] == rest[|rest| - 2];
    }
    forall i | 0 <= i < |evs| - 2
      ensures evs[i].snapshot.current.Some? && evs[i].snapshot.current != Some(goal)
    {
      if i > 0 {
        assert evs[i] == rest[i - 1];
      }
    }
  }

  // ---------------------------------------------------------------------------
  // The run of a fresh generator

  /** The first event is the snapshot of the start alone with the path
      `[start]`, or the error when an endpoint is not a node of the graph; the
      error is then the only event. */
  lemma {:induction false} RunStarts(P: Problem)
    requires ValidGraph(P.graph)
    ensures |Run(P)| >= 1
    ensures Run(P)[0] ==
      if P.start in P.graph && P.goal in P.graph
      then Yield(Snapshot(Some(P.start), {P.start}, [P.start]))
      else NodeNotFound
    ensures Run(P) == [NodeNotFound] <==> P.start !in P.graph || P.goal !in P.graph
  {
    FirstStep(P);
    RunFromUnfold(P, Initial());
  }

  /** A run is snapshots followed by one closing event and has at most
      `|nodes| + 2` events (at most one snapshot per node, the failure snapshot
      and the close), of which at most `|nodes|` finalise a node. When both endpoints are nodes it closes with the end of
      the sequence right after the goal's snapshot or the failure snapshot,
      and no earlier snapshot is the goal's. */
  lemma {:induction false} RunEnds(P: Problem)
    requires ValidGraph(P.graph)
    ensures WellShaped(Run(P))
    ensures |Run(P)| <= |P.graph.Keys| + 2
    ensures Finalised(Run(P)) <= |P.graph.Keys|
    ensures P.start in P.graph && P.goal in P.graph ==> EndsAtGoalOrFailure(P.goal, Run(P))
  {
    FirstStep(P);
    RunFromShape(P, Initial());
    RunFromFinalised(P, Initial());
    assert P.graph.Keys - Initial().visited == P.graph.Keys;
    if P.start in P.graph && P.goal in P.graph {
      RunFromUnfold(P, Initial());
      YieldsAgain(P, Initial());
      var (ev, st') := Step(P, Initial());
      RunFromEnds(P, st');
      RunFromUnfold(P, st');
      EndsCons(P.goal, ev, RunFrom(P, st'));
    }
  }

  /** Each snapshot of a run reports as visited the nodes of all snapshots so
      far, its own node being new, and carries a route from the start to its
      node through visited nodes. */
  lemma {:induction false} RunSnapshots(P: Problem)
    requires ValidGraph(P.graph)
    ensures VisitedGrows({}, Run(P))
    ensures PathsOk(P, Run(P))
  {
    FirstStep(P);
    RunFromVisited(P, Initial());
    RunFromPaths(P, Initial());
  }

  /** The visited sets reported by the snapshots of a run only grow. */
  lemma {:induction false} GrowsMonotone(V0: set<Node>, evs: seq<Event>, i: nat, j: nat)
    requires WellShaped(evs) && VisitedGrows(V0, evs)
    requires i <= j < |evs| - 1
    ensures evs[i].snapshot.visited <= evs[j].snapshot.visited
    decreases j
  {
    if i < j {
      GrowsMonotone(V0, evs, i, j - 1);
      assert Prior(V0, evs, j) == evs[j - 1].snapshot.visited;
    }
  }

  /** No node is finalised twice: the snapshots of a run are of distinct nodes. */
  lemma {:induction false} RunDistinct(P: Problem, i: nat, j: nat)
    requires ValidGraph(P.graph)
    requires i < j < |Run(P)| && Run(P)[i].Yield? && Run(P)[j].Yield?
    requires Run(P)[i].snapshot.current.Some?
    ensures Run(P)[j].snapshot.current != Run(P)[i].snapshot.current
  {
    var evs := Run(P);
    RunSnapshots(P);
    RunEnds(P);
    GrowsMonotone({}, evs, i, j - 1);
    assert Prior({}, evs, j) == evs[j - 1].snapshot.visited;
    assert Extends(Prior({}, evs, i), evs[i].snapshot);
  }
}
