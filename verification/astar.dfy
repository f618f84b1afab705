/** The search generator of `AStar.search_generator` as an object whose fields
    are the generator's locals, updated in place by each resumption. */
module AStar {
  import opened Graphs
  import opened Frontier
  import opened AStarSpec

  /** `s` backwards. */
  function Reversed(s: seq<Node>): (r: seq<Node>)
    ensures |r| == |s|
    ensures forall i | 0 <= i < |s| :: r[i] == s[|s| - 1 - i]
  {
    if s == [] then [] else [s[|s| - 1]] + Reversed(s[..|s| - 1])
  }

  /** Walk back along `cameFrom` from `current` collecting nodes, add the
      start, and reverse: the path from the start to `current`. */
  method ReconstructPath(cameFrom: map<Node, Node>, start: Node, current: Node, ghost rank: map<Node, nat>)
    returns (path: seq<Node>)
    requires Descending(cameFrom, rank) && current in rank
    ensures path == PathTo(cameFrom, rank, start, current)
  {
    var collected: seq<Node> := [];
    var temp := current;
    while temp in cameFrom
      invariant temp in rank
      invariant Back(cameFrom, rank, current) == Back(cameFrom, rank, temp) + Reversed(collected)
      decreases rank[temp]
    {
      assert Reversed(collected + [temp]) == [temp] + Reversed(collected) by {
        assert (collected + [temp])[..|collected|] == collected;
      }
      collected := collected + [temp];
      temp := cameFrom[temp];
    }
    assert (collected + [start])[..|collected|] == collected;
    path := Reversed(collected + [start]);
  }

  /** A running search generator. */
  class Search {
    const graph: Graph
    const start: Node
    const goal: Node
    const heuristic: (Node, Node) -> nat

    var openSet: seq<Entry>
    var cameFrom: map<Node, Node>
    var gScore: map<Node, nat>
    var visited: set<Node>
    var phase: Phase
    /** The order in which nodes were finalised (bookkeeping for the proofs). */
    ghost var rank: map<Node, nat>

    /** The search this generator runs. */
    ghost function Instance(): Problem {
      Problem(graph, start, goal, heuristic)
    }

    /** The generator's locals as a value. */
    ghost function Abs(): State
      reads this
    {
      State(openSet, gScore, cameFrom, visited, rank, phase)
    }

    ghost predicate Valid()
      reads this
    {
      Inv(Instance(), Abs())
    }

    /** Calling `search_generator(start, goal)`: nothing runs until the first
        resumption. */
    constructor (graph: Graph, start: Node, goal: Node, heuristic: (Node, Node) -> nat)
      requires ValidGraph(graph)
      ensures Valid()
      ensures Instance() == Problem(graph, start, goal, heuristic)
      ensures Abs() == Initial()
    {
      this.graph, this.start, this.goal, this.heuristic := graph, start, goal, heuristic;
      openSet, cameFrom, gScore, visited, phase := [], map[], map[], {}, Fresh;
      rank := map[];
    }

    /** One resumption (`next`) of the generator. */
    method Next() returns (ev: Event)
      requires Valid()
      modifies this
      ensures Valid()
      ensures (ev, Abs()) == Step(Instance(), old(Abs()))
    {
      StepInv(Instance(), Abs());
      match phase
      case Finished =>
        ev := Stop;
      case Fresh =>
        openSet := [Entry(0, start)];
        cameFrom := map[];
        gScore := map[start := 0];
        visited := {};
        if start !in graph || goal !in graph {
          phase := Finished;
          ev := NodeNotFound;
        } else {
          assert Core(Instance(), Abs());
          ev := Advance();
        }
      case Suspended(c) =>
        if c == goal {
          phase := Finished;
          ev := Stop;
        } else {
          VisitedScored(Instance(), Abs(), c);
          ExpandCore(Instance(), Abs(), c);
          Expand(c);
          ev := Advance();
        }
    }

    /** The `while open_set` loop, up to the next snapshot. */
    method Advance() returns (ev: Event)
      requires Ranked(cameFrom, rank, visited)
      modifies this
      ensures (ev, Abs()) == AStarSpec.Advance(Instance(), old(Abs()))
    {
      var open := openSet;
      ghost var result := AStarSpec.Advance(Instance(), State(open, gScore, cameFrom, visited, rank, phase));
      while open != []
        invariant Ranked(cameFrom, rank, visited)
        invariant AStarSpec.Advance(Instance(), State(open, gScore, cameFrom, visited, rank, phase)) == result
        decreases |open|
      {
        ghost var before := open;
        var (e, rest) := PopMin(open);
        open := rest;
        if e.node in visited {
          continue;
        }
        ghost var st := State(before, gScore, cameFrom, visited, rank, phase);
        AdvanceFinalises(Instance(), st);
        var visited' := visited + {e.node};
        ghost var rank' := rank[e.node := |visited|];
        var path := ReconstructPath(cameFrom, start, e.node, rank');
        ev := Yield(Snapshot(Some(e.node), visited', path));
        assert ev == result.0;
        openSet, visited, phase := open, visited', Suspended(e.node);
        rank := rank';
        assert Abs() == result.1;
        return;
      }
      openSet, phase := [], Finished;
      ev := Yield(Snapshot(None, visited, []));
    }

    /** The neighbour loop of the finalised node `c`. */
    method Expand(c: Node)
      requires ValidGraph(graph) && c in graph && c in gScore && c in visited
      modifies this
      ensures Abs() == AStarSpec.Expand(Instance(), old(Abs()), c)
    {
      ghost var gc := gScore[c];
      var arcs := graph[c];
      for i := 0 to |arcs|
        invariant c in gScore && gScore[c] == gc && visited == old(visited)
        invariant Abs() == RelaxArcs(Instance(), old(Abs()), c, gc, i)
      {
        var neighbor := arcs[i].target;
        if neighbor in visited {
          continue;
        }
        var minWeight := EdgeCost(arcs[i].weights);
        if minWeight.None? {
          continue;
        }
        var tentative := gScore[c] + minWeight.value;
        if neighbor !in gScore || tentative < gScore[neighbor] {
          cameFrom := cameFrom[neighbor := c];
          gScore := gScore[neighbor := tentative];
          openSet := openSet + [Entry(tentative + heuristic(neighbor, goal), neighbor)];
        }
      }
    }
  }
}
