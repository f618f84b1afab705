/** The road network the search reads: a directed multigraph whose parallel
    edges between one ordered pair of nodes are grouped into one arc carrying
    one optional weight per parallel edge. */
module Graphs {

  /** Node identifiers (OpenStreetMap ids). */
  type Node = int

  datatype Option<+T> = None | Some(value: T)

  /** All parallel edges from one node to `target`. Each parallel edge has an
      optional weight: `None` when it lacks the weight attribute (which the
      search reads as +infinity). */
  datatype Arc = Arc(target: Node, weights: seq<Option<nat>>)

  /** Adjacency: every node maps to its outgoing arcs, in successor order. */
  type Graph = map<Node, seq<Arc>>

  /** The shape a multigraph always has: a successor is a node of the graph,
      is listed once, and has at least one parallel edge. */
  ghost predicate ValidGraph(g: Graph) {
    forall u | u in g :: ValidArcs(g, g[u])
  }

  ghost predicate ValidArcs(g: Graph, arcs: seq<Arc>) {
    && (forall i | 0 <= i < |arcs| :: arcs[i].target in g && |arcs[i].weights| > 0)
    && DistinctTargets(arcs)
  }

  ghost predicate DistinctTargets(arcs: seq<Arc>) {
    forall i, j | 0 <= i < j < |arcs| :: arcs[i].target != arcs[j].target
  }

  /** The smaller of two optional weights, `None` standing for +infinity. */
  function MinWeight(a: Option<nat>, b: Option<nat>): Option<nat> {
    match (a, b)
    case (None, _) => b
    case (_, None) => a
    case (Some(x), Some(y)) => if x <= y then a else b
  }

  /** The effective cost of a group of parallel edges: the least weight among
      the edges that carry the attribute, or `None` (+infinity) when none does. */
  function EdgeCost(ws: seq<Option<nat>>): (r: Option<nat>)
    ensures r.None? <==> forall i | 0 <= i < |ws| :: ws[i].None?
    ensures r.Some? ==> exists i | 0 <= i < |ws| :: ws[i] == r
    ensures r.Some? ==> forall i | 0 <= i < |ws| && ws[i].Some? :: r.value <= ws[i].value
  {
    if ws == [] then None
    else
      var rest := EdgeCost(ws[1..]);
      assert forall i | 1 <= i < |ws| :: ws[i] == ws[1..][i - 1];
      MinWeight(ws[0], rest)
  }

  /** The effective cost of the edge from the owner of `arcs` to `v`:
      `None` when `v` is not a successor or no parallel edge has a weight. */
  function ArcCost(arcs: seq<Arc>, v: Node): Option<nat> {
    if arcs == [] then None
    else if arcs[0].target == v then EdgeCost(arcs[0].weights)
    else ArcCost(arcs[1..], v)
  }

  /** A finite edge cost to `v` comes from an arc whose target is `v`. */
  lemma {:induction false} ArcCostFound(arcs: seq<Arc>, v: Node)
    requires ArcCost(arcs, v).Some?
    ensures exists i | 0 <= i < |arcs| :: arcs[i].target == v && EdgeCost(arcs[i].weights) == ArcCost(arcs, v)
  {
    if arcs[0].target != v {
      ArcCostFound(arcs[1..], v);
      var i :| 0 <= i < |arcs[1..]| && arcs[1..][i].target == v && EdgeCost(arcs[1..][i].weights) == ArcCost(arcs, v);
      assert arcs[i + 1] == arcs[1..][i];
    }
  }

  /** With successors listed once, the cost of the edge to the target of the
      `i`-th arc is the cost of that arc's parallel edges. */
  lemma {:induction false} ArcCostAt(arcs: seq<Arc>, i: nat)
    requires DistinctTargets(arcs)
    requires i < |arcs|
    ensures ArcCost(arcs, arcs[i].target) == EdgeCost(arcs[i].weights)
  {
    if i > 0 {
      assert arcs[0].target != arcs[i].target;
      assert DistinctTargets(arcs[1..]) by {
        forall a, b | 0 <= a < b < |arcs[1..]| ensures arcs[1..][a].target != arcs[1..][b].target {
          assert arcs[1..][a] == arcs[a + 1] && arcs[1..][b] == arcs[b + 1];
        }
      }
      ArcCostAt(arcs[1..], i - 1);
      assert arcs[1..][i - 1] == arcs[i];
    }
  }
}
