# Incremental A* search, modelled in Dafny

This project models the search engine of the fastest-path finder: the
generator `AStar.search_generator`. It runs an A* search over a directed road
multigraph. Each time it is resumed, it finalises the next node and yields a
snapshot `(current, visited, path)`. It stops after the goal's snapshot, or,
once the frontier is exhausted, after one failure snapshot
`(None, visited, [])`.

The model has seven modules:

- `Graphs` (`graphs.dfy`) defines the multigraph. Each node maps to its
  outgoing arcs. An arc groups all parallel edges to one successor and keeps
  one optional weight per edge; `None` means the edge lacks the weight
  attribute. `EdgeCost` is the effective cost: the least weight present, or
  `None` (+infinity) when no edge has one.
- `Frontier` (`frontier.dfy`) defines the heap of `(priority, node)` entries
  as a sequence. `PopMin` removes a least entry in tuple order: priority
  first, then node id.
- `AStarSpec` (`astar_spec.dfy`) is the generator as a state machine on
  values.
  - `State` holds the generator's locals: frontier, `g_score`, `came_from`,
    visited set and where it is suspended. A node missing from `gScore` has
    score +infinity.
  - `Step` is one resumption. `Advance` is the `while open_set` loop up to
    the next yield. `Relax`, `RelaxArcs` and `Expand` are the neighbour loop.
    `PathTo` is the reconstructed path.
  - The lemmas prove the invariant `Inv` and what each resumption yields.
- `AStarRun` (`astar_run.dfy`) defines `Run`, the whole event sequence of a
  fresh generator, and proves its shape, its termination cases, and the
  growth of the visited sets.
- `AStarReach` (`astar_reach.dfy`) proves what the failure snapshot means.
  When the frontier runs out, the visited set is exactly the set of nodes
  reachable from the start along edges that carry a weight. The proof keeps
  a frontier invariant: every scored, unfinalised node has a frontier entry,
  and every finalised node except the one just yielded has had its
  neighbour loop run.
- `AStarExamples` (`astar_examples.dfy`) works through two searches. In the
  first, the start is the goal. In the second, the graph is a line of three
  nodes whose first link has parallel edges, one of them without a weight.
- `AStar` (`astar.dfy`) is the imperative form.
  - `Search` is a class whose fields are the generator's locals. `Next` is
    one resumption, updating the fields in place. Each method is proved to
    yield the event `Step` describes and to leave the state `Step` describes.
  - `ReconstructPath` is the inner `while temp_curr in came_from` loop.

Events: `Yield(snapshot)` is a yielded tuple. `Stop` means the generator is
exhausted. `NodeNotFound` is the `KeyError` that the heuristic lookup at line
46 raises when the start or the goal is not a node of the graph.

Facts used only in proofs are kept in ghost state. `rank` records the order
in which nodes were finalised. It is the termination measure of the walk
back along `came_from`, which the Python code does not need.

Two details of the code that the model keeps:

- The start entry is pushed with priority `0` (a_star.py line 41).
  `f_score[start]` is computed at line 46 but never pushed.
- Ties in the frontier are broken by comparing node ids, because `heapq`
  compares whole `(f, node)` tuples.

## Model

| member | source | states |
|---|---|---|
| Graphs.EdgeCost | src/fastest_path_finder/pathfinding/a_star.py:76-82 | The cost of a pair is `None` (skipped as +infinity) exactly when no parallel edge carries a weight; otherwise it is one of the weights and no greater than any of them |
| Graphs.ArcCostFound | src/fastest_path_finder/pathfinding/a_star.py:72-79 | A finite cost from `u` to `v` comes from an arc of `u` whose target is `v`, and is that arc's edge cost |
| Graphs.ArcCostAt | src/fastest_path_finder/pathfinding/a_star.py:72-79 | With each successor listed once, the cost looked up for the i-th successor is the minimum over that successor's parallel edges |
| Frontier.MinIndex | src/fastest_path_finder/pathfinding/a_star.py:50 | The chosen position holds an entry that no entry of the frontier is less than, in tuple order |
| Frontier.PopMin | src/fastest_path_finder/pathfinding/a_star.py:50 | `heappop` returns a least entry; the remaining frontier is the old one minus exactly that entry (as multisets) and one shorter |
| Frontier.PopMinLeast | src/fastest_path_finder/pathfinding/a_star.py:50 | The popped entry was in the frontier; every remaining entry was in it and is not less than the popped one |
| AStarSpec.Seeded | src/fastest_path_finder/pathfinding/a_star.py:41-47 | The locals after the set-up lines: `(0, start)` queued, start scored 0, nothing finalised; `SeededSnapshot` and `FirstStep` state what the loop yields from them |
| AStarSpec.Back | src/fastest_path_finder/pathfinding/a_star.py:56-61 | The walk back along `came_from` takes at most as many steps as the node's rank (so it ends) and, for a node with a predecessor, ends at that node |
| AStarSpec.PathTo | src/fastest_path_finder/pathfinding/a_star.py:56-63 | The rebuilt path starts at `start` and has at most rank + 1 nodes; `PathToChain` and `PathToCost` state that it follows `came_from` and costs the node's score |
| AStarSpec.Relax | src/fastest_path_finder/pathfinding/a_star.py:73-92 | One iteration of the neighbour loop; `RelaxOneEffect` states exactly when it updates and what |
| AStarSpec.RelaxArcs | src/fastest_path_finder/pathfinding/a_star.py:72-92 | The first k iterations of the neighbour loop; `RelaxArcsScores`, `RelaxArcsPushes` and `RelaxArcsCore` state their effect |
| AStarSpec.Expand | src/fastest_path_finder/pathfinding/a_star.py:72-92 | The whole neighbour loop; `ExpandEffect` states its effect independently of the order of the arcs and `ExpandCore` that it keeps the invariant |
| AStarSpec.Advance | src/fastest_path_finder/pathfinding/a_star.py:49-95 | The `while open_set` loop always yields, never changes a score or a predecessor, only grows the visited set and never lengthens the frontier |
| AStarSpec.Step | src/fastest_path_finder/pathfinding/a_star.py:28-95 | One resumption: after anything but a snapshot the generator is finished, and the visited set only grows; `StepInv`, `StepSnapshot` and `StepEvents` state the rest |
| AStarSpec.RankExtend | src/fastest_path_finder/pathfinding/a_star.py:54 | Adding a new node to visited with the next rank keeps every finalised node's rank distinct and below the number of visited nodes (so the ranks number them 0 up to n - 1), and every predecessor finalised before its node |
| AStarSpec.CoreDrop | src/fastest_path_finder/pathfinding/a_star.py:50-52 | Removing frontier entries keeps the invariant |
| AStarSpec.VisitedScored | src/fastest_path_finder/pathfinding/a_star.py:84 | A finalised node is a node of the graph with a finite `g_score`, so `g_score[current]` is defined |
| AStarSpec.RelaxCore | src/fastest_path_finder/pathfinding/a_star.py:84-92 | One relaxation keeps the invariant (predecessor joined by a weighted edge, score = predecessor's score + edge cost, start has no predecessor), keeps visited, and keeps the current node's score |
| AStarSpec.RelaxArcsCore | src/fastest_path_finder/pathfinding/a_star.py:72-92 | Any prefix of the neighbour loop keeps the invariant, the visited set and the current node's score |
| AStarSpec.ExpandCore | src/fastest_path_finder/pathfinding/a_star.py:72-92 | The whole neighbour loop keeps the invariant and never changes the score or the predecessor of a finalised node |
| AStarSpec.RelaxOneEffect | src/fastest_path_finder/pathfinding/a_star.py:73-92 | One iteration sets `came_from[t] = c`, sets `g_score[t] = g(c) + w` and pushes `(g(c) + w + h(t), t)` exactly when `t` is unvisited, has a weighted edge and strictly improves its score; otherwise it changes nothing |
| AStarSpec.RelaxArcsScores | src/fastest_path_finder/pathfinding/a_star.py:72-92 | After the first k successors, every improved target among them has score `g(c) + cost` and predecessor `c`; every other node is untouched |
| AStarSpec.RelaxArcsUntouched | src/fastest_path_finder/pathfinding/a_star.py:72-92 | The first k iterations leave every node that is not one of their targets untouched |
| AStarSpec.RelaxArcsPushes | src/fastest_path_finder/pathfinding/a_star.py:86-92 | After the first k successors, the frontier is the old one followed by exactly one entry `(score + h, node)` per improved target, with no other entries |
| AStarSpec.ExpandEffect | src/fastest_path_finder/pathfinding/a_star.py:72-92 | The neighbour loop improves exactly the unvisited nodes whose score through `c` is strictly smaller, sets their score and predecessor, leaves all others alone, and pushes one entry per improved node |
| AStarSpec.PathToChain | src/fastest_path_finder/pathfinding/a_star.py:56-63 | The rebuilt path starts at `start`, ends at the node, links consecutive nodes by `came_from` (`path[i-1] == came_from[path[i]]`) and visits only finalised nodes |
| AStarSpec.PathToCost | src/fastest_path_finder/pathfinding/a_star.py:56-63 | The rebuilt path is a route of the graph whose summed edge cost is the node's `g_score` |
| AStarSpec.AdvanceYields | src/fastest_path_finder/pathfinding/a_star.py:49-95 | The loop yields once: the failure snapshot `(None, visited, [])` with the frontier empty and nothing else changed, or the snapshot of a node not visited before, adding only that node to visited and leaving scores and predecessors unchanged |
| AStarSpec.AdvanceShrinks | src/fastest_path_finder/pathfinding/a_star.py:49-52 | The loop only removes entries from the frontier: stale pops shrink it and push nothing |
| AStarSpec.AdvancePops | src/fastest_path_finder/pathfinding/a_star.py:49-52 | Every entry the loop removes is stale or belongs to the yielded node, and no entry left is less than it |
| AStarSpec.AdvancePicksLeast | src/fastest_path_finder/pathfinding/a_star.py:49-54 | Best first: the yielded node had a frontier entry that no entry of a node not yet visited is less than, in `(priority, node)` order |
| AStarSpec.AdvanceCore | src/fastest_path_finder/pathfinding/a_star.py:49-66 | Finalising a node keeps the invariant, and the node is a node of the graph |
| AStarSpec.AdvanceFrozen | src/fastest_path_finder/pathfinding/a_star.py:49-66 | The loop leaves the scores, predecessors and ranks of finalised nodes unchanged |
| AStarSpec.AdvanceSnapshot | src/fastest_path_finder/pathfinding/a_star.py:49-95 | The snapshot is either a new node with visited grown by it and a start-to-node predecessor chain of cost `g_score[node]`, or the failure snapshot with visited unchanged; one fewer node is left to finalise |
| AStarSpec.StepInv | src/fastest_path_finder/pathfinding/a_star.py:28-95 | Every resumption keeps the invariant, and a finalised node's score, predecessor and rank never change again |
| AStarSpec.StepSnapshot | src/fastest_path_finder/pathfinding/a_star.py:49-95 | Every yielding resumption brings the generator strictly closer to its end, and its snapshot is as `AdvanceSnapshot` describes |
| AStarSpec.SeededSnapshot | src/fastest_path_finder/pathfinding/a_star.py:41-66 | From the seeded locals, the loop yields a snapshot as described, from an empty visited set |
| AStarSpec.ResumedSnapshot | src/fastest_path_finder/pathfinding/a_star.py:49-92 | Resuming after a non-goal snapshot (neighbour loop, then main loop) yields a snapshot as described and leaves fewer nodes to finalise |
| AStarSpec.StepEvents | src/fastest_path_finder/pathfinding/a_star.py:46-70 | The generator raises exactly on the first resumption when the start or the goal is missing; it stops exactly when finished or suspended after the goal's snapshot; after anything but a snapshot it is finished |
| AStarSpec.FirstStep | src/fastest_path_finder/pathfinding/a_star.py:41-66 | The first resumption yields `(start, {start}, [start])`, or raises when an endpoint is not a node |
| AStarRun.RunFrom | src/fastest_path_finder/pathfinding/a_star.py:49-95 | Resuming until the end yields at least one event and at most `Progress + 1` of them |
| AStarRun.Run | src/fastest_path_finder/pathfinding/a_star.py:28-95 | A fresh generator produces between 1 and (number of nodes + 2) events |
| AStarRun.RunFromShape | src/fastest_path_finder/pathfinding/a_star.py:49-95 | A run is a list of snapshots closed by exactly one non-snapshot event |
| AStarRun.RunFromFinalised | src/fastest_path_finder/pathfinding/a_star.py:51-66 | A run finalises at most as many nodes as remain unvisited in the graph |
| AStarRun.RunFromVisited | src/fastest_path_finder/pathfinding/a_star.py:51-66 | Each snapshot's visited set is the previous one plus its own new node (or unchanged for the failure snapshot) |
| AStarRun.RunFromPaths | src/fastest_path_finder/pathfinding/a_star.py:56-66 | Each non-failure snapshot's path runs from the start to its node through visited nodes, with a finite route cost |
| AStarRun.YieldsAgain | src/fastest_path_finder/pathfinding/a_star.py:66-70 | After a snapshot, the next resumption yields again exactly when that snapshot was of a node other than the goal |
| AStarRun.RunFromEnds | src/fastest_path_finder/pathfinding/a_star.py:66-95 | A run from a started generator ends with the end of the sequence right after the goal's snapshot or the failure snapshot, and no earlier snapshot is of the goal or a failure |
| AStarRun.RunStarts | src/fastest_path_finder/pathfinding/a_star.py:41-66 | The first event of a fresh run is `(start, {start}, [start])`, or the error; the run is just the error exactly when an endpoint is missing |
| AStarRun.RunEnds | src/fastest_path_finder/pathfinding/a_star.py:28-95 | A fresh run is snapshots then one close, has at most (number of nodes + 2) events, finalises at most as many nodes as the graph has, and with both endpoints present stops after the goal's snapshot or the one failure snapshot |
| AStarRun.RunSnapshots | src/fastest_path_finder/pathfinding/a_star.py:51-66 | In a fresh run, visited grows by exactly the snapshot's node per non-failure snapshot, and every path is a start-to-node route |
| AStarRun.GrowsMonotone | src/fastest_path_finder/pathfinding/a_star.py:54-66 | Reported visited sets only grow along a run |
| AStarRun.RunDistinct | src/fastest_path_finder/pathfinding/a_star.py:51-66 | No node is the `current` of two snapshots of a run |
| AStarReach.QueuedPop | src/fastest_path_finder/pathfinding/a_star.py:50-54 | Popping the least entry keeps a frontier entry for every scored node other than the popped one |
| AStarReach.AdvanceSettled | src/fastest_path_finder/pathfinding/a_star.py:49-95 | Starting with every finalised node expanded, the main loop either suspends with only the new node unexpanded, or runs out of frontier with no weighted edge leaving the visited set |
| AStarReach.ExpandSettled | src/fastest_path_finder/pathfinding/a_star.py:72-92 | After the neighbour loop of the node just yielded, every weighted successor of a finalised node is finalised or scored, and every scored unfinalised node has a frontier entry |
| AStarReach.VisitedReached | src/fastest_path_finder/pathfinding/a_star.py:56-63 | Every finalised node is reached from the start by a walk along weighted edges (its rebuilt path) |
| AStarReach.ResumedSettled | src/fastest_path_finder/pathfinding/a_star.py:49-95 | Resuming after a non-goal snapshot keeps the frontier invariant; a failure snapshot it yields reports a set that holds the start, that no weighted edge leaves, and whose nodes are all reachable |
| AStarReach.StepSettled | src/fastest_path_finder/pathfinding/a_star.py:28-95 | Every resumption keeps the frontier invariant, and a failure snapshot reports the start's reachable component |
| AStarReach.RunFromExhausted | src/fastest_path_finder/pathfinding/a_star.py:94-95 | Every failure snapshot of a run reports the start's reachable component |
| AStarReach.RunExhausted | src/fastest_path_finder/pathfinding/a_star.py:94-95 | In a fresh run, a node is in the failure snapshot's visited set if and only if a walk along weighted edges leads to it from the start |
| AStarExamples.StartIsGoal | src/fastest_path_finder/pathfinding/a_star.py:41-70 | When the start is the goal, the run is `(start, {start}, [start])` followed by the end |
| AStarExamples.LineFirst | src/fastest_path_finder/pathfinding/a_star.py:41-66 | On the three-node line, the first resumption yields `(1, {1}, [1])` |
| AStarExamples.LineExpand1 | src/fastest_path_finder/pathfinding/a_star.py:72-92 | The neighbour loop of 1 scores 2 with the least attributed weight, 3, ignoring the edge without a weight, and pushes `(3, 2)` |
| AStarExamples.LineSecond | src/fastest_path_finder/pathfinding/a_star.py:49-92 | The second resumption yields `(2, {1, 2}, [1, 2])` |
| AStarExamples.LineThird | src/fastest_path_finder/pathfinding/a_star.py:49-92 | The third resumption yields `(3, {1, 2, 3}, [1, 2, 3])` |
| AStarExamples.LineRun | src/fastest_path_finder/pathfinding/a_star.py:28-95 | The whole run on the line is the three snapshots in order, then the end right after the goal |
| AStar.Reversed | src/fastest_path_finder/pathfinding/a_star.py:63 | The result has the same length with element i taken from position `n - 1 - i` |
| AStar.ReconstructPath | src/fastest_path_finder/pathfinding/a_star.py:56-63 | The walk back along `came_from`, plus the start, reversed, returns the path `PathTo` of the model |
| AStar.Search.constructor | src/fastest_path_finder/pathfinding/a_star.py:28-30 | A fresh generator holds its problem, satisfies the invariant and is in the initial state (no code run yet) |
| AStar.Search.Next | src/fastest_path_finder/pathfinding/a_star.py:28-95 | One resumption returns the event of `Step` and leaves the fields in the state `Step` gives, keeping the invariant |
| AStar.Search.Advance | src/fastest_path_finder/pathfinding/a_star.py:49-95 | The in-place `while open_set` loop returns the event and state of `Advance` |
| AStar.Search.Expand | src/fastest_path_finder/pathfinding/a_star.py:72-92 | The in-place neighbour loop leaves the fields in the state of `Expand` |

## Left out

- The heuristic `AStar.heuristic` (great-circle distance on float coordinates, lines 21-26) is an arbitrary non-negative function `h(node, goal)` given with the problem.
- Float `travel_time` weights are natural numbers; `float("inf")` is `None`, or a key absent from `gScore`.
- The `f_score` dictionary is not kept. Its only use is the priority pushed at line 92, which the model computes directly as score plus heuristic.
- The `print` calls at lines 69 and 94 are not modelled.
- The networkx `MultiDiGraph` is replaced by a map from node to arcs. `ValidGraph` assumes what a multigraph guarantees: successors are nodes, each is listed once, and each has at least one parallel edge.
- The `ValueError` that `min` would raise on empty edge data cannot happen in a multigraph, and `ValidGraph` excludes it.
- The weight attribute name (`self.weight`) is not modelled; an arc's weights are that attribute's values.
- The binary-heap layout of `open_set` is replaced by a sequence from which a least `(priority, node)` tuple is removed. Two equal tuples cannot be told apart, so the order of the yields is the same.
- Optimality of finalised scores (with an admissible, consistent heuristic) is not proved. The model proves that a snapshot's path costs exactly the node's recorded score and that the score is frozen once the node is finalised.
- The failure snapshot at line 95 hands out the generator's own visited set rather than a copy. The model's sets are values, so this aliasing is not captured.
- `AStar.Search.Advance` pops from a local copy of the frontier and writes it back when it yields. The generator pops from the shared heap directly; the end state is the same.
- The other parts of the repository (map data fetching, the visualiser, the navigator, the entry point and the configuration loading) are not part of this model.
