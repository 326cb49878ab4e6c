# Temporal shortest paths over a time-expanded graph

This project models the core of a small temporal route planner and proves properties of that model.

A record `(u, v, t, l)` says that a connection leaves label `u` at instant `t` and reaches label `v` after `l` time units. `buildGraph` turns a list of records into a time-expanded graph:
- each vertex is a `(label, instant)` pair;
- each record becomes a travel edge `(u, t) -> (v, t + l)` of weight `l`;
- the occurrences of each label are chained by zero-weight waiting edges.

Two shortest-path engines run on that graph, `bellman_ford` and `dijkstra`. Four strategies are built on `bellman_ford`:
- type 1, earliest arrival;
- type 2, latest departure;
- type 3, shortest duration;
- type 4, smallest distance.

Each strategy picks candidate (source instant, destination instant) pairs in a fixed order and asks `bellman_ford` for each. It keeps the first one that links and compacts its vertex path into label-changing hops `(fromLabel, toLabel, departure, 1)`.

The repository holds the engine twice, and both copies are modelled:
- the package `code/`: `code/graph.py` and `code/pathfinding.py`;
- the older single file `projet.py`.

Shared pieces are modelled once:
- the `Edge` record and the other values: module `Types`;
- walks, reachability and shortest distances: `Walks`;
- `buildGraph` and grouping by label: `Graph`;
- stable sorting, `min`/`max` by key and the duration buckets of type 3: `Selection`;
- hop compaction: `Hops`;
- the Bellman-Ford passes: `Relaxation`;
- the invariant of Dijkstra's table: `Frontier`;
- what a first-fit strategy answers: `Answers`.

The two copies of each engine and strategy are in `Pathfinding` (`code/pathfinding.py`) and `Projet` (`projet.py`). `Counterexamples` holds the inputs that show the two findings below.

The imperative parts stay imperative: the builder, the relaxation passes, Dijkstra's visiting loop, the path reconstructions and the search loops of the strategies. Each is a `method` with loop invariants. It is proved against reference functions (`Dedup`, `Endpoints`, `TravelEdges`, `WaitingEdges`, `Group`, `SortBy`, `Schedule`, `Compact`) and against the graph notions `IsWalk`, `Reachable`, `Connects` and `IsShortest`.

Two conventions run through the model:
- Python's `float('inf')` / `np.inf` is the datatype `Ext = Fin(n) | Inf`;
- the two failure values of `bellman_ford` are kept apart: `[]` in `code/` and `{}` in `projet.py` (`PathValue = VertexList(items) | EmptyDict`).

Where the system's specification and the code disagree, the model follows the code.
- The specification says each label's waiting chain runs through its occurrences sorted by instant. The code (code/graph.py:59-68, projet.py:126-134) chains them in vertex-insertion order, with no sort. `Graph.BuildGraph` models the code. `Counterexamples.WaitingEdgeBackInTime` shows a waiting edge that goes back in time.
- The specification says each strategy stops at the first candidate that links. Two places in the code do not, and they are the two findings below.

## Model

| member | source | states |
|---|---|---|
| Graph.BuildGraph | code/graph.py:32-70 | the vertices are the record endpoints `(u, t)`, `(v, t + l)` deduplicated in first-insertion order; the edges are one travel edge per record in record order, then each label's waiting chain in key order; projet.py:109-136 is the same builder and is modelled by the same method |
| Graph.ClusterByLabel | code/graph.py:59-62 | the `defaultdict(list)` grouping: a label is a key exactly when it has vertices, maps to its vertices in insertion order, and keys come in first-occurrence order |
| Graph.WaitingChains | code/graph.py:64-68 | the edges appended are, label by label in key order, `g[j] -> g[j + 1]` of weight 0 along the label's vertices `g` |
| Graph.AppendChain | code/graph.py:65-68 | the inner loop appends exactly the chain of one label behind the edges already there |
| Graph.TravelEdges | code/graph.py:46-57 | one travel edge per record, the i-th from `(u, t)` to `(v, t + l)` with weight `l`, duplicates included |
| Graph.BuiltVertices | code/graph.py:49-53 | the vertex list has no duplicate; both endpoints of every record are in it; every vertex is an endpoint of some record; there are at most `2·|P|` vertices |
| Graph.BuiltEdgesWithin | code/graph.py:49-68 | every edge endpoint is a vertex, and with non-negative durations every weight is non-negative |
| Graph.WaitingEdgesShape | code/graph.py:62-66 | every waiting edge has weight 0 and joins two vertices of the same label, both in the vertex list |
| Graph.WaitingChainOfLabel | code/graph.py:59-68 | the waiting edges leaving a label are exactly that label's chain through its vertices in insertion order |
| Graph.ChainFacts | code/graph.py:66-67 | a label with `k` occurrences gets `k − 1` waiting edges, the j-th from occurrence j to occurrence j + 1 |
| Graph.LabelsFacts | code/graph.py:61-64 | the key order lists each label once, and exactly the labels that have vertices |
| Graph.GroupMembers | code/graph.py:61-62 | a label's group holds exactly the vertices carrying that label |
| Graph.EdgeCount | code/graph.py:46-68 | the number of edges is `|P| + |V| − (number of distinct labels)` |
| Graph.LatestFacts | code/pathfinding.py:224 | `{i[0]: i for i in e}` has a key exactly for the labels with vertices and maps each to its last vertex |
| Walks.Shorten | code/pathfinding.py:22-26 | any walk can be traded for one between the same vertices, no heavier, with fewer edges than there are vertices, which is why `len(vertices) − 1` passes suffice |
| Walks.ShortWitness | code/pathfinding.py:22 | a reachable vertex is reached by a walk with fewer edges than there are vertices |
| Relaxation.RelaxPasses | code/pathfinding.py:22-26 | after the passes no distance has gone up, the start is at 0 without a parent, every distance is the exact shortest distance, and exactly the finite vertices other than the start have a parent, linked by an edge of a shortest walk; projet.py:30-34 runs the same passes |
| Relaxation.RelaxEdges | code/pathfinding.py:23-26 | one pass lowers distances only, keeps every finite distance the weight of a walk, and bounds every walk with one more edge |
| Relaxation.Improve | code/pathfinding.py:24-26 | an improvement never touches the start and never follows a self-loop, keeps the invariant, and only lowers distances |
| Relaxation.Exact | code/pathfinding.py:22-28 | after `len(vertices) − 1` passes every distance is the shortest distance, the start's is 0, and parent links are tight and ordered |
| Relaxation.Tight | code/pathfinding.py:26 | a parent link is an edge whose weight makes the child's distance exactly the parent's plus the edge |
| Pathfinding.BellmanFord | code/pathfinding.py:5-43 | the path is `[]` exactly when no walk leads to a different `end` (so also for `end == start`), and then the distance is infinite; otherwise the distance is the shortest one and the path follows a walk of that weight from `start` to `end` |
| Pathfinding.FollowParents | code/pathfinding.py:30-37 | following parents from `end` and reversing gives a vertex list that runs along a walk from `start` to `end` of weight `distances[end]` |
| Pathfinding.Closest | code/pathfinding.py:65-69 | the vertex `min` selects is an unvisited vertex of `order` |
| Pathfinding.ClosestFacts | code/pathfinding.py:65-72 | `min` finds nothing exactly when all vertices are visited; otherwise it picks an unvisited vertex of least distance that no earlier unvisited vertex ties |
| Pathfinding.VisitAll | code/pathfinding.py:64-84 | after the loop every vertex is visited, every edge leaving a visited vertex is relaxed, the table invariant holds, and no distance is higher than at the start |
| Frontier.Mark | code/pathfinding.py:74 | visiting an unvisited vertex of least distance fixes its shortest distance, makes it the farthest visited vertex, and visits one new vertex |
| Frontier.RelaxNeighbours | code/pathfinding.py:77-84 | relaxing the edges of the selected vertex keeps the keys and the visited set, leaves every edge from a visited vertex relaxed, only lowers distances, leaves every visited entry unchanged, and changes nothing when all were relaxed already |
| Frontier.Improve | code/pathfinding.py:81-84 | lowering an unvisited neighbour through a strictly better edge never touches the start or the selected vertex, keeps the invariant and only lowers distances |
| Frontier.StaysFinite | code/pathfinding.py:64-87 | once every finite vertex is visited and every edge relaxed, every walk from the start ends at a vertex of finite distance |
| Pathfinding.WalkBack | code/pathfinding.py:87-95 | the predecessor chain from `end` back to `start` runs along a walk of weight `distance[end]`, which is the shortest distance, and is `[start]` when `end == start` |
| Pathfinding.Dijkstra | code/pathfinding.py:46-99 | the path is `[]` exactly when `end` is unreachable, and then the distance is infinite; otherwise the distance is the shortest one and the path follows a walk of that weight; `end == start` gives `(0, [start])` |
| Hops.CompactHops | code/pathfinding.py:230-233 | the loop appends exactly the hops of the label-changing steps of the path, as the same loop in each strategy of projet.py does |
| Hops.CompactFacts | code/pathfinding.py:126-130 | compacted hops form a chain from the first vertex's label to the last one's; each hop changes label, has weight 1 and departs at the instant of a path vertex; there are no hops exactly when all labels are equal; there are fewer hops than vertices |
| Answers.HopsRoute | code/pathfinding.py:126-130 | the hops of a shortest walk between different labels are non-empty, leave the first label, arrive at the second, and change label once per hop |
| Selection.SortByFacts | code/pathfinding.py:121 | `sorted(..., key=...)` orders by key (descending with `reverse=True`), is stable (equal keys keep their order), and is a permutation |
| Selection.MinByFacts | code/pathfinding.py:120 | `min(..., key=...)` returns the first element of least key |
| Selection.MaxByFacts | code/pathfinding.py:154 | `max(..., key=...)` returns the first element of greatest key |
| Selection.PairsMembers | code/pathfinding.py:189-195 | the candidate pairs of type 3 are exactly the (source, destination) combinations with `t2 > t1` |
| Selection.GroupByDuration | code/pathfinding.py:187-195 | `dictemps`' keys are the durations in first-insertion order, and each bucket holds the pairs of its duration in loop order |
| Selection.DurationBuckets | code/pathfinding.py:180-197 | the sorted keys `tri` are the durations that occur, each with its non-empty bucket |
| Selection.TriFacts | code/pathfinding.py:197 | the sorted keys are strictly ascending and are exactly the durations with a non-empty bucket |
| Selection.ScheduleFacts | code/pathfinding.py:197-200 | type 3 tries pairs by ascending duration, source-major within a duration, and tries every pair with `t2 > t1` |
| Selection.BucketsWithKey | code/pathfinding.py:199-200 | trying the buckets in key order tries each duration's pairs in bucket order, and no others |
| Answers.UnlinkedConcat | projet.py:224-234 | a run of buckets has no linked pair exactly when each part has none, which carries the bucket loop of projet.py's `type_3` from one bucket to the next |
| Pathfinding.Type1AsWritten | code/pathfinding.py:102-132 | as written: returns after the first destination whatever it got, the hops of its path or `[]` when it is unreachable; `None` only when the end label has no vertex |
| Pathfinding.Type1 | code/pathfinding.py:102-132 | as intended: the hops of the first destination, by increasing instant, that the earliest start vertex reaches; `None` exactly when it reaches none |
| Pathfinding.Type2 | code/pathfinding.py:135-165 | the hops of the first start vertex, by decreasing instant, that reaches the latest end vertex; `None` exactly when none does |
| Pathfinding.Type3 | code/pathfinding.py:168-209 | the hops of the first linked pair in type 3's order; `None` exactly when no pair links (also when no pair exists) |
| Pathfinding.Type4 | code/pathfinding.py:212-235 | between the last vertices of the two labels: the shortest distance and the hops of a shortest walk when connected, `([], inf)` otherwise |
| Answers.EarliestArrival | projet.py:146-157 | the destination type 1 settles on arrives no later than any destination the source connects to |
| Answers.LatestDeparture | code/pathfinding.py:153-158 | the source type 2 settles on departs no earlier than any start vertex that connects to the destination |
| Answers.LeastDuration | code/pathfinding.py:189-202 | the pair type 3 settles on has a positive duration no longer than that of any connected pair with `t2 > t1` |
| Projet.BellmanFord | projet.py:19-48 | the result is `{}` exactly when no walk leads to a different `end`, and then the distance is infinite; otherwise the list follows a walk of the shortest distance from `start` to `end` |
| Projet.FollowParents | projet.py:38-45 | starting from `[parents[end], end]` and prepending parents until `start` gives a list along a walk of weight `distances[end]` |
| Projet.ScanClosest | projet.py:68-74 | the scan picks an unvisited vertex of finite, least distance, strictly closer than every earlier unvisited vertex; it keeps the previous selection when no unvisited vertex is finite |
| Projet.Round | projet.py:66-78 | each round either visits one new closest vertex or, when no unvisited vertex is finite, changes nothing |
| Projet.VisitAll | projet.py:66-91 | after `len(vertices)` rounds every vertex at a finite distance is visited, every edge leaving a visited vertex is relaxed, and no distance is higher than at the start |
| Projet.WalkBack | projet.py:94-102 | the list built from `[predecessor, end]` backwards runs along a walk of the shortest distance from `start` to `end` |
| Projet.Dijkstra | projet.py:51-105 | for `end != start`: `{}` exactly when `end` is unreachable, and then the distance is infinite; otherwise the shortest distance and a list along a walk of that weight |
| Projet.Type1 | projet.py:140-169 | the hops of the first destination, by increasing instant, that the earliest start vertex reaches; `None` exactly when none is reached |
| Projet.Type2 | projet.py:172-201 | the hops of the first start vertex, by decreasing instant, that reaches the latest end vertex; `None` exactly when none does |
| Projet.Type3AsWritten | projet.py:204-245 | as written: when some pair links, the answer is the outcome of the longest-duration bucket only, the hops of its first linked pair or `[]` |
| Projet.Type3 | projet.py:204-245 | as intended: the hops of the first linked pair in type 3's order; `None` exactly when no pair links |
| Projet.Type4 | projet.py:249-265 | between the first vertices of the two labels: the shortest distance and the hops of a shortest walk when connected, `([], inf)` otherwise |
| Counterexamples.WaitingEdgeBackInTime | code/graph.py:59-68 | two records from one label with the later departure first give a waiting edge from the later instant to the earlier one |
| Counterexamples.EarlyCounterexample | code/pathfinding.py:123-130 | on a family of two-record graphs the as-written type 1 can only answer `Some([])`, while the intended one answers non-empty hops from the start label to the end label |
| Counterexamples.LateCounterexample | projet.py:224-243 | on a family of two-record graphs some pair links, yet the longest-duration bucket yields no hops, while the intended type 3 answers non-empty hops from the start label to the end label |

## Left out

- Reading records from a file or the terminal (`readFile`, `readTerminal`), the Gurobi solver wrapper, `generate_graph_G` (it uses `random`), the timing and plotting scripts and the top-level drivers: they are I/O, an external solver, randomness or scripting, not part of the engine.
- `print("No path found")`: an output side effect with no influence on the result.
- `get_key` in projet.py's `type_4`: it is defined but never called.
- Floating-point infinity: `float('inf')` and `np.inf` are the datatype `Ext`, and `inf + w` is `Inf`.
- Python exceptions are preconditions, not modelled error paths:
  - `min`/`max` on an empty label group (`ValueError`): the `Group(...) != []` requires of the type 1 and 2 methods;
  - code/pathfinding.py's `type_4` looking up a label without vertices in the dict of last vertices (`KeyError`): the `Group(...) != []` requires of `Pathfinding.Type4`;
  - projet.py's `type_4` indexing an empty label group (`IndexError`): the `Group(...) != []` requires of `Projet.Type4`;
  - `KeyError` on a missing label or vertex: the `Leads` and membership requires of the engines and `Type4`, and the `Within` requires. Two of these are slightly stronger than the `KeyError` condition: `Within` for `Pathfinding.BellmanFord` (see the line below), and `Leads` for `Projet.Dijkstra`. projet.py's `dijkstra` looks up `nodes[edge.v]` only for edges leaving a visited vertex, and it visits only vertices at a finite distance (projet.py:82-83). So an edge from an unreachable vertex to a non-vertex does not fail in the source, but `Leads` rules it out. Every graph built by `buildGraph` meets `Leads`.
  - projet.py's `dijkstra` with `end == start`, which looks up the predecessor of `None`: the `end != start` requires of `Projet.Dijkstra`;
  - projet.py's `type_3` reading an unbound `path_found` when no pair links: the requires of `Projet.Type3AsWritten`.
- Pathfinding.BellmanFord: requires every edge endpoint to be among `vertices`. The source also runs when an edge touches `start` while `start` is not in `vertices`, because `distances[start] = 0` adds that key. Then `len(vertices) − 1` passes run over one vertex more, and the distances need not be exact. The model does not cover that call.
- Pathfinding.BellmanFord: requires non-negative edge weights, which every graph built from non-negative durations has. With a negative cycle, the source's parent chain can loop and its reconstruction need not stop; the model does not cover that case. The same holds for Projet.BellmanFord, both `Dijkstra` methods and the strategies.
- Pathfinding.Type1, Pathfinding.Type2, Pathfinding.Type3, Pathfinding.Type4 and their `Projet` counterparts: the graph is taken as given, with every edge endpoint among the vertices. `buildGraph` guarantees this (`Graph.BuiltEdgesWithin`).
- An empty record list gives empty vertex and edge lists. This follows directly from `Graph.BuildGraph`'s contract, so it has no lemma of its own.
- The graph is a parametric family in the counterexamples: `EarlyShape` and `LateShape`, over two records, with `EarlyExample` and `LateExample` naming a concrete member of each. The builder is not evaluated on concrete literals.
- Helper methods split out of single source functions, so that each loop is proved on its own:
  - `Selection.GroupFrom` and `Selection.AddPair`: the nested loop of type 3;
  - `Graph.AppendChain`: the inner waiting-edge loop;
  - `Pathfinding.FollowParents` and `Projet.FollowParents`: the reconstruction in `bellman_ford`;
  - `VisitAll`, `WalkBack`, `ScanClosest`, `RelaxNeighbours`: the parts of each `dijkstra`.

## Findings

| source | as written | input that shows it | evidently intended | confidence | as-written member | corrected member |
|---|---|---|---|---|---|---|
| code/pathfinding.py:123-130 | `path != {}` compares the list from `bellman_ford` with a dict, which is true for every list, so `type_1` returns after the first destination even when it is unreachable (then with no hops) | records `(b, c, 1, 1)`, `(a, b, 3, 1)`, start `a`, end `b`: the earliest `b` vertex `(b, 1)` lies before the only departure from `a`, so the answer is `[]` although `(b, 4)` is reached by the hop `(a, b, 3, 1)` | skip unreachable destinations, as projet.py's `type_1` does with `path == {}`, and return the first reachable one | not executed | Pathfinding.Type1AsWritten, Counterexamples.EarlyCounterexample | Pathfinding.Type1 |
| projet.py:224-243 | the `break` leaves only the inner loop, so every duration bucket is tried and the answer comes from the last, longest one; when no pair links at all, `path_found` is never bound | records `(x, b, 9, 1)`, `(a, b, 1, 1)`, start `a`, end `b`: the pair `(a, 1) -> (b, 2)` of duration 1 links, the pair `(a, 1) -> (b, 10)` of duration 9 does not (the waiting chain of `b` runs from `(b, 10)` to `(b, 2)`), so the answer is `[]` | stop at the first linked pair in order of increasing duration (as code/pathfinding.py's `type_3` does with `return`), and return `None` when none links | not executed | Projet.Type3AsWritten, Counterexamples.LateCounterexample | Projet.Type3 |
