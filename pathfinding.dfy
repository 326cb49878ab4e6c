/** The engines and strategies of code/pathfinding.py. */
module Pathfinding {
  import opened Types
  import opened Walks
  import opened Graph
  import opened Selection
  import opened Hops
  import opened Relaxation
  import opened Frontier
  import opened Answers

  /** `s` reversed, as `path.reverse()` leaves it. */
  function Reversed<T>(s: seq<T>): seq<T>
  {
    if s == [] then [] else [s[|s| - 1]] + Reversed(s[..|s| - 1])
  }

  lemma ReversedSnoc<T>(s: seq<T>, x: T)
    ensures Reversed(s + [x]) == [x] + Reversed(s)
  {
    assert (s + [x])[..|s|] == s;
  }

  // ---------------------------------------------------------------------------
  // bellman_ford

  /** `bellman_ford` of code/pathfinding.py. The table holds every vertex and `start`. The path
      is empty exactly when no walk leads from `start` to a different `end` (so also when
      `end == start`), and then the distance is infinite; otherwise the distance is the shortest
      distance and the path runs from `start` to `end` along a walk of exactly that weight. */
  method BellmanFord(vertices: seq<Vertex>, edges: seq<Edge>, start: Vertex, end: Vertex)
    returns (distance: Ext, path: seq<Vertex>)
    requires Within(edges, vertices) && NonNegative(edges)
    requires end in vertices || end == start
    ensures path == [] <==> !Connects(edges, start, end)
    ensures path == [] ==> distance == Inf
    ensures path != [] ==>
      distance.Fin? && IsShortest(edges, start, end, distance) && Realises(edges, start, end, path, distance.n)
  {
    var dist := map v | v in vertices :: Inf;
    dist := dist[start := Fin(0)];
    var parents;
    ghost var tr;
    dist, parents, tr := RelaxPasses(vertices, edges, start, dist);
    distance := dist[end];
    if end in parents {
      path := FollowParents(edges, start, end, dist, parents, tr);
    } else {
      distance, path := Inf, [];
    }
  }

  /** The reconstruction of code/pathfinding.py: append `end`, its parent, its parent's parent
      and so on until a vertex without parent (`parents[...]` is `None`), then reverse. The
      chain ends at `start`, and the result runs along a walk of weight `distances[end]`. */
  method FollowParents(edges: seq<Edge>, start: Vertex, end: Vertex, dist: map<Vertex, Ext>,
                       parents: map<Vertex, Vertex>, ghost tr: Trace) returns (path: seq<Vertex>)
    requires NonNegative(edges) && Outcome(edges, start, dist, parents, tr) && end in parents
    ensures Realises(edges, start, end, path, dist[end].n)
  {
    var rev: seq<Vertex> := [];
    var parent: Option<Vertex> := Some(end);
    ghost var wc: seq<Edge> := [];
    assert ParentOk(edges, dist, parents, tr, end);
    ShortestNonNegative(edges, start, end, dist[end]);
    while parent.Some?
      invariant parent.Some? ==> parent.value in dist && dist[parent.value].Fin? && dist[parent.value].n >= 0
      invariant parent.Some? ==> parent.value in tr.stamp
      invariant rev == [] ==> parent == Some(end)
      invariant rev != [] ==> Reconstructed(edges, dist, parents, end, rev, wc, parent)
      decreases parent.Some?, if parent.Some? then dist[parent.value].n else 0,
                if parent.Some? then tr.stamp[parent.value] else 0
    {
      var x := parent.value;
      wc := ReconStep(edges, start, dist, parents, tr, end, rev, wc, x);
      ReversedSnoc(rev, x);
      rev := rev + [x];
      if x in parents {
        parent := Some(parents[x]);
      } else {
        parent := None;
      }
    }
    ReconDone(edges, start, dist, parents, tr, end, rev, wc);
    path := Reversed(rev);
  }

  /** One step of the reconstruction: appending the next vertex `x` keeps `Reconstructed`, and
      the parent of `x`, if any, comes strictly earlier in the order of distances and stamps. */
  lemma ReconStep(E: seq<Edge>, start: Vertex, dist: map<Vertex, Ext>, parents: map<Vertex, Vertex>, tr: Trace,
                  end: Vertex, rev: seq<Vertex>, wc: seq<Edge>, x: Vertex) returns (wc': seq<Edge>)
    requires NonNegative(E) && Outcome(E, start, dist, parents, tr) && end in parents
    requires rev == [] ==> x == end
    requires rev != [] ==> Reconstructed(E, dist, parents, end, rev, wc, Some(x))
    ensures Reconstructed(E, dist, parents, end, rev + [x], wc', if x in parents then Some(parents[x]) else None)
    ensures x in parents ==>
      var p := parents[x];
      p in dist && dist[p].Fin? && dist[p].n >= 0 && p in tr.stamp && x in dist && x in tr.stamp &&
      (dist[p].n < dist[x].n || (dist[p].n == dist[x].n && tr.stamp[p] < tr.stamp[x]))
  {
    if rev == [] {
      wc' := ReconFirst(E, start, dist, parents, tr, end);
    } else {
      wc' := ReconNext(E, start, dist, parents, tr, end, rev, wc, x);
    }
    if x in parents {
      ReconParent(E, start, dist, parents, tr, x);
    }
  }

  /** A parent is finite, no further than zero from `start`, and strictly before its child in
      (distance, last improvement) order. */
  lemma ReconParent(E: seq<Edge>, start: Vertex, dist: map<Vertex, Ext>, parents: map<Vertex, Vertex>, tr: Trace,
                    x: Vertex)
    requires NonNegative(E) && Outcome(E, start, dist, parents, tr) && x in parents
    ensures var p := parents[x];
      p in dist && dist[p].Fin? && dist[p].n >= 0 && p in tr.stamp && x in dist && x in tr.stamp &&
      (dist[p].n < dist[x].n || (dist[p].n == dist[x].n && tr.stamp[p] < tr.stamp[x]))
  {
    assert ParentOk(E, dist, parents, tr, x);
    ShortestNonNegative(E, start, parents[x], dist[parents[x]]);
  }

  /** The walk back starts at `end` with no edges. */
  lemma ReconFirst(E: seq<Edge>, start: Vertex, dist: map<Vertex, Ext>, parents: map<Vertex, Vertex>, tr: Trace,
                   end: Vertex) returns (wc': seq<Edge>)
    requires Outcome(E, start, dist, parents, tr) && end in parents
    ensures Reconstructed(E, dist, parents, end, [end], wc', if end in parents then Some(parents[end]) else None)
  {
    assert ParentOk(E, dist, parents, tr, end);
    wc' := [];
    ReversedSnoc([], end);
    assert Reversed([end]) == [end];
  }

  /** One step back: the parent edge of the last vertex goes in front of the walk. */
  lemma ReconNext(E: seq<Edge>, start: Vertex, dist: map<Vertex, Ext>, parents: map<Vertex, Vertex>, tr: Trace,
                  end: Vertex, rev: seq<Vertex>, wc: seq<Edge>, x: Vertex) returns (wc': seq<Edge>)
    requires Outcome(E, start, dist, parents, tr)
    requires rev != [] && Reconstructed(E, dist, parents, end, rev, wc, Some(x))
    ensures Reconstructed(E, dist, parents, end, rev + [x], wc', if x in parents then Some(parents[x]) else None)
  {
    ReversedSnoc(rev, x);
    assert (rev + [x])[|rev + [x]| - 1] == x;
    var h := rev[|rev| - 1];
    assert ParentOk(E, dist, parents, tr, h);
    var e := tr.pe[h];
    Prepend(E, e, wc);
    wc' := [e] + wc;
    assert dist[h] == Add(dist[x], e.weight);
  }


  /** When the chain stops, its last vertex is `start` and the reversed list realises the
      shortest distance of `end`. */
  lemma ReconDone(E: seq<Edge>, start: Vertex, dist: map<Vertex, Ext>, parents: map<Vertex, Vertex>, tr: Trace,
                  end: Vertex, rev: seq<Vertex>, wc: seq<Edge>)
    requires Outcome(E, start, dist, parents, tr) && end in parents
    requires rev != [] && Reconstructed(E, dist, parents, end, rev, wc, None)
    ensures dist[end].Fin? && Realises(E, start, end, Reversed(rev), dist[end].n)
  {
    var h := rev[|rev| - 1];
    assert h == start;
  }

  /** The reversed list so far runs from its last vertex `h` to `end` along `wc`, `wc` weighs the
      difference of their distances, and `parent` is `h`'s parent. */
  ghost predicate Reconstructed(E: seq<Edge>, dist: map<Vertex, Ext>, parents: map<Vertex, Vertex>, end: Vertex,
                                rev: seq<Vertex>, wc: seq<Edge>, parent: Option<Vertex>)
    requires rev != []
  {
    var h := rev[|rev| - 1];
    h in dist && dist[h].Fin? && end in dist && dist[end].Fin? &&
    IsWalk(E, h, wc) && Stop(h, wc) == end && Visits(h, wc) == Reversed(rev) &&
    Weight(wc) + dist[h].n == dist[end].n &&
    parent == (if h in parents then Some(parents[h]) else None)
  }

  // ---------------------------------------------------------------------------
  // dijkstra

  /** What `min` picks from the unvisited vertices of `order` by distance: the first one whose
      distance is smallest (a later one replaces it only when strictly closer); `None` when
      all are visited. */
  function Closest(order: seq<Vertex>, N: map<Vertex, Node>): (r: Option<Vertex>)
    requires forall x :: x in order ==> x in N
    ensures r.Some? ==> r.value in order && !N[r.value].visited
  {
    if order == [] then None
    else
      var c := Closest(order[..|order| - 1], N);
      var x := order[|order| - 1];
      if !N[x].visited && (c.None? || Lt(N[x].distance, N[c.value].distance)) then Some(x) else c
  }

  /** `Closest` finds nothing exactly when every vertex of `order` is visited, and otherwise
      finds an unvisited vertex of least distance that no earlier unvisited vertex ties. */
  lemma ClosestFacts(order: seq<Vertex>, N: map<Vertex, Node>)
    requires forall x :: x in order ==> x in N
    requires NoDup(order)
    ensures Closest(order, N).None? <==> forall x :: x in order ==> N[x].visited
    ensures Closest(order, N).Some? ==>
      var u := Closest(order, N).value;
      (forall y :: y in order && !N[y].visited ==> Le(N[u].distance, N[y].distance)) &&
      (forall j :: 0 <= j < |order| && order[j] == u ==>
        forall k :: 0 <= k < j && !N[order[k]].visited ==> Lt(N[u].distance, N[order[k]].distance))
  {
    ClosestNone(order, N);
    ClosestLeast(order, N);
    ClosestFirst(order, N);
  }

  lemma {:induction false} ClosestNone(order: seq<Vertex>, N: map<Vertex, Node>)
    requires forall x :: x in order ==> x in N
    ensures Closest(order, N).None? <==> forall x :: x in order ==> N[x].visited
    decreases |order|
  {
    if order != [] {
      var o' := order[..|order| - 1];
      assert forall y :: y in order ==> y in o' || y == order[|order| - 1];
      ClosestNone(o', N);
    }
  }

  lemma {:induction false} ClosestLeast(order: seq<Vertex>, N: map<Vertex, Node>)
    requires forall x :: x in order ==> x in N
    ensures Closest(order, N).Some? ==>
      forall y :: y in order && !N[y].visited ==> Le(N[Closest(order, N).value].distance, N[y].distance)
    decreases |order|
  {
    if order != [] {
      var o', x := order[..|order| - 1], order[|order| - 1];
      assert forall y :: y in order ==> y in o' || y == x;
      ClosestNone(o', N);
      ClosestLeast(o', N);
    }
  }

  lemma {:induction false} ClosestFirst(order: seq<Vertex>, N: map<Vertex, Node>)
    requires forall x :: x in order ==> x in N
    requires NoDup(order)
    ensures Closest(order, N).Some? ==>
      var u := Closest(order, N).value;
      forall j :: 0 <= j < |order| && order[j] == u ==>
        forall k :: 0 <= k < j && !N[order[k]].visited ==> Lt(N[u].distance, N[order[k]].distance)
    decreases |order|
  {
    if order != [] {
      var o', x := order[..|order| - 1], order[|order| - 1];
      assert forall y :: y in order ==> y in o' || y == x;
      assert forall j :: 0 <= j < |o'| ==> o'[j] == order[j];
      ClosestNone(o', N);
      ClosestLeast(o', N);
      ClosestFirst(o', N);
    }
  }

  /** `dijkstra` of code/pathfinding.py, for a start and an end among the vertices. Its loop runs
      once per entry of `vertices` and stops early when no vertex is left unvisited, so in the end
      every vertex is visited. The path is empty exactly when `end` is unreachable, and then the
      distance is infinite; otherwise the distance is the shortest distance and the path runs from
      `start` to `end` (just `[start]` when they are equal) along a walk of that weight. */
  method Dijkstra(vertices: seq<Vertex>, edges: seq<Edge>, start: Vertex, end: Vertex)
    returns (distance: Ext, path: seq<Vertex>)
    requires Leads(edges, set v | v in vertices) && NonNegative(edges)
    requires start in vertices && end in vertices
    ensures path == [] <==> !Reachable(edges, start, end)
    ensures path == [] ==> distance == Inf
    ensures path != [] ==>
      distance.Fin? && IsShortest(edges, start, end, distance) && Realises(edges, start, end, path, distance.n)
    ensures end == start ==> distance == Fin(0) && path == [start]
  {
    var nodes := map v | v in vertices :: Node(Inf, false, None);
    nodes := nodes[start := Node(Fin(0), false, None)];
    Start(edges, start, nodes);
    ghost var lg;
    nodes, lg := VisitAll(vertices, edges, start, nodes, Ledger(map[], map[], 0));
    if nodes[end].distance != Inf {
      distance := nodes[end].distance;
      path := WalkBack(edges, start, end, nodes, lg);
    } else {
      assert Lower(edges, start, end, Inf);
      distance, path := Inf, [];
    }
  }

  /** The main loop of code/pathfinding.py: once per entry of `vertices`, visit the closest
      unvisited vertex and relax the edges leaving it, stopping early when none is left. In the
      end every vertex is visited. */
  method VisitAll(vertices: seq<Vertex>, edges: seq<Edge>, start: Vertex, nodes0: map<Vertex, Node>, ghost lg0: Ledger)
    returns (nodes: map<Vertex, Node>, ghost lg: Ledger)
    requires NonNegative(edges) && nodes0.Keys == set v | v in vertices
    requires TableInv(edges, start, nodes0, lg0) && Closed(edges, nodes0, None) && VisitedSet(nodes0) == {}
    ensures TableInv(edges, start, nodes, lg) && Closed(edges, nodes, None) && nodes.Keys == nodes0.Keys
    ensures forall x :: x in nodes ==> nodes[x].visited
    ensures forall x :: x in nodes0 ==> Le(nodes[x].distance, nodes0[x].distance)
  {
    nodes, lg := nodes0, lg0;
    var order := Dedup(vertices);
    DedupFacts(vertices);
    for i := 0 to |vertices|
      invariant nodes.Keys == nodes0.Keys
      invariant forall x :: x in nodes0 ==> Le(nodes[x].distance, nodes0[x].distance)
      invariant TableInv(edges, start, nodes, lg) && Closed(edges, nodes, None)
      invariant |VisitedSet(nodes)| == i
    {
      var selected := Closest(order, nodes);
      ClosestFacts(order, nodes);
      if selected.None? {
        return;
      }
      var u := selected.value;
      Mark(edges, start, nodes, lg, u);
      var marked := Visit(nodes, u);
      assert |VisitedSet(marked)| == i + 1;
      ghost var before := nodes;
      nodes, lg := RelaxNeighbours(edges, start, marked, Stamp(lg, u), u);
      RoundLowers(nodes0, before, u, nodes);
      assert VisitedSet(nodes) == VisitedSet(marked);
    }
    Filled(nodes, vertices);
  }

  /** The path reconstruction of code/pathfinding.py: put `end`, its predecessor and so on in front
      until `start` is reached, then put `start` in front. The result runs along a walk of weight
      `nodes[end]["distance"]`, which is the shortest distance. */
  method WalkBack(edges: seq<Edge>, start: Vertex, end: Vertex, nodes: map<Vertex, Node>, ghost lg: Ledger)
    returns (path: seq<Vertex>)
    requires TableInv(edges, start, nodes, lg) && end in nodes && nodes[end].visited && nodes[end].distance.Fin?
    ensures IsShortest(edges, start, end, nodes[end].distance)
    ensures Realises(edges, start, end, path, nodes[end].distance.n)
    ensures end == start ==> path == [start]
  {
    path := [];
    var current := end;
    ghost var wc: seq<Edge> := [];
    while current != start
      invariant current in nodes && nodes[current].visited && nodes[current].distance.Fin? && current in lg.rank
      invariant end == start ==> current == start && path == []
      invariant Trail(edges, current, end, [current] + path, wc, nodes[end].distance.n - nodes[current].distance.n)
      decreases lg.rank[current]
    {
      wc := PredStep(edges, start, nodes, lg, end, [current] + path, wc, current);
      path := [current] + path;
      current := nodes[current].predecessor.value;
    }
    path := [start] + path;
    VisitedShortest(edges, start, nodes, lg, end, wc);
  }

  // ---------------------------------------------------------------------------
  // The strategies

  /** `type_1` as written: the source is the earliest vertex of the start label and the
      destinations are the end label's vertices by increasing instant, but the test
      `path != {}` compares the list returned by `bellman_ford` with a dict, which holds for
      every list, so the first destination is returned whether or not it was reached. The
      failure value of `bellman_ford` here is the list `[]`, wrapped as `VertexList([])`. */
  method Type1AsWritten(vertices: seq<Vertex>, edges: seq<Edge>, start: Label, end: Label)
    returns (r: Option<seq<Hop>>)
    requires Within(edges, vertices) && NonNegative(edges)
    requires Group(vertices, start) != []
    ensures FirstOnly(edges, Fan(MinBy(Group(vertices, start), Instant), SortBy(Group(vertices, end), Instant, false)), r)
  {
    var clusters, _ := ClusterByLabel(vertices);
    var source := MinBy(Cluster(clusters, start), Instant);
    var destinations := SortBy(Cluster(clusters, end), Instant, false);
    ghost var cs := Fan(source, destinations);
    SortedMembers(vertices, end, false);
    for i := 0 to |destinations|
      invariant i == 0
    {
      var distance, path := BellmanFord(vertices, edges, source, destinations[i]);
      // `path != {}`: a list is never equal to a dict
      if VertexList(path) != EmptyDict {
        if path != [] {
          Found(edges, cs[0], path, distance);
        }
        r := Some(Compact(path));
        return;
      }
    }
    r := None;
  }

  /** `type_1` as evidently intended: the first destination, by increasing instant, that the
      earliest vertex of the start label reaches; `None` when it reaches none. */
  method Type1(vertices: seq<Vertex>, edges: seq<Edge>, start: Label, end: Label)
    returns (r: Option<seq<Hop>>)
    requires Within(edges, vertices) && NonNegative(edges)
    requires Group(vertices, start) != []
    ensures Answer(edges, Fan(MinBy(Group(vertices, start), Instant), SortBy(Group(vertices, end), Instant, false)), r)
  {
    var clusters, _ := ClusterByLabel(vertices);
    var source := MinBy(Cluster(clusters, start), Instant);
    var destinations := SortBy(Cluster(clusters, end), Instant, false);
    ghost var cs := Fan(source, destinations);
    SortedMembers(vertices, end, false);
    for i := 0 to |destinations|
      invariant Unlinked(edges, cs[..i])
    {
      var distance, path := BellmanFord(vertices, edges, source, destinations[i]);
      if path != [] {
        Found(edges, cs[i], path, distance);
        FirstLinkHere(edges, cs, i);
        r := Some(Compact(path));
        return;
      }
      UnlinkedNext(edges, cs, i);
    }
    UnlinkedAll(edges, cs);
    r := None;
  }

  /** `type_2`: the sources are the start label's vertices by decreasing instant and the
      destination is the latest vertex of the end label; the first source that reaches it
      wins, `None` when none does. */
  method Type2(vertices: seq<Vertex>, edges: seq<Edge>, start: Label, end: Label)
    returns (r: Option<seq<Hop>>)
    requires Within(edges, vertices) && NonNegative(edges)
    requires Group(vertices, end) != []
    ensures Answer(edges, Funnel(SortBy(Group(vertices, start), Instant, true), MaxBy(Group(vertices, end), Instant)), r)
  {
    var clusters, _ := ClusterByLabel(vertices);
    var sources := SortBy(Cluster(clusters, start), Instant, true);
    var destination := MaxBy(Cluster(clusters, end), Instant);
    ghost var cs := Funnel(sources, destination);
    var _ := MaxByFacts(Group(vertices, end), Instant);
    GroupMembers(vertices, end);
    for i := 0 to |sources|
      invariant Unlinked(edges, cs[..i])
    {
      var distance, path := BellmanFord(vertices, edges, sources[i], destination);
      if path != [] {
        Found(edges, cs[i], path, distance);
        FirstLinkHere(edges, cs, i);
        r := Some(Compact(path));
        return;
      }
      UnlinkedNext(edges, cs, i);
    }
    UnlinkedAll(edges, cs);
    r := None;
  }

  /** `type_3`: every (start vertex, end vertex) pair whose arrival is later than its departure,
      grouped by duration and tried by increasing duration, each group in the order of the
      nested loop; the first pair that links wins, `None` when none does. */
  method Type3(vertices: seq<Vertex>, edges: seq<Edge>, start: Label, end: Label)
    returns (r: Option<seq<Hop>>)
    requires Within(edges, vertices) && NonNegative(edges)
    ensures Answer(edges, Schedule(Pairs(Group(vertices, start), Group(vertices, end))), r)
  {
    var dictemps, tri := DurationBuckets(vertices, start, end);
    ghost var ps := Pairs(Group(vertices, start), Group(vertices, end));
    ghost var cs := Schedule(ps);
    ScheduleNames(vertices, start, end);
    for b := 0 to |tri|
      invariant Unlinked(edges, Buckets(ps, tri[..b]))
    {
      var possiblePaths := dictemps[tri[b]];
      for i := 0 to |possiblePaths|
        invariant Unlinked(edges, Buckets(ps, tri[..b]) + possiblePaths[..i])
      {
        var (source, destination) := possiblePaths[i];
        ghost var k := BucketCandidate(edges, ps, tri, b, i);
        assert cs[k] in cs;
        var distance, path := BellmanFord(vertices, edges, source, destination);
        if path != [] {
          Found(edges, cs[k], path, distance);
          FirstLinkHere(edges, cs, k);
          r := Some(Compact(path));
          return;
        }
        UnlinkedSnoc(edges, Buckets(ps, tri[..b]), possiblePaths, i);
      }
      UnlinkedBucket(edges, ps, tri, b);
    }
    UnlinkedBuckets(edges, ps, tri);
    r := None;
  }

  /** `type_4`: the last vertex of each label (`{v[0]: v for v in vertices}` keeps the last),
      one `bellman_ford` run between them, and its path compacted into hops. A missing label
      raises `KeyError`. The distance is the shortest one when the path is found and infinite
      otherwise (also when both labels name the same vertex). */
  method Type4(e: seq<Vertex>, a: seq<Edge>, s: Label, d: Label) returns (pathInG: seq<Hop>, dis: Ext)
    requires Within(a, e) && NonNegative(a)
    requires Group(e, s) != [] && Group(e, d) != []
    ensures var src, dst := Group(e, s)[|Group(e, s)| - 1], Group(e, d)[|Group(e, d)| - 1];
      (Connects(a, src, dst) ==> dis.Fin? && IsShortest(a, src, dst, dis) && ShortestHops(a, (src, dst), pathInG)) &&
      (!Connects(a, src, dst) ==> dis == Inf && pathInG == [])
  {
    var clustered := Latest(e);
    LatestFacts(e, s);
    LatestFacts(e, d);
    GroupMembers(e, d);
    var path;
    dis, path := BellmanFord(e, a, clustered[s], clustered[d]);
    pathInG := CompactHops(path);
    if path != [] {
      Found(a, (clustered[s], clustered[d]), path, dis);
    }
  }

}
