/** The engines and strategies of projet.py, the earlier single-file version of the program. */
module Projet {
  import opened Types
  import opened Walks
  import opened Graph
  import opened Selection
  import opened Hops
  import opened Relaxation
  import opened Frontier
  import opened Answers

  // ---------------------------------------------------------------------------
  // bellman_ford

  /** `bellman_ford` of projet.py. The table holds exactly the vertices. The failure value is
      the empty dictionary, returned exactly when no walk leads from `start` to a different `end`;
      otherwise the distance is the shortest distance and the list runs from `start` to `end`
      along a walk of exactly that weight. */
  method BellmanFord(vertices: seq<Vertex>, edges: seq<Edge>, start: Vertex, end: Vertex)
    returns (distance: Ext, path: PathValue)
    requires Within(edges, vertices) && NonNegative(edges)
    requires end in vertices
    ensures path == EmptyDict <==> !Connects(edges, start, end)
    ensures path == EmptyDict ==> distance == Inf
    ensures path.VertexList? ==>
      distance.Fin? && IsShortest(edges, start, end, distance) &&
      Realises(edges, start, end, path.items, distance.n)
  {
    var dist: map<Vertex, Ext> := map[];
    for i := 0 to |vertices|
      invariant forall v :: v in dist <==> v in vertices[..i]
      invariant Initial(dist, start)
    {
      if vertices[i] == start {
        dist := dist[vertices[i] := Fin(0)];
      } else {
        dist := dist[vertices[i] := Inf];
      }
    }
    assert vertices[..|vertices|] == vertices;
    var parents;
    ghost var tr;
    dist, parents, tr := RelaxPasses(vertices, edges, start, dist);
    distance := dist[end];
    if end in parents {
      var items := FollowParents(edges, start, end, dist, parents, tr);
      path := VertexList(items);
    } else {
      distance, path := Inf, EmptyDict;
    }
  }

  /** The reconstruction of projet.py: start from `[parents[end], end]` and put the parent of the
      first vertex in front until that vertex is `start`. The result runs along a walk of weight
      `distances[end]`. */
  method FollowParents(edges: seq<Edge>, start: Vertex, end: Vertex, dist: map<Vertex, Ext>,
                       parents: map<Vertex, Vertex>, ghost tr: Trace) returns (path: seq<Vertex>)
    requires NonNegative(edges) && Outcome(edges, start, dist, parents, tr) && end in parents
    ensures Realises(edges, start, end, path, dist[end].n)
  {
    ghost var wc: seq<Edge> := BackStart(edges, start, dist, parents, tr, end);
    var parent := parents[end];
    path := [parent, end];
    while parent != start
      invariant Behind(edges, dist, tr, end, parent, path, wc)
      decreases dist[parent].n, tr.stamp[parent]
    {
      wc := BackStep(edges, start, dist, parents, tr, end, path, wc, parent);
      path := [parents[parent]] + path;
      parent := parents[parent];
    }
    BackDone(edges, start, dist, tr, end, path, wc);
  }

  /** `p` lists the vertices of a walk `wc` from `x` to `end` whose weight is the difference of
      their (finite) distances. */
  ghost predicate Behind(E: seq<Edge>, dist: map<Vertex, Ext>, tr: Trace, end: Vertex, x: Vertex,
                         p: seq<Vertex>, wc: seq<Edge>)
  {
    x in dist && dist[x].Fin? && dist[x].n >= 0 && x in tr.stamp && end in dist && dist[end].Fin? &&
    Trail(E, x, end, p, wc, dist[end].n - dist[x].n)
  }

  /** The reconstruction starts behind `end`, at its parent. */
  lemma BackStart(E: seq<Edge>, start: Vertex, dist: map<Vertex, Ext>, parents: map<Vertex, Vertex>, tr: Trace,
                  end: Vertex) returns (wc: seq<Edge>)
    requires NonNegative(E) && Outcome(E, start, dist, parents, tr) && end in parents
    ensures Behind(E, dist, tr, end, parents[end], [parents[end], end], wc)
  {
    assert ParentOk(E, dist, parents, tr, end);
    ShortestNonNegative(E, start, end, dist[end]);
    wc := BackStep(E, start, dist, parents, tr, end, [end], [], end);
  }

  /** One step back along the parents: a vertex `x` other than `start` with a finite distance has a
      parent, the trail extends to it, and it comes strictly earlier in the order of distances and
      stamps. */
  lemma BackStep(E: seq<Edge>, start: Vertex, dist: map<Vertex, Ext>, parents: map<Vertex, Vertex>, tr: Trace,
                 end: Vertex, p: seq<Vertex>, wc: seq<Edge>, x: Vertex) returns (wc': seq<Edge>)
    requires NonNegative(E) && Outcome(E, start, dist, parents, tr)
    requires x != start && Behind(E, dist, tr, end, x, p, wc)
    ensures x in parents
    ensures var y := parents[x];
      Behind(E, dist, tr, end, y, [y] + p, wc') &&
      (dist[y].n < dist[x].n || (dist[y].n == dist[x].n && tr.stamp[y] < tr.stamp[x]))
  {
    assert ParentOk(E, dist, parents, tr, x);
    var e := tr.pe[x];
    Prepend(E, e, wc);
    wc' := [e] + wc;
    ShortestNonNegative(E, start, parents[x], dist[parents[x]]);
  }

  /** Behind `end` at `start`, the list realises the distance of `end`. */
  lemma BackDone(E: seq<Edge>, start: Vertex, dist: map<Vertex, Ext>, tr: Trace, end: Vertex, p: seq<Vertex>, wc: seq<Edge>)
    requires Behind(E, dist, tr, end, start, p, wc) && dist[start] == Fin(0)
    ensures Realises(E, start, end, p, dist[end].n)
  {
  }

  // ---------------------------------------------------------------------------
  // dijkstra

  /** `dijkstra` of projet.py, for a start and an end among the vertices; the end must differ
      from the start, since the reconstruction looks up the predecessor of `None` otherwise. Its
      loop runs once per entry of `vertices`, and in the end every vertex with a finite distance is
      visited. The failure value is the empty dictionary, returned exactly when `end` is
      unreachable; otherwise the distance is the shortest distance and the list runs from `start`
      to `end` along a walk of that weight. */
  method Dijkstra(vertices: seq<Vertex>, edges: seq<Edge>, start: Vertex, end: Vertex)
    returns (distance: Ext, path: PathValue)
    requires Leads(edges, set v | v in vertices) && NonNegative(edges)
    requires start in vertices && end in vertices && end != start
    ensures path == EmptyDict <==> !Reachable(edges, start, end)
    ensures path == EmptyDict ==> distance == Inf
    ensures path.VertexList? ==>
      distance.Fin? && IsShortest(edges, start, end, distance) &&
      Realises(edges, start, end, path.items, distance.n)
  {
    var nodes: map<Vertex, Node> := map[];
    for i := 0 to |vertices|
      invariant nodes.Keys == set v | v in vertices[..i]
      invariant forall x :: x in nodes ==> nodes[x] == Node(Inf, false, None)
    {
      nodes := nodes[vertices[i] := Node(Inf, false, None)];
    }
    assert vertices[..|vertices|] == vertices;
    nodes := nodes[start := nodes[start].(predecessor := None)];
    nodes := nodes[start := nodes[start].(distance := Fin(0))];
    Start(edges, start, nodes);
    ghost var lg;
    nodes, lg := VisitAll(vertices, edges, start, nodes, Ledger(map[], map[], 0));
    if nodes[end].distance != Inf {
      var items := WalkBack(edges, start, end, nodes, lg);
      distance, path := nodes[end].distance, VertexList(items);
    } else {
      forall w | IsWalk(edges, start, w) ensures Stop(start, w) != end {
        StaysFinite(edges, start, nodes, lg, w);
      }
      distance, path := Inf, EmptyDict;
    }
  }

  /** What the scan selects: when no unvisited vertex of `order` has a finite distance, the
      previous selection `prior`; otherwise an unvisited vertex at a finite distance that is
      closest among the unvisited ones and strictly closer than every unvisited vertex before it. */
  predicate Picks(order: seq<Vertex>, nodes: map<Vertex, Node>, prior: Option<Vertex>, selected: Option<Vertex>)
    requires forall x :: x in order ==> x in nodes
  {
    ((forall x :: x in order ==> nodes[x].visited || nodes[x].distance.Inf?) ==> selected == prior) &&
    (!(forall x :: x in order ==> nodes[x].visited || nodes[x].distance.Inf?) ==>
      selected.Some? && selected.value in order &&
      var u := selected.value;
      !nodes[u].visited && nodes[u].distance.Fin? &&
      (forall y :: y in order && !nodes[y].visited ==> Le(nodes[u].distance, nodes[y].distance)) &&
      (forall j :: 0 <= j < |order| && order[j] == u ==>
        forall k :: 0 <= k < j && !nodes[order[k]].visited ==> Lt(nodes[u].distance, nodes[order[k]].distance)))
  }

  /** The scan of projet.py for the next vertex: among the unvisited vertices, in the order of
      `order`, the first one whose distance is strictly below every earlier one, starting from an
      infinite bound. When no unvisited vertex has a finite distance, the previous selection stays. */
  method ScanClosest(order: seq<Vertex>, nodes: map<Vertex, Node>, prior: Option<Vertex>)
    returns (selected: Option<Vertex>)
    requires forall x :: x in order ==> x in nodes
    requires NoDup(order)
    ensures Picks(order, nodes, prior, selected)
  {
    var minDist := Inf;
    selected := prior;
    for i := 0 to |order|
      invariant minDist.Inf? <==> forall x :: x in order[..i] ==> nodes[x].visited || nodes[x].distance.Inf?
      invariant minDist.Inf? ==> selected == prior
      invariant minDist.Fin? ==>
        selected.Some? && selected.value in order[..i] &&
        var u := selected.value;
        !nodes[u].visited && nodes[u].distance == minDist &&
        (forall y :: y in order[..i] && !nodes[y].visited ==> Le(minDist, nodes[y].distance)) &&
        (forall j :: 0 <= j < i && order[j] == u ==>
          forall k :: 0 <= k < j && !nodes[order[k]].visited ==> Lt(minDist, nodes[order[k]].distance))
    {
      var x := order[i];
      assert order[..i + 1] == order[..i] + [x];
      if !nodes[x].visited {
        if Lt(nodes[x].distance, minDist) {
          minDist := nodes[x].distance;
          selected := Some(x);
        }
      }
    }
    assert order[..|order|] == order;
  }

  /** The main loop of projet.py: as many rounds as there are entries of `vertices`, each
      visiting the selected vertex and relaxing the edges leaving it. A round that finds no
      unvisited vertex at a finite distance reuses the previous selection and then changes
      nothing. In the end every vertex at a finite distance is visited. */
  method VisitAll(vertices: seq<Vertex>, edges: seq<Edge>, start: Vertex, nodes0: map<Vertex, Node>, ghost lg0: Ledger)
    returns (nodes: map<Vertex, Node>, ghost lg: Ledger)
    requires NonNegative(edges) && nodes0.Keys == set v | v in vertices
    requires TableInv(edges, start, nodes0, lg0) && Closed(edges, nodes0, None) && VisitedSet(nodes0) == {}
    ensures TableInv(edges, start, nodes, lg) && Closed(edges, nodes, None) && nodes.Keys == nodes0.Keys
    ensures Exhausted(nodes)
    ensures forall x :: x in nodes0 ==> Le(nodes[x].distance, nodes0[x].distance)
  {
    nodes, lg := nodes0, lg0;
    var order := Dedup(vertices);
    DedupFacts(vertices);
    assert forall x :: x in order <==> x in nodes0;
    var selected: Option<Vertex> := None;
    var visitedCount := 0;
    while visitedCount < |vertices|
      invariant 0 <= visitedCount <= |vertices| && nodes.Keys == nodes0.Keys
      invariant forall x :: x in nodes0 ==> Le(nodes[x].distance, nodes0[x].distance)
      invariant Rounds(edges, start, nodes, lg, visitedCount, selected)
    {
      assert forall x :: x in order <==> x in nodes;
      ghost var prior := selected;
      selected := ScanClosest(order, nodes, selected);
      lg := Round(edges, start, nodes, lg, order, visitedCount, prior, selected);
      var u := selected.value;
      ghost var before := nodes;
      nodes := Visit(nodes, u);
      visitedCount := visitedCount + 1;
      nodes, lg := RelaxNeighbours(edges, start, nodes, lg, u);
      RoundLowers(nodes0, before, u, nodes);
    }
    if |VisitedSet(nodes)| == |vertices| {
      Filled(nodes, vertices);
    }
  }

  /** What the rounds keep: the invariant of the table, every edge leaving a visited vertex
      relaxed, the last selection the farthest visited vertex, and each round so far having
      visited a new vertex unless every vertex at a finite distance is visited already. */
  ghost predicate Rounds(E: seq<Edge>, start: Vertex, N: map<Vertex, Node>, lg: Ledger, count: nat,
                         selected: Option<Vertex>)
  {
    TableInv(E, start, N, lg) && Closed(E, N, None) &&
    (count == 0 ==> VisitedSet(N) == {}) &&
    (count > 0 ==> selected.Some? && Peak(N, selected.value)) &&
    (|VisitedSet(N)| == count || Exhausted(N))
  }

  /** One round up to the relaxation: the scan selects a vertex (in the first round `start`, at
      distance 0), and visiting it either visits a new closest vertex, or, when no unvisited vertex
      is at a finite distance, changes nothing. */
  lemma Round(E: seq<Edge>, start: Vertex, N: map<Vertex, Node>, lg: Ledger, order: seq<Vertex>, count: nat,
              prior: Option<Vertex>, selected: Option<Vertex>) returns (lg': Ledger)
    requires NonNegative(E) && Rounds(E, start, N, lg, count, prior)
    requires forall x :: x in order <==> x in N
    requires Picks(order, N, prior, selected)
    ensures selected.Some? && selected.value in N
    ensures var u := selected.value;
      TableInv(E, start, Visit(N, u), lg') && Closed(E, Visit(N, u), Some(u)) && Peak(Visit(N, u), u) &&
      (|VisitedSet(Visit(N, u))| == count + 1 || (Exhausted(Visit(N, u)) && Closed(E, Visit(N, u), None)))
  {
    if count == 0 {
      assert start !in VisitedSet(N);
    }
    var u := selected.value;
    if !N[u].visited {
      Mark(E, start, N, lg, u);
      lg' := Stamp(lg, u);
    } else {
      assert Visit(N, u) == N;
      lg' := lg;
    }
  }

  /** The path reconstruction of projet.py: start from `[predecessor of end, end]` and put the
      predecessor of the first vertex in front until that vertex is `start`. The result runs along
      a walk of weight `nodes[end]["distance"]`, which is the shortest distance. */
  method WalkBack(edges: seq<Edge>, start: Vertex, end: Vertex, nodes: map<Vertex, Node>, ghost lg: Ledger)
    returns (path: seq<Vertex>)
    requires TableInv(edges, start, nodes, lg) && end in nodes && end != start
    requires nodes[end].visited && nodes[end].distance.Fin?
    ensures IsShortest(edges, start, end, nodes[end].distance)
    ensures Realises(edges, start, end, path, nodes[end].distance.n)
  {
    ghost var wc: seq<Edge> := PredStep(edges, start, nodes, lg, end, [end], [], end);
    var parent := nodes[end].predecessor.value;
    path := [parent, end];
    while parent != start
      invariant parent in nodes && nodes[parent].visited && nodes[parent].distance.Fin? && parent in lg.rank
      invariant Trail(edges, parent, end, path, wc, nodes[end].distance.n - nodes[parent].distance.n)
      decreases lg.rank[parent]
    {
      wc := PredStep(edges, start, nodes, lg, end, path, wc, parent);
      path := [nodes[parent].predecessor.value] + path;
      parent := nodes[parent].predecessor.value;
    }
    VisitedShortest(edges, start, nodes, lg, end, wc);
  }

  // ---------------------------------------------------------------------------
  // The strategies

  /** `type_1` of projet.py: the earliest vertex of the start label is the source; the end
      label's vertices are tried by increasing instant until `bellman_ford` does not return the
      empty dict; the path found is compacted into hops, and `None` is returned when no
      destination is reached. */
  method Type1(vertices: seq<Vertex>, edges: seq<Edge>, start: Label, end: Label)
    returns (r: Option<seq<Hop>>)
    requires Within(edges, vertices) && NonNegative(edges)
    requires Group(vertices, start) != []
    ensures Answer(edges, Fan(MinBy(Group(vertices, start), Instant), SortBy(Group(vertices, end), Instant, false)), r)
  {
    var clusters, _ := ClusterByLabel(vertices);
    var source := MinBy(Cluster(clusters, start), Instant);
    var destinations := SortBy(Cluster(clusters, end), Instant, false);
    ghost var cs := Fan(source, destinations);
    SortedMembers(vertices, end, false);
    var pathFound := false;
    var path := EmptyDict;
    ghost var chosen := 0;
    for i := 0 to |destinations|
      invariant !pathFound && Unlinked(edges, cs[..i])
    {
      var distance;
      distance, path := BellmanFord(vertices, edges, source, destinations[i]);
      if path == EmptyDict {
      } else {
        pathFound := true;
        Found(edges, cs[i], path.items, distance);
        FirstLinkHere(edges, cs, i);
        chosen := i;
        break;
      }
      UnlinkedNext(edges, cs, i);
    }
    if pathFound {
      var pathInG := CompactHops(path.items);
      r := Some(pathInG);
    } else {
      UnlinkedAll(edges, cs);
      r := None;
    }
  }

  /** `type_2` of projet.py: the latest vertex of the end label is the destination; the start
      label's vertices are tried by decreasing instant until one reaches it; `None` when none
      does. */
  method Type2(vertices: seq<Vertex>, edges: seq<Edge>, start: Label, end: Label)
    returns (r: Option<seq<Hop>>)
    requires Within(edges, vertices) && NonNegative(edges)
    requires Group(vertices, end) != []
    ensures Answer(edges, Funnel(SortBy(Group(vertices, start), Instant, true), MaxBy(Group(vertices, end), Instant)), r)
  {
    var clusters, _ := ClusterByLabel(vertices);
    var sources := SortBy(Cluster(clusters, start), Instant, true);
    var destination := MaxBy(Cluster(clusters, end), Instant);
    ghost var cs := Funnel(sources, destination);
    var _ := MaxByFacts(Group(vertices, end), Instant);
    GroupMembers(vertices, end);
    var pathFound := false;
    var path := EmptyDict;
    ghost var chosen := 0;
    for i := 0 to |sources|
      invariant !pathFound && Unlinked(edges, cs[..i])
    {
      var distance;
      distance, path := BellmanFord(vertices, edges, sources[i], destination);
      if path == EmptyDict {
      } else {
        pathFound := true;
        Found(edges, cs[i], path.items, distance);
        FirstLinkHere(edges, cs, i);
        chosen := i;
        break;
      }
      UnlinkedNext(edges, cs, i);
    }
    if pathFound {
      var pathInG := CompactHops(path.items);
      r := Some(pathInG);
    } else {
      UnlinkedAll(edges, cs);
      r := None;
    }
  }

  /** `type_3` of projet.py as written. The `break` leaves only the inner loop, so every
      duration bucket is tried and `path` ends up holding the last `bellman_ford` result of the
      LAST bucket: the path of its first linked pair, or the empty dict (hence no hops) when
      none of its pairs links, even if an earlier, shorter bucket had one. `path_found` is only
      ever bound to `True`; when no pair links at all it stays unbound and reading it raises
      `NameError`, which the precondition excludes. */
  method Type3AsWritten(vertices: seq<Vertex>, edges: seq<Edge>, start: Label, end: Label)
    returns (r: Option<seq<Hop>>)
    requires Within(edges, vertices) && NonNegative(edges)
    requires !Unlinked(edges, Schedule(Pairs(Group(vertices, start), Group(vertices, end))))
    ensures var ps := Pairs(Group(vertices, start), Group(vertices, end));
      Tri(ps) != [] && r.Some? && BucketHops(edges, LastBucket(ps), r.value)
  {
    var dictemps, tri := DurationBuckets(vertices, start, end);
    ghost var ps := Pairs(Group(vertices, start), Group(vertices, end));
    var pathFound := false;
    var path := EmptyDict;
    ghost var last: seq<Pair> := [];
    for key := 0 to |tri|
      invariant pathFound <==> !Unlinked(edges, Buckets(ps, tri[..key]))
      invariant key > 0 ==> last == Bucket(ps, tri[key - 1]) && LastTry(edges, last, path)
    {
      var possiblePaths := dictemps[tri[key]];
      BucketNames(vertices, start, end, tri[key]);
      ghost var foundBefore := pathFound;
      ghost var hit, chosen := false, 0;
      for i := 0 to |possiblePaths|
        invariant !hit && pathFound == foundBefore
        invariant Unlinked(edges, possiblePaths[..i]) && (i > 0 ==> path == EmptyDict)
      {
        var (source, destination) := possiblePaths[i];
        assert possiblePaths[i] in possiblePaths;
        var distance;
        distance, path := BellmanFord(vertices, edges, source, destination);
        if path == EmptyDict {
        } else {
          pathFound := true;
          Found(edges, possiblePaths[i], path.items, distance);
          FirstLinkHere(edges, possiblePaths, i);
          hit, chosen := true, i;
          break;
        }
        UnlinkedNext(edges, possiblePaths, i);
      }
      if hit {
        assert FirstLink(edges, possiblePaths, chosen) && Finds(edges, possiblePaths[chosen], path.items);
      } else {
        UnlinkedAll(edges, possiblePaths);
        assert path == EmptyDict;
      }
      assert LastTry(edges, possiblePaths, path);
      last := possiblePaths;
      assert last == Bucket(ps, tri[key]);
      BucketsNext(ps, tri, key);
      UnlinkedConcat(edges, Buckets(ps, tri[..key]), possiblePaths);
    }
    assert tri[..|tri|] == tri;
    // `path_found` is bound: some pair linked
    assert pathFound;
    var pathInG := CompactHops(Items(path));
    LastTryHops(edges, Bucket(ps, tri[|tri| - 1]), path);
    r := Some(pathInG);
  }

  /** `type_3` as evidently intended: the search stops at the first linked pair in order of
      increasing duration, and `None` is returned when no pair links. */
  method Type3(vertices: seq<Vertex>, edges: seq<Edge>, start: Label, end: Label)
    returns (r: Option<seq<Hop>>)
    requires Within(edges, vertices) && NonNegative(edges)
    ensures Answer(edges, Schedule(Pairs(Group(vertices, start), Group(vertices, end))), r)
  {
    var dictemps, tri := DurationBuckets(vertices, start, end);
    ghost var ps := Pairs(Group(vertices, start), Group(vertices, end));
    ghost var cs := Schedule(ps);
    ScheduleNames(vertices, start, end);
    var pathFound := false;
    var path := EmptyDict;
    ghost var chosen := 0;
    for key := 0 to |tri|
      invariant !pathFound && Unlinked(edges, Buckets(ps, tri[..key]))
    {
      var possiblePaths := dictemps[tri[key]];
      for i := 0 to |possiblePaths|
        invariant !pathFound && Unlinked(edges, Buckets(ps, tri[..key]) + possiblePaths[..i])
      {
        var (source, destination) := possiblePaths[i];
        ghost var k := BucketCandidate(edges, ps, tri, key, i);
        assert cs[k] in cs;
        var distance;
        distance, path := BellmanFord(vertices, edges, source, destination);
        if path == EmptyDict {
        } else {
          pathFound := true;
          Found(edges, cs[k], path.items, distance);
          FirstLinkHere(edges, cs, k);
          chosen := k;
          break;
        }
        UnlinkedSnoc(edges, Buckets(ps, tri[..key]), possiblePaths, i);
      }
      if pathFound {
        break;
      }
      UnlinkedBucket(edges, ps, tri, key);
    }
    if pathFound {
      var pathInG := CompactHops(Items(path));
      r := Some(pathInG);
    } else {
      UnlinkedBuckets(edges, ps, tri);
      r := None;
    }
  }

  /** `type_4` of projet.py: the first vertex of each label in vertex order, one `bellman_ford`
      run between them, and its path compacted into hops (none for the empty dict). A label
      without vertices raises `IndexError`. */
  method Type4(e: seq<Vertex>, a: seq<Edge>, s: Label, d: Label) returns (pathInG: seq<Hop>, dis: Ext)
    requires Within(a, e) && NonNegative(a)
    requires Group(e, s) != [] && Group(e, d) != []
    ensures var src, dst := Group(e, s)[0], Group(e, d)[0];
      (Connects(a, src, dst) ==> dis.Fin? && IsShortest(a, src, dst, dis) && ShortestHops(a, (src, dst), pathInG)) &&
      (!Connects(a, src, dst) ==> dis == Inf && pathInG == [])
  {
    var clusters, _ := ClusterByLabel(e);
    GroupMembers(e, d);
    var source, destination := Cluster(clusters, s)[0], Cluster(clusters, d)[0];
    assert destination in Group(e, d);
    var path;
    dis, path := BellmanFord(e, a, source, destination);
    pathInG := CompactHops(Items(path));
    if path.VertexList? {
      Found(a, (source, destination), path.items, dis);
    }
  }
}
