/** Two temporal graphs on which a strategy as written answers differently from the strategy
    as evidently intended. Both graphs are built from their records by `buildGraph`. */
module Counterexamples {
  import opened Types
  import opened Walks
  import opened Graph
  import opened Selection
  import opened Hops
  import opened Answers

  /** No walk leaves a set of vertices that no edge leaves. */
  lemma {:induction false} StaysIn(E: seq<Edge>, S: set<Vertex>, s: Vertex, w: seq<Edge>)
    requires s in S && IsWalk(E, s, w)
    requires forall e :: e in E && e.u in S ==> e.v in S
    ensures Stop(s, w) in S
    decreases |w|
  {
    if w != [] {
      StaysIn(E, S, s, w[..|w| - 1]);
    }
  }

  /** A vertex outside a set that no edge leaves is out of reach from inside it. */
  lemma Unreachable(E: seq<Edge>, S: set<Vertex>, s: Vertex, d: Vertex)
    requires s in S && d !in S
    requires forall e :: e in E && e.u in S ==> e.v in S
    ensures !Reachable(E, s, d)
  {
    forall w | IsWalk(E, s, w) ensures Stop(s, w) != d {
      StaysIn(E, S, s, w);
    }
  }

  /** An edge is a walk. */
  lemma OneEdge(E: seq<Edge>, e: Edge)
    requires e in E && e.u != e.v
    ensures Connects(E, e.u, e.v)
  {
    Extend(E, e.u, [], e);
    assert [] + [e] == [e];
  }

  /** Whatever satisfies `Answer` is a non-empty hop list from the first linked candidate's
      source label to its destination label. */
  lemma AnswerRoute(E: seq<Edge>, cs: seq<Pair>, k: int)
    requires FirstLink(E, cs, k) && cs[k].0.name != cs[k].1.name
    ensures forall r :: Answer(E, cs, r) ==>
      r.Some? && r.value != [] && r.value[0].fromLabel == cs[k].0.name && r.value[|r.value| - 1].toLabel == cs[k].1.name
  {
    forall r | Answer(E, cs, r)
      ensures r.Some? && r.value != [] && r.value[0].fromLabel == cs[k].0.name && r.value[|r.value| - 1].toLabel == cs[k].1.name
    {
      assert !Unlinked(E, cs);
      var k' :| FirstLink(E, cs, k') && ShortestHops(E, cs[k'], r.value);
      FirstLinkUnique(E, cs, k, k');
      HopsRoute(E, cs[k], r.value);
    }
  }

  /** When the first candidate does not link, whatever satisfies `FirstOnly` is `Some([])`. */
  lemma FirstMissed(E: seq<Edge>, cs: seq<Pair>)
    requires cs != [] && !Links(E, cs[0])
    ensures forall r :: FirstOnly(E, cs, r) ==> r == Some([])
  {
  }

  /** When no pair of a bucket links, the bucket's hop list is empty. */
  lemma NoHops(E: seq<Edge>, b: seq<Pair>)
    requires Unlinked(E, b)
    ensures forall h :: BucketHops(E, b, h) ==> h == []
  {
  }

  // ---------------------------------------------------------------------------
  // The graph that buildGraph builds from two records

  /** The vertex list of `buildGraph`. */
  function VerticesOf(P: seq<Record>): seq<Vertex>
  {
    Dedup(Endpoints(P))
  }

  /** The edge list of `buildGraph`: travel edges, then the waiting chains label by label. */
  function EdgesOf(P: seq<Record>): seq<Edge>
  {
    TravelEdges(P) + WaitingEdges(VerticesOf(P), Labels(VerticesOf(P)))
  }

  /** The four endpoints of two records, in record order. */
  function Ends(x: Record, y: Record): seq<Vertex>
  {
    [TravelEdge(x).u, TravelEdge(x).v, TravelEdge(y).u, TravelEdge(y).v]
  }

  /** Two records with four distinct endpoints give those four vertices, in record order. */
  lemma TwoVertices(x: Record, y: Record)
    requires var w := Ends(x, y);
      w[0] != w[1] && w[0] != w[2] && w[0] != w[3] && w[1] != w[2] && w[1] != w[3] && w[2] != w[3]
    ensures VerticesOf([x, y]) == Ends(x, y)
  {
    var P, w := [x, y], Ends(x, y);
    assert Dedup(Endpoints(P[..1])) == [w[0], w[1]] by {
      RecordStep(P, 0);
      assert P[..0] == [];
      assert Dedup(Endpoints([])) == [];
    }
    assert Dedup(Endpoints(P[..2])) == w by {
      RecordStep(P, 1);
      assert w[2] !in [w[0], w[1]];
      assert w[3] !in [w[0], w[1], w[2]];
    }
    assert P[..2] == P;
  }

  lemma TwoTravel(x: Record, y: Record)
    ensures TravelEdges([x, y]) == [TravelEdge(x), TravelEdge(y)]
  {
  }

  /** The group of a label among four vertices. */
  lemma GroupOfFour(w1: Vertex, w2: Vertex, w3: Vertex, w4: Vertex, l: Label)
    ensures Group([w1, w2, w3, w4], l) ==
      (if w1.name == l then [w1] else []) + (if w2.name == l then [w2] else []) +
      (if w3.name == l then [w3] else []) + (if w4.name == l then [w4] else [])
  {
    var vs := [w1, w2, w3, w4];
    assert [w1][..0] == [];
    assert Group([w1], l) == if w1.name == l then [w1] else [];
    assert [w1, w2][..1] == [w1];
    assert Group([w1, w2], l) == Group([w1], l) + if w2.name == l then [w2] else [];
    assert [w1, w2, w3][..2] == [w1, w2];
    assert Group([w1, w2, w3], l) == Group([w1, w2], l) + if w3.name == l then [w3] else [];
    assert vs[..3] == [w1, w2, w3];
  }

  /** The labels of four vertices in order of first occurrence. */
  lemma LabelsOfFour(w1: Vertex, w2: Vertex, w3: Vertex, w4: Vertex)
    ensures Labels([w1, w2, w3, w4]) == AppendNew(AppendNew(AppendNew([w1.name], w2.name), w3.name), w4.name)
  {
    var vs := [w1, w2, w3, w4];
    assert [w1][..0] == [];
    assert Labels([w1]) == [w1.name];
    assert [w1, w2][..1] == [w1];
    assert Labels([w1, w2]) == AppendNew([w1.name], w2.name);
    assert [w1, w2, w3][..2] == [w1, w2];
    assert Labels([w1, w2, w3]) == AppendNew(AppendNew([w1.name], w2.name), w3.name);
    assert vs[..3] == [w1, w2, w3];
  }

  /** The waiting chains of three labels. */
  lemma WaitingOfThree(vs: seq<Vertex>, l1: Label, l2: Label, l3: Label)
    ensures WaitingEdges(vs, [l1, l2, l3]) == Chain(Group(vs, l1)) + Chain(Group(vs, l2)) + Chain(Group(vs, l3))
  {
    var ls := [l1, l2, l3];
    assert [l1][..0] == [];
    assert WaitingEdges(vs, [l1]) == Chain(Group(vs, l1));
    assert [l1, l2][..1] == [l1];
    assert WaitingEdges(vs, [l1, l2]) == Chain(Group(vs, l1)) + Chain(Group(vs, l2));
    assert ls[..2] == [l1, l2];
  }

  /** Chains through one and two vertices. */
  lemma ChainOf(g: seq<Vertex>)
    ensures |g| == 1 ==> Chain(g) == []
    ensures |g| == 2 ==> Chain(g) == [Edge(g[0], g[1], 0)]
  {
    if |g| == 2 {
      assert g[..1] == [g[0]];
    }
  }

  /** Within and NonNegative hold for the graph of records with non-negative durations. */
  lemma TwoRecordsWellFormed(x: Record, y: Record)
    requires x.l >= 0 && y.l >= 0
    ensures Within(EdgesOf([x, y]), VerticesOf([x, y])) && NonNegative(EdgesOf([x, y]))
  {
    BuiltEdgesWithin([x, y]);
  }

  // ---------------------------------------------------------------------------
  // The waiting chains of buildGraph

  /** The chains follow insertion order, so a waiting edge can go back in time: two records
      `x = (a, b, t, l)` and `y = (a, c, t', l')` with `t' < t` give the waiting edge
      `(a, t) -> (a, t')`. With `x = (a, b, 5, 1)` and `y = (a, c, 1, 1)` this is a concrete
      input. */
  lemma WaitingEdgeBackInTime(x: Record, y: Record)
    requires x.u == y.u && x.v != x.u && y.v != x.u && x.v != y.v && y.t < x.t
    ensures Edge(Vertex(x.u, x.t), Vertex(x.u, y.t), 0) in EdgesOf([x, y])
  {
    var u1, v1, u2, v2 := Vertex(x.u, x.t), Vertex(x.v, x.t + x.l), Vertex(y.u, y.t), Vertex(y.v, y.t + y.l);
    TwoVertices(x, y);
    BackChain(u1, v1, u2, v2);
    TwoTravel(x, y);
    var T, W := TravelEdges([x, y]), WaitingEdges([u1, v1, u2, v2], Labels([u1, v1, u2, v2]));
    assert EdgesOf([x, y]) == T + W;
    assert (T + W)[2] == W[0];
  }

  /** Four vertices whose first and third share a label: the chain of that label is first. */
  lemma BackChain(u1: Vertex, v1: Vertex, u2: Vertex, v2: Vertex)
    requires u1.name == u2.name && v1.name != u1.name && v2.name != u1.name && v1.name != v2.name
    ensures var W := WaitingEdges([u1, v1, u2, v2], Labels([u1, v1, u2, v2]));
      W != [] && W[0] == Edge(u1, u2, 0)
  {
    var V := [u1, v1, u2, v2];
    assert Group(V, u1.name) == [u1, u2] by { GroupOfFour(u1, v1, u2, v2, u1.name); }
    assert Labels(V) == [u1.name, v1.name, v2.name] by { LabelsOfFour(u1, v1, u2, v2); }
    WaitingOfThree(V, u1.name, v1.name, v2.name);
    ChainOf([u1, u2]);
  }



  // ---------------------------------------------------------------------------
  // type_1 of code/pathfinding.py

  /** Two records `x = (b, c, t, l)` and `y = (a, b, t', l')` with `t < t' + l'`: vertex
      `(b, t)` of `b` comes first, and `(b, t' + l')` is the arrival of `y`. */
  predicate EarlyShape(x: Record, y: Record)
  {
    x.u != x.v && y.u != x.u && y.u != x.v && y.v == x.u &&
    x.l >= 0 && y.l >= 0 && x.t < y.t + y.l
  }

  lemma EarlyGroups(x: Record, y: Record)
    requires EarlyShape(x, y)
    ensures var u1, v1, u2, v2 := Vertex(x.u, x.t), Vertex(x.v, x.t + x.l), Vertex(y.u, y.t), Vertex(x.u, y.t + y.l);
      var V := [u1, v1, u2, v2];
      Labels(V) == [x.u, x.v, y.u] &&
      Group(V, y.u) == [u2] && Group(V, x.u) == [u1, v2] && Group(V, x.v) == [v1]
  {
    var u1, v1, u2, v2 := Vertex(x.u, x.t), Vertex(x.v, x.t + x.l), Vertex(y.u, y.t), Vertex(x.u, y.t + y.l);
    var V := [u1, v1, u2, v2];
    assert Group(V, y.u) == [u2] by { GroupOfFour(u1, v1, u2, v2, y.u); }
    assert Group(V, x.u) == [u1, v2] by { GroupOfFour(u1, v1, u2, v2, x.u); }
    assert Group(V, x.v) == [v1] by { GroupOfFour(u1, v1, u2, v2, x.v); }
    assert Labels(V) == [x.u, x.v, y.u] by { LabelsOfFour(u1, v1, u2, v2); }
  }

  lemma EarlyWaiting(x: Record, y: Record)
    requires EarlyShape(x, y)
    ensures var u1, v1, u2, v2 := Vertex(x.u, x.t), Vertex(x.v, x.t + x.l), Vertex(y.u, y.t), Vertex(x.u, y.t + y.l);
      WaitingEdges([u1, v1, u2, v2], Labels([u1, v1, u2, v2])) == [Edge(u1, v2, 0)]
  {
    var u1, v1, u2, v2 := Vertex(x.u, x.t), Vertex(x.v, x.t + x.l), Vertex(y.u, y.t), Vertex(x.u, y.t + y.l);
    var V := [u1, v1, u2, v2];
    EarlyGroups(x, y);
    WaitingOfThree(V, x.u, x.v, y.u);
    ChainOf([u1, v2]);
    ChainOf([v1]);
    ChainOf([u2]);
  }

  lemma EarlyGraph(x: Record, y: Record)
    requires EarlyShape(x, y)
    ensures var u1, v1, u2, v2 := Vertex(x.u, x.t), Vertex(x.v, x.t + x.l), Vertex(y.u, y.t), Vertex(x.u, y.t + y.l);
      VerticesOf([x, y]) == [u1, v1, u2, v2] &&
      Group(VerticesOf([x, y]), y.u) == [u2] && Group(VerticesOf([x, y]), x.u) == [u1, v2] &&
      EdgesOf([x, y]) == [Edge(u1, v1, x.l), Edge(u2, v2, y.l), Edge(u1, v2, 0)]
  {
    TwoVertices(x, y);
    EarlyGroups(x, y);
    EarlyWaiting(x, y);
    TwoTravel(x, y);
  }



  /** The candidates of `type_1`: the only vertex `(a, t')` of `a` paired with the vertices of
      `b` in ascending time, `(b, t)` first; `(a, t')` reaches `(b, t' + l')` but not `(b, t)`. */
  lemma EarlyReach(x: Record, y: Record)
    requires EarlyShape(x, y)
    ensures var V, E := VerticesOf([x, y]), EdgesOf([x, y]);
      Group(V, y.u) != [] &&
      var cs := Fan(MinBy(Group(V, y.u), Instant), SortBy(Group(V, y.v), Instant, false));
      |cs| == 2 && !Links(E, cs[0]) && Links(E, cs[1]) && cs[1].0.name == y.u && cs[1].1.name == y.v
  {
    var u1, v1, u2, v2 := Vertex(x.u, x.t), Vertex(x.v, x.t + x.l), Vertex(y.u, y.t), Vertex(x.u, y.t + y.l);
    EarlyGraph(x, y);
    var E := EdgesOf([x, y]);
    assert SortBy([u1], Instant, false) == [u1];
    assert [u1, v2][..1] == [u1];
    assert SortBy([u1, v2], Instant, false) == [u1, v2];
    Unreachable(E, {u2, v2}, u2, u1);
    OneEdge(E, E[1]);
  }

  /** In the graph of `x = (b, c, t, l)` and `y = (a, b, t', l')` with `t < t' + l'`, the
      earliest vertex `(b, t)` of `b` is out of reach from `a` (it lies before the only
      departure from `a`), but `(b, t' + l')` is reached. The as-written `type_1` tries
      `(b, t)` only and returns an empty hop list; the intended one returns hops from `a` to
      `b`. With `x = (b, c, 1, 1)` and `y = (a, b, 3, 1)` this is a concrete input. */
  lemma EarlyCounterexample(x: Record, y: Record)
    requires EarlyShape(x, y)
    ensures var V, E := VerticesOf([x, y]), EdgesOf([x, y]);
      Group(V, y.u) != [] && Within(E, V) && NonNegative(E) &&
      var cs := Fan(MinBy(Group(V, y.u), Instant), SortBy(Group(V, y.v), Instant, false));
      (forall r :: FirstOnly(E, cs, r) ==> r == Some([])) &&
      (forall r :: Answer(E, cs, r) ==>
        r.Some? && r.value != [] && r.value[0].fromLabel == y.u && r.value[|r.value| - 1].toLabel == y.v)
  {
    var V, E := VerticesOf([x, y]), EdgesOf([x, y]);
    TwoRecordsWellFormed(x, y);
    EarlyReach(x, y);
    var cs := Fan(MinBy(Group(V, y.u), Instant), SortBy(Group(V, y.v), Instant, false));
    FirstMissed(E, cs);
    AnswerRoute(E, cs, 1);
  }

  /** The family is not empty. */
  lemma EarlyExample()
    ensures EarlyShape(Record("b", "c", 1, 1), Record("a", "b", 3, 1))
  {
  }

  // ---------------------------------------------------------------------------
  // type_3 of projet.py

  /** Two records `x = (c, b, t, l)` and `y = (a, b, t', l')` with `0 < l'` and
      `t' + l' < t + l`: `b` is reached by `y` earlier than by `x`, but `x`'s arrival is
      inserted first, so the waiting chain of `b` runs back in time. */
  predicate LateShape(x: Record, y: Record)
  {
    x.u != x.v && y.u != x.u && y.u != x.v && y.v == x.v &&
    x.l >= 0 && y.l > 0 && y.t + y.l < x.t + x.l
  }

  lemma LateGroups(x: Record, y: Record)
    requires LateShape(x, y)
    ensures var u1, v1, u2, v2 := Vertex(x.u, x.t), Vertex(x.v, x.t + x.l), Vertex(y.u, y.t), Vertex(x.v, y.t + y.l);
      var V := [u1, v1, u2, v2];
      Labels(V) == [x.u, x.v, y.u] &&
      Group(V, y.u) == [u2] && Group(V, x.v) == [v1, v2] && Group(V, x.u) == [u1]
  {
    var u1, v1, u2, v2 := Vertex(x.u, x.t), Vertex(x.v, x.t + x.l), Vertex(y.u, y.t), Vertex(x.v, y.t + y.l);
    var V := [u1, v1, u2, v2];
    assert Group(V, y.u) == [u2] by { GroupOfFour(u1, v1, u2, v2, y.u); }
    assert Group(V, x.v) == [v1, v2] by { GroupOfFour(u1, v1, u2, v2, x.v); }
    assert Group(V, x.u) == [u1] by { GroupOfFour(u1, v1, u2, v2, x.u); }
    assert Labels(V) == [x.u, x.v, y.u] by { LabelsOfFour(u1, v1, u2, v2); }
  }

  lemma LateWaiting(x: Record, y: Record)
    requires LateShape(x, y)
    ensures var u1, v1, u2, v2 := Vertex(x.u, x.t), Vertex(x.v, x.t + x.l), Vertex(y.u, y.t), Vertex(x.v, y.t + y.l);
      WaitingEdges([u1, v1, u2, v2], Labels([u1, v1, u2, v2])) == [Edge(v1, v2, 0)]
  {
    var u1, v1, u2, v2 := Vertex(x.u, x.t), Vertex(x.v, x.t + x.l), Vertex(y.u, y.t), Vertex(x.v, y.t + y.l);
    var V := [u1, v1, u2, v2];
    LateGroups(x, y);
    WaitingOfThree(V, x.u, x.v, y.u);
    ChainOf([u1]);
    ChainOf([v1, v2]);
    ChainOf([u2]);
  }

  lemma LateGraph(x: Record, y: Record)
    requires LateShape(x, y)
    ensures var u1, v1, u2, v2 := Vertex(x.u, x.t), Vertex(x.v, x.t + x.l), Vertex(y.u, y.t), Vertex(x.v, y.t + y.l);
      VerticesOf([x, y]) == [u1, v1, u2, v2] &&
      Group(VerticesOf([x, y]), y.u) == [u2] && Group(VerticesOf([x, y]), y.v) == [v1, v2] &&
      EdgesOf([x, y]) == [Edge(u1, v1, x.l), Edge(u2, v2, y.l), Edge(v1, v2, 0)]
  {
    TwoVertices(x, y);
    LateGroups(x, y);
    LateWaiting(x, y);
    TwoTravel(x, y);
  }



  /** Two pairs, the second of shorter duration: the durations sorted ascending. */
  lemma TwoTri(p1: Pair, p2: Pair)
    requires Duration(p2) < Duration(p1)
    ensures Tri([p1, p2]) == [Duration(p2), Duration(p1)]
  {
    var ps := [p1, p2];
    var d1, d2 := Duration(p1), Duration(p2);
    var noPairs: seq<Pair>, noInts: seq<int> := [], [];
    assert DurationList(ps) == [d1, d2] by {
      assert ps[..1] == [p1];
      assert [p1][..0] == noPairs;
      assert DurationList([p1]) == [d1];
    }
    assert Dedup([d1, d2]) == [d1, d2] by {
      assert [d1, d2][..1] == [d1];
      assert [d1][..0] == noInts;
      assert Dedup([d1]) == [d1];
    }
    assert SortBy([d1, d2], Itself, false) == [d2, d1] by {
      assert [d1, d2][..1] == [d1];
      assert [d1][..0] == noInts;
      assert SortBy([d1], Itself, false) == [d1];
      assert !InOrder(Itself, false, d1, d2);
      assert Insert(noInts, d2, Itself, false) == [d2];
      assert Insert([d1], d2, Itself, false) == [d2, d1];
    }
  }

  /** Two pairs of different durations: one bucket each. */
  lemma TwoBuckets(p1: Pair, p2: Pair)
    requires Duration(p2) != Duration(p1)
    ensures Bucket([p1, p2], Duration(p1)) == [p1] && Bucket([p1, p2], Duration(p2)) == [p2]
  {
    var ps := [p1, p2];
    var noPairs: seq<Pair> := [];
    assert ps[..1] == [p1];
    assert [p1][..0] == noPairs;
    assert WithKey([p1], Duration, Duration(p1)) == [p1];
    assert WithKey([p1], Duration, Duration(p2)) == noPairs;
  }

  /** Two pairs, the second of shorter duration: two buckets, tried second pair first. */
  lemma TwoPairs(p1: Pair, p2: Pair)
    requires Duration(p2) < Duration(p1)
    ensures Tri([p1, p2]) == [Duration(p2), Duration(p1)]
    ensures LastBucket([p1, p2]) == [p1] && Schedule([p1, p2]) == [p2, p1]
  {
    var ps := [p1, p2];
    var d1, d2 := Duration(p1), Duration(p2);
    var noInts: seq<int> := [];
    TwoTri(p1, p2);
    TwoBuckets(p1, p2);
    assert [d2, d1][..1] == [d2];
    assert [d2][..0] == noInts;
    assert Buckets(ps, [d2]) == [p2];
  }

  /** The pairs of `type_3`: `((a, t'), (b, t + l))` of the longer duration and
      `((a, t'), (b, t' + l'))` of duration `l'`, tried shorter duration first. */
  lemma LatePairs(x: Record, y: Record)
    requires LateShape(x, y)
    ensures var u2, v1, v2 := Vertex(y.u, y.t), Vertex(x.v, x.t + x.l), Vertex(x.v, y.t + y.l);
      var ps := Pairs(Group(VerticesOf([x, y]), y.u), Group(VerticesOf([x, y]), y.v));
      Tri(ps) != [] && LastBucket(ps) == [(u2, v1)] && Schedule(ps) == [(u2, v2), (u2, v1)]
  {
    var u2, v1, v2 := Vertex(y.u, y.t), Vertex(x.v, x.t + x.l), Vertex(x.v, y.t + y.l);
    assert Group(VerticesOf([x, y]), y.u) == [u2] && Group(VerticesOf([x, y]), y.v) == [v1, v2] by {
      LateGraph(x, y);
    }
    assert Pairs([u2], [v1, v2]) == [(u2, v1), (u2, v2)] by {
      var noPairs: seq<Pair> := [];
      assert [v1, v2][..1] == [v1] && [v1][..0] == [];
      assert PairsFrom(u2, [v1]) == [(u2, v1)];
      assert PairsFrom(u2, [v1, v2]) == [(u2, v1), (u2, v2)];
      assert [u2][..0] == [];
      assert Pairs([], [v1, v2]) == noPairs;
    }
    TwoPairs((u2, v1), (u2, v2));
  }


  /** `(a, t')` reaches `(b, t' + l')` but not `(b, t + l)`. */
  lemma LateReach(x: Record, y: Record)
    requires LateShape(x, y)
    ensures var u2, v1, v2 := Vertex(y.u, y.t), Vertex(x.v, x.t + x.l), Vertex(x.v, y.t + y.l);
      Links(EdgesOf([x, y]), (u2, v2)) && !Links(EdgesOf([x, y]), (u2, v1))
  {
    var u2, v1, v2 := Vertex(y.u, y.t), Vertex(x.v, x.t + x.l), Vertex(x.v, y.t + y.l);
    var E := EdgesOf([x, y]);
    LateGraph(x, y);
    Unreachable(E, {u2, v2}, u2, v1);
    OneEdge(E, E[1]);
  }

  /** In the graph of `x = (c, b, t, l)` and `y = (a, b, t', l')` with `0 < l'` and
      `t' + l' < t + l`, the pair of duration `l'` links and the pair of the longer duration
      does not. The as-written `type_3` ends with the bucket of the longest duration and
      returns an empty hop list; the intended one returns hops from `a` to `b`. With
      `x = (x, b, 9, 1)` and `y = (a, b, 1, 1)` this is a concrete input. */
  lemma LateCounterexample(x: Record, y: Record)
    requires LateShape(x, y)
    ensures var V, E := VerticesOf([x, y]), EdgesOf([x, y]);
      var ps := Pairs(Group(V, y.u), Group(V, y.v));
      Within(E, V) && NonNegative(E) && !Unlinked(E, Schedule(ps)) && Tri(ps) != [] &&
      (forall h :: BucketHops(E, LastBucket(ps), h) ==> h == []) &&
      (forall r :: Answer(E, Schedule(ps), r) ==>
        r.Some? && r.value != [] && r.value[0].fromLabel == y.u && r.value[|r.value| - 1].toLabel == y.v)
  {
    var V, E := VerticesOf([x, y]), EdgesOf([x, y]);
    var ps := Pairs(Group(V, y.u), Group(V, y.v));
    TwoRecordsWellFormed(x, y);
    LatePairs(x, y);
    LateReach(x, y);
    assert Links(E, Schedule(ps)[0]);
    NoHops(E, LastBucket(ps));
    AnswerRoute(E, Schedule(ps), 0);
  }

  /** The family is not empty. */
  lemma LateExample()
    ensures LateShape(Record("x", "b", 9, 1), Record("a", "b", 1, 1))
  {
  }
}
