/** The `nodes` table that both versions of `dijkstra` keep, the invariants that one selection
    and one round of relaxation preserve, and the relaxation loop they share. */
module Frontier {
  import opened Types
  import opened Walks

  /** One entry of `nodes`: the distance found so far, whether the vertex was visited, and the
      vertex it was last reached from. */
  datatype Node = Node(distance: Ext, visited: bool, predecessor: Option<Vertex>)

  /** Proof bookkeeping: the edge through which each predecessor was recorded, and the order in
      which the vertices were visited. */
  datatype Ledger = Ledger(pe: map<Vertex, Edge>, rank: map<Vertex, nat>, clock: nat)

  /** Every edge that leaves a vertex of the table arrives at one (the lookup `nodes[edge.v]`
      is made for every edge leaving a selected vertex). */
  predicate Leads(E: seq<Edge>, V: set<Vertex>)
  {
    forall e :: e in E && e.u in V ==> e.v in V
  }

  /** The table right after initialisation: infinite and unvisited everywhere, 0 at `start`. */
  predicate Fresh(N: map<Vertex, Node>, start: Vertex)
  {
    start in N && forall x :: x in N ==> N[x] == Node(if x == start then Fin(0) else Inf, false, None)
  }

  /** `d` is at most the weight of every walk from `s` to `x`. */
  ghost predicate Lower(E: seq<Edge>, s: Vertex, x: Vertex, d: Ext)
  {
    forall w :: IsWalk(E, s, w) && Stop(s, w) == x ==> Le(d, Fin(Weight(w)))
  }

  /** The visited vertices. */
  function VisitedSet(N: map<Vertex, Node>): set<Vertex>
  {
    set x | x in N && N[x].visited
  }

  /** The predecessor of `x` is visited, was recorded through an edge of `E` that makes the
      distance of `x` tight, and was visited before `x`. */
  ghost predicate PredOk(E: seq<Edge>, N: map<Vertex, Node>, lg: Ledger, x: Vertex)
    requires x in N && N[x].predecessor.Some?
  {
    var p := N[x].predecessor.value;
    p in N && N[p].visited && x in lg.pe && lg.pe[x] in E && lg.pe[x].u == p && lg.pe[x].v == x &&
    N[x].distance.Fin? && N[x].distance == Add(N[p].distance, lg.pe[x].weight) &&
    (N[x].visited ==> p in lg.rank && x in lg.rank && lg.rank[p] < lg.rank[x])
  }

  /** `start` stays at 0 without predecessor, the table is closed under the edges, and no
      distance is negative. */
  ghost predicate Anchored(E: seq<Edge>, start: Vertex, N: map<Vertex, Node>)
  {
    start in N && Leads(E, N.Keys) &&
    N[start].distance == Fin(0) && N[start].predecessor == None &&
    (forall x :: x in N && N[x].distance.Fin? ==> N[x].distance.n >= 0)
  }

  /** A visited vertex has its shortest distance. */
  ghost predicate Optimal(E: seq<Edge>, start: Vertex, N: map<Vertex, Node>)
  {
    forall x :: x in N && N[x].visited ==> Lower(E, start, x, N[x].distance)
  }

  /** Visited vertices are no farther than unvisited ones. */
  predicate Ordered(N: map<Vertex, Node>)
  {
    forall x, y :: x in N && y in N && N[x].visited && !N[y].visited ==> Le(N[x].distance, N[y].distance)
  }

  /** Predecessors are sound, and exactly the finite vertices other than `start` have one. */
  ghost predicate Linked(E: seq<Edge>, start: Vertex, N: map<Vertex, Node>, lg: Ledger)
  {
    (forall x :: x in N && N[x].predecessor.Some? ==> PredOk(E, N, lg, x)) &&
    (forall x :: x in N && x != start && N[x].distance.Fin? ==> N[x].predecessor.Some?)
  }

  /** Every visited vertex has a place in the visiting order. */
  predicate Ranked(N: map<Vertex, Node>, lg: Ledger)
  {
    forall x :: x in N && N[x].visited ==> x in lg.rank && lg.rank[x] < lg.clock
  }

  /** What every step of `dijkstra` keeps. */
  ghost predicate TableInv(E: seq<Edge>, start: Vertex, N: map<Vertex, Node>, lg: Ledger)
  {
    Anchored(E, start, N) && Optimal(E, start, N) && Ordered(N) && Linked(E, start, N, lg) && Ranked(N, lg)
  }

  /** `nodes[u]["visited"] = True`. */
  function Visit(N: map<Vertex, Node>, u: Vertex): (r: map<Vertex, Node>)
    requires u in N
    ensures r.Keys == N.Keys
  {
    N[u := N[u].(visited := true)]
  }

  /** `v` gets the distance `d` and the predecessor `u`. */
  function Improved(N: map<Vertex, Node>, v: Vertex, d: Ext, u: Vertex): map<Vertex, Node>
    requires v in N
  {
    N[v := N[v].(distance := d, predecessor := Some(u))]
  }

  /** Every edge leaving a visited vertex other than `skip` is relaxed. */
  ghost predicate Closed(E: seq<Edge>, N: map<Vertex, Node>, skip: Option<Vertex>)
  {
    forall e :: e in E && e.u in N && e.v in N && N[e.u].visited && skip != Some(e.u) ==>
      Le(N[e.v].distance, Add(N[e.u].distance, e.weight))
  }

  /** `u` is visited and no visited vertex is farther than `u`. */
  predicate Peak(N: map<Vertex, Node>, u: Vertex)
  {
    u in N && N[u].visited && forall x :: x in N && N[x].visited ==> Le(N[x].distance, N[u].distance)
  }

  /** Every vertex with a finite distance has been visited. */
  predicate Exhausted(N: map<Vertex, Node>)
  {
    forall x :: x in N && N[x].distance.Fin? ==> N[x].visited
  }

  // ---------------------------------------------------------------------------
  // The steps

  /** The initial table satisfies the invariant, with nothing visited. */
  lemma Start(E: seq<Edge>, start: Vertex, N: map<Vertex, Node>)
    requires Fresh(N, start) && Leads(E, N.Keys)
    ensures TableInv(E, start, N, Ledger(map[], map[], 0)) && Closed(E, N, None) && VisitedSet(N) == {}
  {
  }

  /** Every stop of a walk from `start` is in the table. */
  lemma {:induction false} StopIn(E: seq<Edge>, start: Vertex, N: map<Vertex, Node>, w: seq<Edge>)
    requires start in N && Leads(E, N.Keys) && IsWalk(E, start, w)
    ensures Stop(start, w) in N
    decreases |w|
  {
    if w != [] {
      StopIn(E, start, N, w[..|w| - 1]);
    }
  }

  /** A walk from `start` to an unvisited vertex passes an unvisited vertex whose distance is at
      most the walk's weight: the first unvisited vertex on it. */
  lemma {:induction false} WalkBound(E: seq<Edge>, start: Vertex, N: map<Vertex, Node>, lg: Ledger, w: seq<Edge>)
    returns (z: Vertex)
    requires NonNegative(E) && TableInv(E, start, N, lg) && Closed(E, N, None) && IsWalk(E, start, w)
    requires Stop(start, w) in N && !N[Stop(start, w)].visited
    ensures z in N && !N[z].visited && Le(N[z].distance, Fin(Weight(w)))
    decreases |w|
  {
    if w == [] {
      z := start;
    } else {
      var w', e := w[..|w| - 1], w[|w| - 1];
      var x := Stop(start, w');
      StopIn(E, start, N, w');
      if N[x].visited {
        assert Le(N[x].distance, Fin(Weight(w')));
        z := e.v;
      } else {
        z := WalkBound(E, start, N, lg, w');
      }
    }
  }

  /** The ledger after visiting `u`: `u` takes the next place in the visiting order. */
  function Stamp(lg: Ledger, u: Vertex): Ledger
  {
    lg.(rank := lg.rank[u := lg.clock], clock := lg.clock + 1)
  }

  /** Visiting an unvisited vertex of least distance keeps the invariant: its distance is then
      its shortest distance, and it becomes the farthest visited vertex. */
  lemma Mark(E: seq<Edge>, start: Vertex, N: map<Vertex, Node>, lg: Ledger, u: Vertex)
    requires NonNegative(E) && TableInv(E, start, N, lg) && Closed(E, N, None)
    requires u in N && !N[u].visited
    requires forall y :: y in N && !N[y].visited ==> Le(N[u].distance, N[y].distance)
    ensures TableInv(E, start, Visit(N, u), Stamp(lg, u)) && Closed(E, Visit(N, u), Some(u)) && Peak(Visit(N, u), u)
    ensures VisitedSet(Visit(N, u)) == VisitedSet(N) + {u} && u !in VisitedSet(N)
    ensures |VisitedSet(Visit(N, u))| == |VisitedSet(N)| + 1
  {
    LeastLower(E, start, N, lg, u);
    MarkOptimal(E, start, N, u);
    MarkLinked(E, start, N, lg, u);
    MarkOrder(E, start, N, u);
    MarkCount(N, u);
  }

  /** An unvisited vertex of least distance has its shortest distance. */
  lemma LeastLower(E: seq<Edge>, start: Vertex, N: map<Vertex, Node>, lg: Ledger, u: Vertex)
    requires NonNegative(E) && TableInv(E, start, N, lg) && Closed(E, N, None)
    requires u in N && !N[u].visited
    requires forall y :: y in N && !N[y].visited ==> Le(N[u].distance, N[y].distance)
    ensures Lower(E, start, u, N[u].distance)
  {
    forall w | IsWalk(E, start, w) && Stop(start, w) == u
      ensures Le(N[u].distance, Fin(Weight(w)))
    {
      var z := WalkBound(E, start, N, lg, w);
    }
  }

  lemma MarkCount(N: map<Vertex, Node>, u: Vertex)
    requires u in N && !N[u].visited
    ensures VisitedSet(Visit(N, u)) == VisitedSet(N) + {u} && u !in VisitedSet(N)
    ensures |VisitedSet(Visit(N, u))| == |VisitedSet(N)| + 1
  {
    assert VisitedSet(Visit(N, u)) == VisitedSet(N) + {u};
  }

  lemma MarkOrder(E: seq<Edge>, start: Vertex, N: map<Vertex, Node>, u: Vertex)
    requires NonNegative(E) && Anchored(E, start, N) && Ordered(N) && Closed(E, N, None)
    requires u in N && !N[u].visited
    requires forall y :: y in N && !N[y].visited ==> Le(N[u].distance, N[y].distance)
    ensures Anchored(E, start, Visit(N, u)) && Ordered(Visit(N, u))
    ensures Closed(E, Visit(N, u), Some(u)) && Peak(Visit(N, u), u)
  {
  }

  lemma MarkOptimal(E: seq<Edge>, start: Vertex, N: map<Vertex, Node>, u: Vertex)
    requires Optimal(E, start, N) && u in N && Lower(E, start, u, N[u].distance)
    ensures Optimal(E, start, Visit(N, u))
  {
  }

  lemma MarkLinked(E: seq<Edge>, start: Vertex, N: map<Vertex, Node>, lg: Ledger, u: Vertex)
    requires Linked(E, start, N, lg) && Ranked(N, lg) && u in N && !N[u].visited
    ensures Linked(E, start, Visit(N, u), Stamp(lg, u)) && Ranked(Visit(N, u), Stamp(lg, u))
  {
    var N', lg' := Visit(N, u), Stamp(lg, u);
    forall x | x in N' && N'[x].predecessor.Some? ensures PredOk(E, N', lg', x) {
      assert PredOk(E, N, lg, x);
    }
  }

  /** Improving the distance of an unvisited neighbour of the farthest visited vertex `u` through
      the edge `e` keeps the invariant. */
  lemma Improve(E: seq<Edge>, start: Vertex, N: map<Vertex, Node>, lg: Ledger, u: Vertex, e: Edge)
    requires NonNegative(E) && TableInv(E, start, N, lg) && Closed(E, N, Some(u)) && Peak(N, u)
    requires e in E && e.u == u && !N[e.v].visited && Lt(Add(N[u].distance, e.weight), N[e.v].distance)
    ensures e.v != start && e.v != u
    ensures var N' := Improved(N, e.v, Add(N[u].distance, e.weight), u);
            TableInv(E, start, N', lg.(pe := lg.pe[e.v := e])) && Closed(E, N', Some(u)) && Peak(N', u) &&
            VisitedSet(N') == VisitedSet(N) && Lowered(N, N') && N'[u] == N[u]
  {
    var N' := Improved(N, e.v, Add(N[u].distance, e.weight), u);
    assert e.v != start && e.v != u;
    ImproveLinked(E, start, N, lg, u, e);
    ImproveOrder(E, start, N, u, e);
    assert VisitedSet(N') == VisitedSet(N);
  }

  /** The lowered distance keeps the table anchored, optimal, ordered and relaxed. */
  lemma ImproveOrder(E: seq<Edge>, start: Vertex, N: map<Vertex, Node>, u: Vertex, e: Edge)
    requires NonNegative(E) && Anchored(E, start, N) && Optimal(E, start, N) && Ordered(N)
    requires Closed(E, N, Some(u)) && Peak(N, u)
    requires e in E && e.u == u && e.v in N && e.v != start && !N[e.v].visited
    requires Lt(Add(N[u].distance, e.weight), N[e.v].distance)
    ensures var N' := Improved(N, e.v, Add(N[u].distance, e.weight), u);
            Anchored(E, start, N') && Optimal(E, start, N') && Ordered(N') &&
            Closed(E, N', Some(u)) && Peak(N', u) && Lowered(N, N')
  {
  }

  lemma ImproveLinked(E: seq<Edge>, start: Vertex, N: map<Vertex, Node>, lg: Ledger, u: Vertex, e: Edge)
    requires Anchored(E, start, N) && Linked(E, start, N, lg) && u in N && N[u].visited && N[u].distance.Fin?
    requires e in E && e.u == u && e.v in N && !N[e.v].visited && e.v != u
    ensures var N' := Improved(N, e.v, Add(N[u].distance, e.weight), u);
            Linked(E, start, N', lg.(pe := lg.pe[e.v := e]))
  {
    var N', lg' := Improved(N, e.v, Add(N[u].distance, e.weight), u), lg.(pe := lg.pe[e.v := e]);
    forall x | x in N' && N'[x].predecessor.Some? ensures PredOk(E, N', lg', x) {
      if x != e.v {
        assert PredOk(E, N, lg, x);
      }
    }
  }

  /** The relaxation loop shared by both versions: for every edge leaving `u` towards an unvisited
      vertex, lower that vertex's distance when the edge gives a strictly shorter one, and record
      `u` as its predecessor. Afterwards every edge leaving a visited vertex is relaxed; when that
      was already so, nothing changes. Distances only go down, and visited entries never change. */
  method RelaxNeighbours(E: seq<Edge>, start: Vertex, N0: map<Vertex, Node>, ghost lg0: Ledger, u: Vertex)
    returns (N: map<Vertex, Node>, ghost lg: Ledger)
    requires NonNegative(E) && TableInv(E, start, N0, lg0) && Closed(E, N0, Some(u)) && Peak(N0, u)
    ensures TableInv(E, start, N, lg) && Closed(E, N, None) && Peak(N, u)
    ensures N.Keys == N0.Keys && VisitedSet(N) == VisitedSet(N0)
    ensures Closed(E, N0, None) ==> N == N0
    ensures Lowered(N0, N) && Kept(N0, N)
  {
    N, lg := N0, lg0;
    for i := 0 to |E|
      invariant TableInv(E, start, N, lg) && Closed(E, N, Some(u)) && Peak(N, u)
      invariant N.Keys == N0.Keys && VisitedSet(N) == VisitedSet(N0)
      invariant Progress(E, N, u, i)
      invariant Closed(E, N0, None) ==> N == N0
      invariant Lowered(N0, N) && Kept(N0, N)
    {
      var e := E[i];
      ghost var before := N;
      if u == e.u && !N[e.v].visited {
        var v := e.v;
        if Lt(Add(N[u].distance, e.weight), N[v].distance) {
          Improve(E, start, N, lg, u, e);
          ImprovedKeeps(N, v, Add(N[u].distance, e.weight), u);
          N := Improved(N, v, Add(N[u].distance, e.weight), u);
          lg := lg.(pe := lg.pe[v := e]);
          LoweredTrans(N0, before, N);
        }
      }
      ProgressStep(E, before, N, u, i);
    }
    ProgressDone(E, N, u);
  }

  /** `N'` has the keys and visited marks of `N`, and no distance of `N'` is larger. */
  predicate Lowered(N: map<Vertex, Node>, N': map<Vertex, Node>)
  {
    N'.Keys == N.Keys &&
    forall x :: x in N ==> Le(N'[x].distance, N[x].distance) && N'[x].visited == N[x].visited
  }

  /** Visiting `u` and then relaxing its edges lowers no distance below what it was in `orig`
      from above: distances only go down from round to round. */
  lemma RoundLowers(orig: map<Vertex, Node>, N: map<Vertex, Node>, u: Vertex, N': map<Vertex, Node>)
    requires N.Keys == orig.Keys && forall x :: x in orig ==> Le(N[x].distance, orig[x].distance)
    requires u in N && Lowered(Visit(N, u), N')
    ensures N'.Keys == orig.Keys && forall x :: x in orig ==> Le(N'[x].distance, orig[x].distance)
  {
    forall x | x in orig ensures Le(N'[x].distance, orig[x].distance) {
      assert Visit(N, u)[x].distance == N[x].distance;
    }
  }

  /** Every visited entry of `N` is unchanged in `N'`. */
  predicate Kept(N: map<Vertex, Node>, N': map<Vertex, Node>)
  {
    forall x :: x in N && N[x].visited ==> x in N' && N'[x] == N[x]
  }

  /** Improving an unvisited vertex leaves the visited entries alone. */
  lemma ImprovedKeeps(N: map<Vertex, Node>, v: Vertex, d: Ext, u: Vertex)
    requires v in N && !N[v].visited
    ensures Kept(N, Improved(N, v, d, u))
  {
  }

  /** Lowering an unvisited entry, twice in a row, lowers and keeps the visited entries. */
  lemma LoweredTrans(a: map<Vertex, Node>, b: map<Vertex, Node>, c: map<Vertex, Node>)
    requires Lowered(a, b) && Kept(a, b) && Lowered(b, c) && Kept(b, c)
    ensures Lowered(a, c) && Kept(a, c)
  {
  }

  /** The edges among the first `i` that leave `u` are relaxed. */
  ghost predicate Progress(E: seq<Edge>, N: map<Vertex, Node>, u: Vertex, i: int)
  {
    forall k :: 0 <= k < i && k < |E| && E[k].u == u && u in N && E[k].v in N ==>
      Le(N[E[k].v].distance, Add(N[u].distance, E[k].weight))
  }

  /** Lowering distances other than that of `u` keeps earlier edges relaxed. */
  lemma ProgressStep(E: seq<Edge>, N: map<Vertex, Node>, N': map<Vertex, Node>, u: Vertex, i: int)
    requires 0 <= i < |E| && Progress(E, N, u, i) && NonNegative(E)
    requires Lowered(N, N') && Peak(N, u) && N'[u].distance == N[u].distance
    requires E[i].u == u && E[i].v in N && !N[E[i].v].visited ==>
      Le(N'[E[i].v].distance, Add(N[u].distance, E[i].weight))
    ensures Progress(E, N', u, i + 1)
  {
    forall k | 0 <= k < i + 1 && E[k].u == u && u in N' && E[k].v in N'
      ensures Le(N'[E[k].v].distance, Add(N'[u].distance, E[k].weight))
    {
      if k == i && N[E[i].v].visited {
        assert E[i] in E;
        assert Le(N[E[i].v].distance, N[u].distance);
      }
    }
  }

  lemma ProgressDone(E: seq<Edge>, N: map<Vertex, Node>, u: Vertex)
    requires Closed(E, N, Some(u)) && Progress(E, N, u, |E|)
    ensures Closed(E, N, None)
  {
    forall e | e in E && e.u in N && e.v in N && N[e.u].visited
      ensures Le(N[e.v].distance, Add(N[e.u].distance, e.weight))
    {
      if e.u == u {
        var k :| 0 <= k < |E| && E[k] == e;
      }
    }
  }

  /** One step back along the predecessors: a visited vertex `x` other than `start` with a finite
      distance has a predecessor, visited earlier, and the trail to `end` extends to it. */
  lemma PredStep(E: seq<Edge>, start: Vertex, N: map<Vertex, Node>, lg: Ledger,
                 end: Vertex, p: seq<Vertex>, wc: seq<Edge>, x: Vertex) returns (wc': seq<Edge>)
    requires TableInv(E, start, N, lg)
    requires x in N && N[x].visited && N[x].distance.Fin? && x != start && end in N && N[end].distance.Fin?
    requires Trail(E, x, end, p, wc, N[end].distance.n - N[x].distance.n)
    ensures N[x].predecessor.Some?
    ensures var y := N[x].predecessor.value;
      y in N && N[y].visited && N[y].distance.Fin? && y in lg.rank && x in lg.rank && lg.rank[y] < lg.rank[x] &&
      Trail(E, y, end, [y] + p, wc', N[end].distance.n - N[y].distance.n)
  {
    assert PredOk(E, N, lg, x);
    var e := lg.pe[x];
    Prepend(E, e, wc);
    wc' := [e] + wc;
  }

  /** Once every finite vertex is visited and every edge relaxed, every walk from `start` stops at
      a vertex with a finite distance. */
  lemma {:induction false} StaysFinite(E: seq<Edge>, start: Vertex, N: map<Vertex, Node>, lg: Ledger, w: seq<Edge>)
    requires TableInv(E, start, N, lg) && Closed(E, N, None) && Exhausted(N) && IsWalk(E, start, w)
    ensures Stop(start, w) in N && N[Stop(start, w)].distance.Fin?
    decreases |w|
  {
    if w != [] {
      StaysFinite(E, start, N, lg, w[..|w| - 1]);
    }
  }

  /** A visited vertex whose finite distance some walk realises has its shortest distance. */
  lemma VisitedShortest(E: seq<Edge>, start: Vertex, N: map<Vertex, Node>, lg: Ledger, x: Vertex, w: seq<Edge>)
    requires TableInv(E, start, N, lg) && x in N && N[x].visited && N[x].distance.Fin?
    requires IsWalk(E, start, w) && Stop(start, w) == x && Weight(w) == N[x].distance.n
    ensures IsShortest(E, start, x, N[x].distance)
  {
    assert Lower(E, start, x, N[x].distance);
  }

  /** As many visited vertices as there are entries of `vertices` means all are visited. */
  lemma Filled(N: map<Vertex, Node>, vertices: seq<Vertex>)
    requires N.Keys == (set v | v in vertices) && |VisitedSet(N)| >= |vertices|
    ensures forall x :: x in N ==> N[x].visited
  {
    SetOfSeqBound(vertices);
    var S := VisitedSet(N);
    assert S <= N.Keys;
    if S != N.Keys {
      var y :| y in N.Keys && y !in S;
      SubsetCard(S, N.Keys - {y});
    }
  }

  lemma {:induction false} SubsetCard<T>(A: set<T>, B: set<T>)
    requires A <= B
    ensures |A| <= |B|
    decreases |A|
  {
    if A != {} {
      var x :| x in A;
      SubsetCard(A - {x}, B - {x});
    }
  }
}
