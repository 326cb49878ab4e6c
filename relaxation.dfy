/** The relaxation passes that both copies of `bellman_ford` share: `len(vertices) - 1` passes
    over the edge list, each lowering `distances[edge.v]` to `distances[edge.u] + edge.weight`
    when that is strictly smaller and recording `edge.u` as the parent of `edge.v`. */
module Relaxation {
  import opened Types
  import opened Walks

  /** The number of passes, `range(len(vertices) - 1)`: none for an empty vertex list. */
  function Passes(V: seq<Vertex>): nat
  {
    if |V| == 0 then 0 else |V| - 1
  }

  /** The table a run starts from: 0 at `start` (when it is a key), infinity at every other key. */
  predicate Initial(dist: map<Vertex, Ext>, start: Vertex)
  {
    forall v :: v in dist ==> dist[v] == if v == start then Fin(0) else Inf
  }

  /** Both endpoints of every edge are keys of the table, so `distances[edge.u]` and
      `distances[edge.v]` never fail. */
  predicate Keyed(E: seq<Edge>, dist: map<Vertex, Ext>)
  {
    forall e :: e in E ==> e.u in dist && e.v in dist
  }

  /** No distance went up, and the keys stayed the same. */
  predicate Decreased(after: map<Vertex, Ext>, before: map<Vertex, Ext>)
  {
    after.Keys == before.Keys && forall x :: x in before ==> Le(after[x], before[x])
  }

  /** Ghost bookkeeping of a run: a witness walk per finite distance, the edge that last set each
      parent, the moment of each vertex's last improvement, and the clock. */
  datatype Trace = Trace(wit: map<Vertex, seq<Edge>>, pe: map<Vertex, Edge>, stamp: map<Vertex, nat>, clock: nat)

  /** Every finite distance is the weight of a walk from `start`. */
  ghost predicate Sound(E: seq<Edge>, start: Vertex, dist: map<Vertex, Ext>, wit: map<Vertex, seq<Edge>>)
  {
    forall x :: x in dist && dist[x].Fin? ==>
      x in wit && IsWalk(E, start, wit[x]) && Stop(start, wit[x]) == x && Weight(wit[x]) == dist[x].n
  }

  /** The parent `p` of `x` was recorded through an edge `p -> x` of `E`; `x` is no further than
      `p` plus that edge, and `(distance, last improvement)` is strictly smaller at `p`. */
  ghost predicate ParentOk(E: seq<Edge>, dist: map<Vertex, Ext>, parents: map<Vertex, Vertex>, tr: Trace, x: Vertex)
  {
    x in parents && x in dist && parents[x] in dist && x in tr.pe && x in tr.stamp && parents[x] in tr.stamp &&
    tr.pe[x] in E && tr.pe[x].u == parents[x] && tr.pe[x].v == x &&
    Le(Add(dist[parents[x]], tr.pe[x].weight), dist[x]) &&
    (Lt(dist[parents[x]], dist[x]) ||
     (dist[parents[x]] == dist[x] && tr.stamp[parents[x]] < tr.stamp[x]))
  }

  /** The parents: exactly the finite vertices other than `start` have one, each recorded
      through an edge. */
  ghost predicate Tree(E: seq<Edge>, start: Vertex, dist: map<Vertex, Ext>, parents: map<Vertex, Vertex>, tr: Trace)
  {
    (forall x :: x in parents <==> x in dist && dist[x].Fin? && x != start) &&
    (forall x :: x in parents ==> ParentOk(E, dist, parents, tr, x))
  }

  /** What every step of a run keeps. */
  ghost predicate Inv(E: seq<Edge>, start: Vertex, dist: map<Vertex, Ext>, parents: map<Vertex, Vertex>, tr: Trace)
  {
    Keyed(E, dist) &&
    (start in dist ==> dist[start] == Fin(0)) &&
    Sound(E, start, dist, tr.wit) &&
    Tree(E, start, dist, parents, tr) &&
    (forall x :: x in dist ==> x in tr.stamp && tr.stamp[x] < tr.clock)
  }

  /** Every walk from `start` with at most `n` edges is at least as heavy as the distance where
      it stops. */
  ghost predicate Bounded(E: seq<Edge>, start: Vertex, dist: map<Vertex, Ext>, n: nat)
  {
    forall w :: IsWalk(E, start, w) && |w| <= n && Stop(start, w) in dist ==>
      Le(dist[Stop(start, w)], Fin(Weight(w)))
  }

  /** The same for the walks with exactly `n + 1` edges whose last edge is among the first `k`. */
  ghost predicate BoundedThrough(E: seq<Edge>, start: Vertex, dist: map<Vertex, Ext>, n: nat, k: nat)
    requires k <= |E|
  {
    forall w :: IsWalk(E, start, w) && |w| == n + 1 && w[n] in E[..k] && Stop(start, w) in dist ==>
      Le(dist[Stop(start, w)], Fin(Weight(w)))
  }

  /** At the end of a run, parent links are tight and ordered, which the path reconstruction
      follows back to `start`. */
  ghost predicate Settled(E: seq<Edge>, dist: map<Vertex, Ext>, parents: map<Vertex, Vertex>, tr: Trace)
  {
    forall x :: x in parents ==>
      ParentOk(E, dist, parents, tr, x) && dist[x] == Add(dist[parents[x]], tr.pe[x].weight)
  }

  /** What the passes leave behind: exact shortest distances, 0 at `start`, a parent for exactly
      the finite vertices other than `start`, and tight, ordered parent links. */
  ghost predicate Outcome(E: seq<Edge>, start: Vertex, dist: map<Vertex, Ext>, parents: map<Vertex, Vertex>, tr: Trace)
  {
    (forall v :: v in dist ==> IsShortest(E, start, v, dist[v])) &&
    (start in dist ==> dist[start] == Fin(0)) &&
    (forall x :: x in parents <==> x in dist && dist[x].Fin? && x != start) &&
    Settled(E, dist, parents, tr)
  }

  // ---------------------------------------------------------------------------
  // The passes

  /** `for _ in range(len(vertices) - 1): for edge in edges: ...`. After the passes every
      distance is the exact shortest distance from `start`; only finite vertices other than
      `start` have a parent, and each parent link is an edge on a shortest walk. */
  method RelaxPasses(V: seq<Vertex>, E: seq<Edge>, start: Vertex, dist0: map<Vertex, Ext>)
    returns (dist: map<Vertex, Ext>, parents: map<Vertex, Vertex>, ghost tr: Trace)
    requires Within(E, V) && NonNegative(E)
    requires forall v :: v in V ==> v in dist0
    requires Initial(dist0, start)
    ensures Decreased(dist, dist0)
    ensures Outcome(E, start, dist, parents, tr)
  {
    dist, parents := dist0, map[];
    tr := Trace(if start in dist0 then map[start := []] else map[], map[], map x | x in dist0 :: 0, 1);
    assert Bounded(E, start, dist, 0) by {
      forall w | IsWalk(E, start, w) && |w| <= 0 && Stop(start, w) in dist
        ensures Le(dist[Stop(start, w)], Fin(Weight(w)))
      {
        assert w == [];
      }
    }
    var i := 0;
    while i < |V| - 1
      invariant 0 <= i <= Passes(V)
      invariant Inv(E, start, dist, parents, tr)
      invariant Decreased(dist, dist0)
      invariant Bounded(E, start, dist, i)
    {
      ghost var before := dist;
      dist, parents, tr := RelaxEdges(E, start, dist, parents, tr, i);
      DecreasedTrans(dist, before, dist0);
      i := i + 1;
    }
    Exact(V, E, start, dist, parents, tr);
  }

  /** One pass `for edge in edges: ...`: distances only go down, and afterwards the walks with
      one more edge are bounded too. */
  method RelaxEdges(E: seq<Edge>, start: Vertex, dist0: map<Vertex, Ext>, parents0: map<Vertex, Vertex>,
                    ghost tr0: Trace, ghost n: nat)
    returns (dist: map<Vertex, Ext>, parents: map<Vertex, Vertex>, ghost tr: Trace)
    requires NonNegative(E)
    requires Inv(E, start, dist0, parents0, tr0) && Bounded(E, start, dist0, n)
    ensures Inv(E, start, dist, parents, tr) && Decreased(dist, dist0)
    ensures Bounded(E, start, dist, n + 1)
  {
    dist, parents, tr := dist0, parents0, tr0;
    for k := 0 to |E|
      invariant Inv(E, start, dist, parents, tr) && Decreased(dist, dist0)
      invariant Bounded(E, start, dist, n) && BoundedThrough(E, start, dist, n, k)
    {
      var e := E[k];
      ghost var before := dist;
      if Lt(Add(dist[e.u], e.weight), dist[e.v]) {
        Improve(E, start, dist, parents, tr, e);
        dist := dist[e.v := Add(dist[e.u], e.weight)];
        parents := parents[e.v := e.u];
        tr := Trace(tr.wit[e.v := tr.wit[e.u] + [e]], tr.pe[e.v := e], tr.stamp[e.v := tr.clock], tr.clock + 1);
      }
      assert Le(dist[e.v], Add(before[e.u], e.weight));
      DecreasedTrans(dist, before, dist0);
      ThroughStep(E, start, before, dist, n, k);
      BoundedMono(E, start, before, dist, n);
    }
    PassDone(E, start, dist, n);
  }

  // ---------------------------------------------------------------------------
  // Lemmas about one step

  lemma DecreasedTrans(a: map<Vertex, Ext>, b: map<Vertex, Ext>, c: map<Vertex, Ext>)
    requires Decreased(a, b) && Decreased(b, c)
    ensures Decreased(a, c)
  {
  }

  /** Finite distances are never negative, because they are weights of walks. */
  lemma SoundNonNegative(E: seq<Edge>, start: Vertex, dist: map<Vertex, Ext>, wit: map<Vertex, seq<Edge>>, x: Vertex)
    requires NonNegative(E) && Sound(E, start, dist, wit) && x in dist && dist[x].Fin?
    ensures dist[x].n >= 0
  {
    WeightNonNegative(E, start, wit[x]);
  }

  /** An improvement through `e` keeps the invariant; it never improves `start`. */
  lemma Improve(E: seq<Edge>, start: Vertex, dist: map<Vertex, Ext>, parents: map<Vertex, Vertex>, tr: Trace, e: Edge)
    requires NonNegative(E) && Inv(E, start, dist, parents, tr) && e in E
    requires Lt(Add(dist[e.u], e.weight), dist[e.v])
    ensures e.v != start && e.u != e.v
    ensures var d := dist[e.v := Add(dist[e.u], e.weight)];
      Inv(E, start, d, parents[e.v := e.u],
          Trace(tr.wit[e.v := tr.wit[e.u] + [e]], tr.pe[e.v := e], tr.stamp[e.v := tr.clock], tr.clock + 1)) &&
      Decreased(d, dist)
  {
    SoundNonNegative(E, start, dist, tr.wit, e.u);
    assert e.weight >= 0;
    var d := dist[e.v := Add(dist[e.u], e.weight)];
    var ps := parents[e.v := e.u];
    var t := Trace(tr.wit[e.v := tr.wit[e.u] + [e]], tr.pe[e.v := e], tr.stamp[e.v := tr.clock], tr.clock + 1);
    Extend(E, start, tr.wit[e.u], e);
    assert Sound(E, start, d, t.wit);
    ImproveTree(E, start, dist, parents, tr, e);
  }

  lemma ImproveTree(E: seq<Edge>, start: Vertex, dist: map<Vertex, Ext>, parents: map<Vertex, Vertex>, tr: Trace, e: Edge)
    requires NonNegative(E) && Inv(E, start, dist, parents, tr) && e in E
    requires Lt(Add(dist[e.u], e.weight), dist[e.v]) && e.v != start && e.u != e.v
    ensures Tree(E, start, dist[e.v := Add(dist[e.u], e.weight)], parents[e.v := e.u],
                 Trace(tr.wit[e.v := tr.wit[e.u] + [e]], tr.pe[e.v := e], tr.stamp[e.v := tr.clock], tr.clock + 1))
  {
    var d := dist[e.v := Add(dist[e.u], e.weight)];
    var ps := parents[e.v := e.u];
    var t := Trace(tr.wit[e.v := tr.wit[e.u] + [e]], tr.pe[e.v := e], tr.stamp[e.v := tr.clock], tr.clock + 1);
    assert e.weight >= 0;
    forall x | x in ps ensures ParentOk(E, d, ps, t, x) {
      if x == e.v {
        assert e.u in dist && e.u in tr.stamp && tr.stamp[e.u] < tr.clock;
        ParentNew(E, dist, parents, tr, e);
      } else {
        assert ParentOk(E, dist, parents, tr, x);
        ParentKept(E, dist, parents, tr, e, x);
      }
    }
  }

  /** The improved vertex gets a valid parent link through the improving edge. */
  lemma ParentNew(E: seq<Edge>, dist: map<Vertex, Ext>, parents: map<Vertex, Vertex>, tr: Trace, e: Edge)
    requires e in E && e.weight >= 0 && e.u != e.v && e.u in dist && e.v in dist
    requires e.u in tr.stamp && tr.stamp[e.u] < tr.clock && e.u in tr.wit
    requires Lt(Add(dist[e.u], e.weight), dist[e.v])
    ensures ParentOk(E, dist[e.v := Add(dist[e.u], e.weight)], parents[e.v := e.u],
                     Trace(tr.wit[e.v := tr.wit[e.u] + [e]], tr.pe[e.v := e], tr.stamp[e.v := tr.clock], tr.clock + 1), e.v)
  {
  }

  /** Any other vertex keeps its parent link: the parent's distance can only have dropped. */
  lemma ParentKept(E: seq<Edge>, dist: map<Vertex, Ext>, parents: map<Vertex, Vertex>, tr: Trace, e: Edge, x: Vertex)
    requires ParentOk(E, dist, parents, tr, x) && x != e.v && e.u in dist && e.v in dist && e.u in tr.wit
    requires Lt(Add(dist[e.u], e.weight), dist[e.v])
    ensures ParentOk(E, dist[e.v := Add(dist[e.u], e.weight)], parents[e.v := e.u],
                     Trace(tr.wit[e.v := tr.wit[e.u] + [e]], tr.pe[e.v := e], tr.stamp[e.v := tr.clock], tr.clock + 1), x)
  {
  }


  /** Being bounded survives lowering distances. */
  lemma BoundedMono(E: seq<Edge>, start: Vertex, before: map<Vertex, Ext>, after: map<Vertex, Ext>, n: nat)
    requires Bounded(E, start, before, n) && Decreased(after, before)
    ensures Bounded(E, start, after, n)
  {
  }

  /** Processing edge `k` bounds the walks of `n + 1` edges that end with it. */
  lemma ThroughStep(E: seq<Edge>, start: Vertex, before: map<Vertex, Ext>, after: map<Vertex, Ext>, n: nat, k: nat)
    requires k < |E| && Keyed(E, before)
    requires Bounded(E, start, before, n) && BoundedThrough(E, start, before, n, k)
    requires Decreased(after, before)
    requires Le(after[E[k].v], Add(before[E[k].u], E[k].weight))
    ensures BoundedThrough(E, start, after, n, k + 1)
  {
    forall w | IsWalk(E, start, w) && |w| == n + 1 && w[n] in E[..k + 1] && Stop(start, w) in after
      ensures Le(after[Stop(start, w)], Fin(Weight(w)))
    {
      assert E[..k + 1] == E[..k] + [E[k]];
      if w[n] !in E[..k] {
        var p := w[..n];
        assert w[n] == E[k] && w[|w| - 1] == w[n] && w[..|w| - 1] == p;
        assert Stop(start, p) == E[k].u;
        assert Le(before[E[k].u], Fin(Weight(p)));
      }
    }
  }

  /** After all edges of a pass, walks of `n + 1` edges are bounded. */
  lemma PassDone(E: seq<Edge>, start: Vertex, dist: map<Vertex, Ext>, n: nat)
    requires Bounded(E, start, dist, n) && BoundedThrough(E, start, dist, n, |E|)
    ensures Bounded(E, start, dist, n + 1)
  {
    forall w | IsWalk(E, start, w) && |w| <= n + 1 && Stop(start, w) in dist
      ensures Le(dist[Stop(start, w)], Fin(Weight(w)))
    {
      if |w| == n + 1 {
        assert w[|w| - 1] == w[n];
        assert E[..|E|] == E;
      }
    }
  }

  // ---------------------------------------------------------------------------
  // After the passes

  /** After `Passes(V)` passes every distance is exact, and parent links are tight. */
  lemma Exact(V: seq<Vertex>, E: seq<Edge>, start: Vertex, dist: map<Vertex, Ext>, parents: map<Vertex, Vertex>, tr: Trace)
    requires Within(E, V) && NonNegative(E)
    requires Inv(E, start, dist, parents, tr) && Bounded(E, start, dist, Passes(V))
    ensures forall v :: v in dist ==> IsShortest(E, start, v, dist[v])
    ensures start in dist ==> dist[start] == Fin(0)
    ensures Settled(E, dist, parents, tr)
  {
    forall v | v in dist ensures IsShortest(E, start, v, dist[v]) {
      ShortestAt(V, E, start, dist, tr, v);
    }
    forall x | x in parents ensures ParentOk(E, dist, parents, tr, x) && dist[x] == Add(dist[parents[x]], tr.pe[x].weight) {
      Tight(V, E, start, dist, parents, tr, x);
    }
  }

  /** A parent link is an edge of a shortest walk: the triangle inequality of exact distances
      meets the bound recorded when the link was set. */
  lemma Tight(V: seq<Vertex>, E: seq<Edge>, start: Vertex, dist: map<Vertex, Ext>, parents: map<Vertex, Vertex>, tr: Trace, x: Vertex)
    requires Within(E, V) && NonNegative(E)
    requires Inv(E, start, dist, parents, tr) && Bounded(E, start, dist, Passes(V)) && x in parents
    ensures ParentOk(E, dist, parents, tr, x) && dist[x] == Add(dist[parents[x]], tr.pe[x].weight)
  {
    assert ParentOk(E, dist, parents, tr, x);
    var p, e := parents[x], tr.pe[x];
    assert dist[p].Fin?;
    Extend(E, start, tr.wit[p], e);
    ShortestAt(V, E, start, dist, tr, x);
  }

  lemma ShortestAt(V: seq<Vertex>, E: seq<Edge>, start: Vertex, dist: map<Vertex, Ext>, tr: Trace, v: Vertex)
    requires Within(E, V) && NonNegative(E) && v in dist
    requires Sound(E, start, dist, tr.wit) && Bounded(E, start, dist, Passes(V))
    ensures IsShortest(E, start, v, dist[v])
  {
    forall w | IsWalk(E, start, w) && Stop(start, w) == v ensures Le(dist[v], Fin(Weight(w))) {
      var w' := Shorten(E, V, start, w);
    }
    if dist[v].Fin? {
      assert IsWalk(E, start, tr.wit[v]) && Stop(start, tr.wit[v]) == v;
    }
    if Reachable(E, start, v) {
      var w :| IsWalk(E, start, w) && Stop(start, w) == v;
      assert Le(dist[v], Fin(Weight(w)));
    }
  }
}
