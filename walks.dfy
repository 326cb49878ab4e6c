/** Walks over an edge list: the reference notion of reachability and of shortest distance
    against which the engines are proved. */
module Walks {
  import opened Types

  /** Where the walk `w` that leaves `s` stops. */
  function Stop(s: Vertex, w: seq<Edge>): Vertex
  {
    if w == [] then s else w[|w| - 1].v
  }

  /** `w` is a walk from `s` along edges of `E`: each edge is in `E` and leaves where the
      previous one arrived. */
  ghost predicate IsWalk(E: seq<Edge>, s: Vertex, w: seq<Edge>)
    decreases |w|
  {
    w == [] ||
    (IsWalk(E, s, w[..|w| - 1]) && w[|w| - 1] in E && w[|w| - 1].u == Stop(s, w[..|w| - 1]))
  }

  /** Sum of the weights of the edges of `w`. */
  function Weight(w: seq<Edge>): int
  {
    if w == [] then 0 else Weight(w[..|w| - 1]) + w[|w| - 1].weight
  }

  /** There is a walk from `s` to `d` (the empty walk reaches `s` itself). */
  ghost predicate Reachable(E: seq<Edge>, s: Vertex, d: Vertex)
  {
    exists w :: IsWalk(E, s, w) && Stop(s, w) == d
  }

  /** What an engine needs to find a non-trivial path from `s` to `d`. */
  ghost predicate Connects(E: seq<Edge>, s: Vertex, d: Vertex)
  {
    s != d && Reachable(E, s, d)
  }

  /** All weights are non-negative, as durations are. */
  predicate NonNegative(E: seq<Edge>)
  {
    forall e :: e in E ==> e.weight >= 0
  }

  /** Every edge endpoint is one of the vertices (the engines index their tables by both). */
  predicate Within(E: seq<Edge>, V: seq<Vertex>)
  {
    forall e :: e in E ==> e.u in V && e.v in V
  }

  /** Some edge of `E` goes from `a` to `b`. */
  ghost predicate HasEdge(E: seq<Edge>, a: Vertex, b: Vertex)
  {
    exists e :: e in E && e.u == a && e.v == b
  }

  /** `p` is a vertex sequence from `s` to `d` whose consecutive vertices are joined by edges. */
  ghost predicate IsPathBetween(E: seq<Edge>, s: Vertex, d: Vertex, p: seq<Vertex>)
  {
    |p| > 0 && p[0] == s && p[|p| - 1] == d &&
    forall i :: 0 <= i < |p| - 1 ==> HasEdge(E, p[i], p[i + 1])
  }

  /** `r` is the shortest distance from `s` to `d`: infinite exactly when `d` is unreachable,
      otherwise the weight of some walk and at most the weight of every walk. */
  ghost predicate IsShortest(E: seq<Edge>, s: Vertex, d: Vertex, r: Ext)
  {
    (r.Inf? <==> !Reachable(E, s, d)) &&
    (r.Fin? ==>
      (exists w :: IsWalk(E, s, w) && Stop(s, w) == d && Weight(w) == r.n) &&
      (forall w :: IsWalk(E, s, w) && Stop(s, w) == d ==> r.n <= Weight(w)))
  }

  /** The vertices a walk passes through, `s` first. */
  function Visits(s: Vertex, w: seq<Edge>): (r: seq<Vertex>)
    ensures |r| == |w| + 1 && r[0] == s
  {
    if w == [] then [s] else Visits(s, w[..|w| - 1]) + [w[|w| - 1].v]
  }

  /** The vertex list `p` runs along a walk from `s` to `d` of weight `n`. */
  ghost predicate Realises(E: seq<Edge>, s: Vertex, d: Vertex, p: seq<Vertex>, n: int)
  {
    exists w :: IsWalk(E, s, w) && Stop(s, w) == d && Visits(s, w) == p && Weight(w) == n
  }

  /** `p` lists the vertices of the walk `wc` from `x` to `end`, which weighs `gap`. */
  ghost predicate Trail(E: seq<Edge>, x: Vertex, end: Vertex, p: seq<Vertex>, wc: seq<Edge>, gap: int)
  {
    IsWalk(E, x, wc) && Stop(x, wc) == end && Visits(x, wc) == p && Weight(wc) == gap
  }

  // ---------------------------------------------------------------------------
  // Lemmas about walks

  lemma {:induction false} VisitsAt(s: Vertex, w: seq<Edge>, i: nat)
    requires i <= |w|
    ensures Visits(s, w)[i] == Stop(s, w[..i])
    decreases |w|
  {
    if i < |w| {
      assert w[..|w| - 1][..i] == w[..i];
      VisitsAt(s, w[..|w| - 1], i);
    } else {
      assert w[..i] == w;
    }
  }

  lemma {:induction false} WeightNonNegative(E: seq<Edge>, s: Vertex, w: seq<Edge>)
    requires NonNegative(E) && IsWalk(E, s, w)
    ensures Weight(w) >= 0
    decreases |w|
  {
    if w != [] {
      WeightNonNegative(E, s, w[..|w| - 1]);
    }
  }

  /** Extending a walk by one edge that leaves where it stops. */
  lemma Extend(E: seq<Edge>, s: Vertex, w: seq<Edge>, e: Edge)
    requires IsWalk(E, s, w) && e in E && e.u == Stop(s, w)
    ensures IsWalk(E, s, w + [e]) && Stop(s, w + [e]) == e.v
    ensures Weight(w + [e]) == Weight(w) + e.weight
  {
    assert (w + [e])[..|w|] == w;
  }

  /** A walk splits at every position into two walks, and weights add up. */
  lemma {:induction false} Split(E: seq<Edge>, s: Vertex, a: seq<Edge>, b: seq<Edge>)
    ensures IsWalk(E, s, a + b) <==> IsWalk(E, s, a) && IsWalk(E, Stop(s, a), b)
    ensures Stop(s, a + b) == Stop(Stop(s, a), b)
    ensures Weight(a + b) == Weight(a) + Weight(b)
    decreases |b|
  {
    if b == [] {
      assert a + b == a;
    } else {
      var b' := b[..|b| - 1];
      assert (a + b)[..|a + b| - 1] == a + b';
      assert (a + b)[|a + b| - 1] == b[|b| - 1];
      Split(E, s, a, b');
    }
  }

  /** Every prefix of a walk is a walk. */
  lemma Prefix(E: seq<Edge>, s: Vertex, w: seq<Edge>, i: nat)
    requires IsWalk(E, s, w) && i <= |w|
    ensures IsWalk(E, s, w[..i])
  {
    assert w == w[..i] + w[i..];
    Split(E, s, w[..i], w[i..]);
  }

  /** A sequence without repetitions drawn from a set has at most as many elements as the set. */
  lemma {:induction false} DistinctBound<T>(xs: seq<T>, S: set<T>)
    requires NoDup(xs) && forall i :: 0 <= i < |xs| ==> xs[i] in S
    ensures |xs| <= |S|
    decreases |xs|
  {
    if xs != [] {
      var x := xs[|xs| - 1];
      var ys := xs[..|xs| - 1];
      forall i | 0 <= i < |ys| ensures ys[i] in S - {x} {
        assert ys[i] == xs[i];
      }
      DistinctBound(ys, S - {x});
    }
  }

  /** The set of elements of a sequence is no larger than the sequence. */
  lemma {:induction false} SetOfSeqBound<T>(V: seq<T>)
    ensures |set x | x in V| <= |V|
    decreases |V|
  {
    if V != [] {
      var V' := V[..|V| - 1];
      SetOfSeqBound(V');
      assert (set x | x in V) == (set x | x in V') + {V[|V| - 1]};
    }
  }

  /** Cutting a cycle out of a walk gives a walk between the same vertices that is no heavier;
      repeating this shortens any walk to one that visits each vertex at most once, so it has
      fewer edges than there are vertices. */
  lemma {:induction false} Shorten(E: seq<Edge>, V: seq<Vertex>, s: Vertex, w: seq<Edge>)
    returns (w': seq<Edge>)
    requires Within(E, V) && NonNegative(E) && IsWalk(E, s, w)
    ensures IsWalk(E, s, w') && Stop(s, w') == Stop(s, w) && Weight(w') <= Weight(w)
    ensures w' == [] || |w'| < |V|
    decreases |w|
  {
    if NoDup(Visits(s, w)) {
      w' := w;
      if w != [] {
        SimpleWalkBound(E, V, s, w);
      }
    } else {
      var u := CutLoop(E, s, w);
      w' := Shorten(E, V, s, u);
    }
  }

  /** A walk that visits no vertex twice has fewer edges than there are vertices. */
  lemma SimpleWalkBound(E: seq<Edge>, V: seq<Vertex>, s: Vertex, w: seq<Edge>)
    requires Within(E, V) && IsWalk(E, s, w) && w != [] && NoDup(Visits(s, w))
    ensures |w| < |V|
  {
    var vs := Visits(s, w);
    var S := set x | x in V;
    forall i | 0 <= i < |vs| ensures vs[i] in S {
      VisitsAt(s, w, i);
      if i == 0 {
        assert w[..1] == [w[0]];
        assert IsWalk(E, s, w[..1]) by { Prefix(E, s, w, 1); }
        assert w[0] in E;
      } else {
        Prefix(E, s, w, i);
        assert w[..i][i - 1] == w[i - 1];
      }
    }
    DistinctBound(vs, S);
    SetOfSeqBound(V);
  }

  /** A walk that visits some vertex twice loses the loop between the two visits: a shorter
      walk to the same vertex, no heavier. */
  lemma CutLoop(E: seq<Edge>, s: Vertex, w: seq<Edge>) returns (u: seq<Edge>)
    requires NonNegative(E) && IsWalk(E, s, w) && !NoDup(Visits(s, w))
    ensures IsWalk(E, s, u) && Stop(s, u) == Stop(s, w) && Weight(u) <= Weight(w) && |u| < |w|
  {
    var vs := Visits(s, w);
    var i, j :| 0 <= i < j < |vs| && vs[i] == vs[j];
    VisitsAt(s, w, i);
    VisitsAt(s, w, j);
    var a, c := w[..i], w[j..];
    var b := w[i..j];
    assert w == a + (b + c);
    Split(E, s, a, b + c);
    Split(E, Stop(s, a), b, c);
    assert a + b == w[..j];
    Split(E, s, a, b);
    WeightNonNegative(E, Stop(s, a), b);
    Split(E, s, a, c);
    u := a + c;
  }


  /** Reachability is witnessed by a walk with fewer edges than vertices. */
  lemma ShortWitness(E: seq<Edge>, V: seq<Vertex>, s: Vertex, d: Vertex) returns (w: seq<Edge>)
    requires Within(E, V) && NonNegative(E) && Reachable(E, s, d)
    ensures IsWalk(E, s, w) && Stop(s, w) == d && (w == [] || |w| < |V|)
  {
    var w0 :| IsWalk(E, s, w0) && Stop(s, w0) == d;
    w := Shorten(E, V, s, w0);
  }

  /** Putting an edge in front of a walk that leaves where the edge arrives. */
  lemma Prepend(E: seq<Edge>, e: Edge, w: seq<Edge>)
    requires e in E && IsWalk(E, e.v, w)
    ensures IsWalk(E, e.u, [e] + w) && Stop(e.u, [e] + w) == Stop(e.v, w)
    ensures Visits(e.u, [e] + w) == [e.u] + Visits(e.v, w)
    ensures Weight([e] + w) == e.weight + Weight(w)
  {
    assert IsWalk(E, e.u, [e]) by { assert [e][..0] == []; }
    Split(E, e.u, [e], w);
    VisitsPrepend(e, w);
  }

  lemma {:induction false} VisitsPrepend(e: Edge, w: seq<Edge>)
    ensures Visits(e.u, [e] + w) == [e.u] + Visits(e.v, w)
    decreases |w|
  {
    if w == [] {
      assert [e] + w == [e] && [e][..0] == [];
    } else {
      var w' := w[..|w| - 1];
      assert ([e] + w)[..|[e] + w| - 1] == [e] + w';
      VisitsPrepend(e, w');
    }
  }

  /** A realised vertex list is a path: it runs from `s` to `d` along edges of `E`. */
  lemma {:induction false} RealisedPath(E: seq<Edge>, s: Vertex, w: seq<Edge>)
    requires IsWalk(E, s, w)
    ensures IsPathBetween(E, s, Stop(s, w), Visits(s, w))
    decreases |w|
  {
    if w != [] {
      var w' := w[..|w| - 1];
      RealisedPath(E, s, w');
      var p, p' := Visits(s, w), Visits(s, w');
      assert p == p' + [w[|w| - 1].v];
      forall i | 0 <= i < |p| - 1 ensures HasEdge(E, p[i], p[i + 1]) {
        if i < |p'| - 1 {
          assert p[i] == p'[i] && p[i + 1] == p'[i + 1];
        } else {
          assert p[i] == p'[|p'| - 1];
          VisitsAt(s, w', |w'|);
          assert w'[..|w'|] == w';
        }
      }
    }
  }

  /** A finite shortest distance over non-negative weights is non-negative. */
  lemma ShortestNonNegative(E: seq<Edge>, s: Vertex, d: Vertex, r: Ext)
    requires NonNegative(E) && IsShortest(E, s, d, r) && r.Fin?
    ensures r.n >= 0
  {
    var w :| IsWalk(E, s, w) && Stop(s, w) == d && Weight(w) == r.n;
    WeightNonNegative(E, s, w);
  }
}
