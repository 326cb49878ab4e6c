/** Hop compaction: the vertex walk a strategy gets back from `bellman_ford` becomes the list of
    transitions `(fromLabel, toLabel, fromInstant, 1)` between consecutive vertices with
    different labels; same-label (waiting) steps are dropped. */
module Hops {
  import opened Types

  /** The hop of the step `a -> b`. */
  function HopOf(a: Vertex, b: Vertex): Hop
  {
    Hop(a.name, b.name, a.instant, 1)
  }

  /** The hops of the steps of `p` whose two vertices have different labels, in order. */
  function Compact(p: seq<Vertex>): seq<Hop>
  {
    if |p| < 2 then []
    else
      var a, b := p[|p| - 2], p[|p| - 1];
      Compact(p[..|p| - 1]) + (if a.name != b.name then [HopOf(a, b)] else [])
  }

  /** Each hop arrives where the next one departs from. */
  predicate Chained(h: seq<Hop>)
  {
    forall i :: 0 <= i < |h| - 1 ==> h[i].toLabel == h[i + 1].fromLabel
  }

  /** The loop of `type_4` (and of every strategy in projet.py): append the hop of each step
      `path[i] -> path[i + 1]` whose labels differ. */
  method CompactHops(path: seq<Vertex>) returns (hops: seq<Hop>)
    ensures hops == Compact(path)
  {
    hops := [];
    if |path| < 2 {
      return;
    }
    for i := 0 to |path| - 1
      invariant hops == Compact(path[..i + 1])
    {
      assert path[..i + 2][..i + 1] == path[..i + 1];
      if path[i].name != path[i + 1].name {
        hops := hops + [HopOf(path[i], path[i + 1])];
      }
    }
    assert path[..|path|] == path;
  }

  /** The compacted hops form a chain from the label of the first vertex to the label of the
      last: the first hop leaves `p[0]`'s label, each hop arrives where the next departs, the
      last hop arrives at the last vertex's label. Every hop changes label, has weight 1 and
      departs at the instant of a vertex of `p`. There are no hops exactly when all labels
      are equal. */
  lemma CompactFacts(p: seq<Vertex>)
    ensures Chained(Compact(p))
    ensures Compact(p) != [] ==>
      Compact(p)[0].fromLabel == p[0].name && Compact(p)[|Compact(p)| - 1].toLabel == p[|p| - 1].name
    ensures Compact(p) == [] <==> forall i :: 0 <= i < |p| ==> p[i].name == p[0].name
    ensures forall h :: h in Compact(p) ==>
      h.fromLabel != h.toLabel && h.weight == 1 && exists v :: v in p && v.name == h.fromLabel && v.instant == h.departure
    ensures |Compact(p)| <= if |p| < 2 then 0 else |p| - 1
  {
    CompactChain(p);
    CompactNone(p);
    CompactEach(p);
    CompactLength(p);
  }

  lemma {:induction false} CompactChain(p: seq<Vertex>)
    ensures Chained(Compact(p))
    ensures Compact(p) != [] ==>
      Compact(p)[0].fromLabel == p[0].name && Compact(p)[|Compact(p)| - 1].toLabel == p[|p| - 1].name
    decreases |p|
  {
    if |p| >= 2 {
      var q := p[..|p| - 1];
      var a, b := p[|p| - 2], p[|p| - 1];
      CompactChain(q);
      assert q[|q| - 1] == a && q[0] == p[0];
      if a.name != b.name {
        var h := Compact(q);
        var h' := h + [HopOf(a, b)];
        assert Compact(p) == h';
        if h != [] {
          assert h[|h| - 1].toLabel == a.name;
          forall i | 0 <= i < |h'| - 1 ensures h'[i].toLabel == h'[i + 1].fromLabel {
            if i < |h| - 1 {
              assert h'[i] == h[i] && h'[i + 1] == h[i + 1];
            }
          }
        } else {
          CompactNone(q);
          assert q[|q| - 1].name == q[0].name;
        }
      }
    }
  }

  lemma {:induction false} CompactNone(p: seq<Vertex>)
    ensures Compact(p) == [] <==> forall i :: 0 <= i < |p| ==> p[i].name == p[0].name
    decreases |p|
  {
    if |p| >= 2 {
      var q := p[..|p| - 1];
      var a, b := p[|p| - 2], p[|p| - 1];
      CompactNone(q);
      assert q[|q| - 1] == a && q[0] == p[0];
      forall i | 0 <= i < |q| ensures q[i] == p[i] { }
      if a.name == b.name {
        assert Compact(p) == Compact(q);
      } else {
        assert Compact(p) == Compact(q) + [HopOf(a, b)];
        assert !(p[|p| - 1].name == p[0].name && p[|p| - 2].name == p[0].name);
      }
    }
  }

  lemma {:induction false} CompactEach(p: seq<Vertex>)
    ensures forall h :: h in Compact(p) ==>
      h.fromLabel != h.toLabel && h.weight == 1 && exists v :: v in p && v.name == h.fromLabel && v.instant == h.departure
    decreases |p|
  {
    if |p| >= 2 {
      var q := p[..|p| - 1];
      var a, b := p[|p| - 2], p[|p| - 1];
      CompactEach(q);
      assert forall v :: v in q ==> v in p;
      assert a in p;
      assert Compact(p) == Compact(q) + (if a.name != b.name then [HopOf(a, b)] else []);
    }
  }

  lemma {:induction false} CompactLength(p: seq<Vertex>)
    ensures |Compact(p)| <= if |p| < 2 then 0 else |p| - 1
    decreases |p|
  {
    if |p| >= 2 {
      CompactLength(p[..|p| - 1]);
    }
  }
}
