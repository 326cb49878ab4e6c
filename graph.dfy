/** The time-expanded graph builder (`buildGraph`), identical in code/graph.py and projet.py,
    and the grouping of vertices by label that the builder and the path selectors share. */
module Graph {
  import opened Types
  import opened Walks

  // ---------------------------------------------------------------------------
  // Reference definitions

  /** The vertices `(u, t)` and `(v, t + l)` of every record, record by record. */
  function Endpoints(P: seq<Record>): seq<Vertex>
  {
    if P == [] then [] else Endpoints(P[..|P| - 1]) + [TravelEdge(P[|P| - 1]).u, TravelEdge(P[|P| - 1]).v]
  }

  /** The travel edge of a record: `(u, t) -> (v, t + l)` with weight `l`. */
  function TravelEdge(x: Record): Edge
  {
    Edge(Vertex(x.u, x.t), Vertex(x.v, x.t + x.l), x.l)
  }

  /** One travel edge per record, in record order. */
  function TravelEdges(P: seq<Record>): (r: seq<Edge>)
    ensures |r| == |P| && forall i :: 0 <= i < |P| ==> r[i] == TravelEdge(P[i])
  {
    if P == [] then [] else TravelEdges(P[..|P| - 1]) + [TravelEdge(P[|P| - 1])]
  }

  /** The vertices of `vs` that carry label `l`, in their order in `vs`
      (what `clustered_vertices[l]` holds after the grouping loop). */
  function Group(vs: seq<Vertex>, l: Label): seq<Vertex>
  {
    if vs == [] then []
    else
      var v := vs[|vs| - 1];
      Group(vs[..|vs| - 1], l) + (if v.name == l then [v] else [])
  }

  /** The labels of `vs` in order of first occurrence: the key order of the grouping dictionary. */
  function Labels(vs: seq<Vertex>): seq<Label>
  {
    if vs == [] then []
    else
      var ls := Labels(vs[..|vs| - 1]);
      var v := vs[|vs| - 1];
      if v.name in ls then ls else ls + [v.name]
  }

  /** Each label occurs once in `Labels(vs)`, and exactly the labels with a non-empty group
      occur. */
  lemma {:induction false} LabelsFacts(vs: seq<Vertex>)
    ensures NoDup(Labels(vs))
    ensures forall l :: l in Labels(vs) <==> Group(vs, l) != []
    decreases |vs|
  {
    if vs != [] {
      LabelsFacts(vs[..|vs| - 1]);
    }
  }

  /** The zero-weight waiting edges `g[j] -> g[j + 1]` along the order of `g`. */
  function Chain(g: seq<Vertex>): seq<Edge>
  {
    if |g| < 2 then [] else Chain(g[..|g| - 1]) + [Edge(g[|g| - 2], g[|g| - 1], 0)]
  }

  /** A chain through `k` vertices has `k - 1` edges, the j-th from `g[j]` to `g[j + 1]`. */
  lemma {:induction false} ChainFacts(g: seq<Vertex>)
    ensures |Chain(g)| == if |g| < 2 then 0 else |g| - 1
    ensures forall j :: 0 <= j < |Chain(g)| ==> Chain(g)[j] == Edge(g[j], g[j + 1], 0)
    decreases |g|
  {
    if |g| >= 2 {
      var g' := g[..|g| - 1];
      ChainFacts(g');
      forall j | 0 <= j < |Chain(g)| ensures Chain(g)[j] == Edge(g[j], g[j + 1], 0) {
        if j < |Chain(g')| {
          assert g'[j] == g[j] && g'[j + 1] == g[j + 1];
        }
      }
    }
  }

  /** The waiting chains of the labels `ls`, one label after the other. */
  function WaitingEdges(vs: seq<Vertex>, ls: seq<Label>): seq<Edge>
  {
    if ls == [] then [] else WaitingEdges(vs, ls[..|ls| - 1]) + Chain(Group(vs, ls[|ls| - 1]))
  }

  /** Looking a label up in a `defaultdict(list)` of clusters: a missing label reads as `[]`. */
  function Cluster(clusters: map<Label, seq<Vertex>>, l: Label): seq<Vertex>
  {
    if l in clusters then clusters[l] else []
  }

  /** `{v[0]: v for v in vs}`: each label mapped to the last of its vertices, since a later
      vertex overwrites an earlier one of the same label. */
  function Latest(vs: seq<Vertex>): map<Label, Vertex>
  {
    if vs == [] then map[] else Latest(vs[..|vs| - 1])[vs[|vs| - 1].name := vs[|vs| - 1]]
  }

  /** A label is a key of `Latest` exactly when it has vertices, and it maps to the last one. */
  lemma {:induction false} LatestFacts(vs: seq<Vertex>, l: Label)
    ensures l in Latest(vs) <==> Group(vs, l) != []
    ensures l in Latest(vs) ==> Latest(vs)[l] == Group(vs, l)[|Group(vs, l)| - 1]
    decreases |vs|
  {
    if vs != [] {
      LatestFacts(vs[..|vs| - 1], l);
    }
  }

  // ---------------------------------------------------------------------------
  // The operations

  /** Groups vertices by label, as the `defaultdict(list)` loop does: `clusters[l]` is the list
      of l's vertices in insertion order and `order` is the order the keys were created in. */
  method ClusterByLabel(vs: seq<Vertex>) returns (clusters: map<Label, seq<Vertex>>, order: seq<Label>)
    ensures order == Labels(vs)
    ensures forall l :: l in clusters <==> l in order
    ensures forall l :: l in clusters ==> clusters[l] == Group(vs, l)
    ensures forall l :: l !in clusters ==> Group(vs, l) == []
  {
    clusters, order := map[], [];
    for i := 0 to |vs|
      invariant order == Labels(vs[..i])
      invariant forall l :: l in clusters <==> l in order
      invariant forall l :: l in clusters ==> clusters[l] == Group(vs[..i], l)
    {
      var v := vs[i];
      assert vs[..i + 1][..i] == vs[..i];
      LabelsFacts(vs[..i]);
      if v.name !in clusters {
        order := order + [v.name];
        clusters := clusters[v.name := []];
      }
      clusters := clusters[v.name := clusters[v.name] + [v]];
    }
    assert vs[..|vs|] == vs;
    LabelsFacts(vs);
  }

  /** `buildGraph(P)`: the deduplicated vertex list in first-insertion order, one travel edge
      per record, then for each label (in key order) the waiting chain of its vertices in
      insertion order. */
  method BuildGraph(P: seq<Record>) returns (vertices: seq<Vertex>, edges: seq<Edge>)
    ensures vertices == Dedup(Endpoints(P))
    ensures edges == TravelEdges(P) + WaitingEdges(vertices, Labels(vertices))
  {
    edges, vertices := [], [];
    for i := 0 to |P|
      invariant vertices == Dedup(Endpoints(P[..i]))
      invariant edges == TravelEdges(P[..i])
    {
      var x := P[i];
      RecordStep(P, i);
      ghost var before := vertices;
      if Vertex(x.u, x.t) !in vertices {
        vertices := vertices + [Vertex(x.u, x.t)];
      }
      assert vertices == AppendNew(before, TravelEdge(x).u);
      ghost var middle := vertices;
      if Vertex(x.v, x.t + x.l) !in vertices {
        vertices := vertices + [Vertex(x.v, x.t + x.l)];
      }
      assert vertices == AppendNew(middle, TravelEdge(x).v);
      edges := edges + [Edge(Vertex(x.u, x.t), Vertex(x.v, x.t + x.l), x.l)];
    }
    assert P[..|P|] == P;
    var waiting := WaitingChains(vertices);
    edges := edges + waiting;
  }

  /** The second half of `buildGraph`: for each label in key order, the edges
      `g[j] -> g[j + 1]` of weight 0 along the label's vertices `g` in insertion order. */
  method WaitingChains(vertices: seq<Vertex>) returns (edges: seq<Edge>)
    ensures edges == WaitingEdges(vertices, Labels(vertices))
  {
    var clusters, order := ClusterByLabel(vertices);
    LabelsFacts(vertices);
    edges := [];
    for k := 0 to |order|
      invariant edges == WaitingEdges(vertices, order[..k])
    {
      var g := clusters[order[k]];
      assert g == Group(vertices, order[k]);
      WaitingStep(vertices, order, k);
      edges := AppendChain(edges, g);
    }
    assert order[..|order|] == order;
  }

  /** The inner loop of the key loop: appends `g[j] -> g[j + 1]` for each `j`. */
  method AppendChain(edges0: seq<Edge>, g: seq<Vertex>) returns (edges: seq<Edge>)
    ensures edges == edges0 + Chain(g)
  {
    edges := edges0;
    if g == [] {
      return;
    }
    var j := 0;
    while j + 1 < |g|
      invariant 0 <= j < |g|
      invariant edges == edges0 + Chain(g[..j + 1])
    {
      ChainStep(g, j);
      edges := edges + [Edge(g[j], g[j + 1], 0)];
      j := j + 1;
    }
    assert g[..j + 1] == g;
  }

  /** One pass of the key loop appends the chain of the next label. */
  lemma WaitingStep(vs: seq<Vertex>, ls: seq<Label>, k: nat)
    requires k < |ls|
    ensures WaitingEdges(vs, ls[..k + 1]) == WaitingEdges(vs, ls[..k]) + Chain(Group(vs, ls[k]))
  {
    assert ls[..k + 1][..k] == ls[..k];
  }

  /** One pass of the inner loop appends the waiting edge `g[j] -> g[j + 1]`. */
  lemma ChainStep(g: seq<Vertex>, j: nat)
    requires j + 1 < |g|
    ensures Chain(g[..j + 2]) == Chain(g[..j + 1]) + [Edge(g[j], g[j + 1], 0)]
  {
    assert g[..j + 2][..j + 1] == g[..j + 1];
  }

  /** One pass of the record loop adds the record's two endpoints (each unless already
      present) and its travel edge. */
  lemma RecordStep(P: seq<Record>, i: nat)
    requires i < |P|
    ensures Dedup(Endpoints(P[..i + 1])) ==
      AppendNew(AppendNew(Dedup(Endpoints(P[..i])), TravelEdge(P[i]).u), TravelEdge(P[i]).v)
    ensures TravelEdges(P[..i + 1]) == TravelEdges(P[..i]) + [TravelEdge(P[i])]
  {
    assert P[..i + 1][..i] == P[..i];
    var ep, a, b := Endpoints(P[..i]), TravelEdge(P[i]).u, TravelEdge(P[i]).v;
    assert Endpoints(P[..i + 1]) == (ep + [a]) + [b];
    DedupSnoc(ep + [a], b);
    DedupSnoc(ep, a);
  }

  // ---------------------------------------------------------------------------
  // Properties of the built graph

  lemma {:induction false} GroupMembers(vs: seq<Vertex>, l: Label)
    ensures forall v :: v in Group(vs, l) <==> v in vs && v.name == l
    decreases |vs|
  {
    if vs != [] {
      var vs' := vs[..|vs| - 1];
      assert vs == vs' + [vs[|vs| - 1]];
      GroupMembers(vs', l);
    }
  }

  lemma {:induction false} EndpointsMembers(P: seq<Record>)
    ensures forall x :: x in Endpoints(P) <==>
      exists i :: 0 <= i < |P| && (x == TravelEdge(P[i]).u || x == TravelEdge(P[i]).v)
    decreases |P|
  {
    if P != [] {
      var P' := P[..|P| - 1];
      EndpointsMembers(P');
      forall x ensures x in Endpoints(P) <==>
        exists i :: 0 <= i < |P| && (x == TravelEdge(P[i]).u || x == TravelEdge(P[i]).v)
      {
        if x in Endpoints(P') {
          var i :| 0 <= i < |P'| && (x == TravelEdge(P'[i]).u || x == TravelEdge(P'[i]).v);
          assert P'[i] == P[i];
        }
        if exists i :: 0 <= i < |P| && (x == TravelEdge(P[i]).u || x == TravelEdge(P[i]).v) {
          var i :| 0 <= i < |P| && (x == TravelEdge(P[i]).u || x == TravelEdge(P[i]).v);
          if i < |P'| {
            assert P'[i] == P[i];
          }
        }
      }
    }
  }

  /** The vertex list has no repetition, holds both endpoints of every record, and holds
      nothing else: every vertex is an endpoint of some record's travel edge. It has at most
      two vertices per record. */
  lemma BuiltVertices(P: seq<Record>)
    ensures NoDup(Dedup(Endpoints(P)))
    ensures forall i :: 0 <= i < |P| ==>
      TravelEdge(P[i]).u in Dedup(Endpoints(P)) && TravelEdge(P[i]).v in Dedup(Endpoints(P))
    ensures forall x :: x in Dedup(Endpoints(P)) ==>
      exists i :: 0 <= i < |P| && (x == TravelEdge(P[i]).u || x == TravelEdge(P[i]).v)
    ensures |Dedup(Endpoints(P))| <= 2 * |P|
  {
    DedupFacts(Endpoints(P));
    EndpointsMembers(P);
    EndpointsLength(P);
  }

  lemma {:induction false} EndpointsLength(P: seq<Record>)
    ensures |Endpoints(P)| == 2 * |P|
    decreases |P|
  {
    if P != [] {
      EndpointsLength(P[..|P| - 1]);
    }
  }

  /** Every waiting edge has weight 0 and joins two vertices of `vs` with the same label. */
  lemma {:induction false} WaitingEdgesShape(vs: seq<Vertex>, ls: seq<Label>)
    ensures forall e :: e in WaitingEdges(vs, ls) ==>
      e.weight == 0 && e.u.name == e.v.name && e.u in vs && e.v in vs
    decreases |ls|
  {
    if ls != [] {
      WaitingEdgesShape(vs, ls[..|ls| - 1]);
      var m := ls[|ls| - 1];
      var g := Group(vs, m);
      GroupMembers(vs, m);
      ChainFacts(g);
      forall e | e in Chain(g) ensures e.weight == 0 && e.u.name == e.v.name && e.u in vs && e.v in vs {
        var j :| 0 <= j < |Chain(g)| && Chain(g)[j] == e;
        assert g[j] in g && g[j + 1] in g;
      }
    }
  }

  /** Every endpoint of every built edge is a built vertex, and when every duration is
      non-negative so is every edge weight. */
  lemma BuiltEdgesWithin(P: seq<Record>)
    ensures Within(TravelEdges(P) + WaitingEdges(Dedup(Endpoints(P)), Labels(Dedup(Endpoints(P)))),
                   Dedup(Endpoints(P)))
    ensures (forall i :: 0 <= i < |P| ==> P[i].l >= 0) ==>
      NonNegative(TravelEdges(P) + WaitingEdges(Dedup(Endpoints(P)), Labels(Dedup(Endpoints(P)))))
  {
    var vs := Dedup(Endpoints(P));
    var T, W := TravelEdges(P), WaitingEdges(vs, Labels(vs));
    BuiltVertices(P);
    WaitingEdgesShape(vs, Labels(vs));
    forall e: Edge | e in T + W ensures e.u in vs && e.v in vs && (e in T ==> exists i :: 0 <= i < |P| && e.weight == P[i].l) {
      if e in T {
        var i :| 0 <= i < |T| && T[i] == e;
        assert e == TravelEdge(P[i]);
      }
    }
  }

  /** The edges of `E` that leave a vertex labelled `l`, in order. */
  function Leaving(E: seq<Edge>, l: Label): seq<Edge>
  {
    if E == [] then []
    else
      var e := E[|E| - 1];
      Leaving(E[..|E| - 1], l) + (if e.u.name == l then [e] else [])
  }

  lemma {:induction false} LeavingConcat(A: seq<Edge>, B: seq<Edge>, l: Label)
    ensures Leaving(A + B, l) == Leaving(A, l) + Leaving(B, l)
    decreases |B|
  {
    if B == [] {
      assert A + B == A;
    } else {
      assert (A + B)[..|A + B| - 1] == A + B[..|B| - 1];
      LeavingConcat(A, B[..|B| - 1], l);
    }
  }

  lemma {:induction false} LeavingAll(E: seq<Edge>, l: Label)
    requires forall e :: e in E ==> e.u.name == l
    ensures Leaving(E, l) == E
    decreases |E|
  {
    if E != [] {
      var E' := E[..|E| - 1];
      forall e | e in E' ensures e.u.name == l {
        var i :| 0 <= i < |E'| && E'[i] == e;
        assert E[i] == e;
      }
      LeavingAll(E', l);
      assert E[|E| - 1] in E;
      assert E == E' + [E[|E| - 1]];
    }
  }

  lemma {:induction false} LeavingNone(E: seq<Edge>, l: Label)
    requires forall e :: e in E ==> e.u.name != l
    ensures Leaving(E, l) == []
    decreases |E|
  {
    if E != [] {
      var E' := E[..|E| - 1];
      forall e | e in E' ensures e.u.name != l {
        var i :| 0 <= i < |E'| && E'[i] == e;
        assert E[i] == e;
      }
      LeavingNone(E', l);
      assert E[|E| - 1] in E;
    }
  }

  /** All edges of a chain through `g` leave vertices of `g`. */
  lemma ChainLeaves(g: seq<Vertex>, m: Label)
    requires forall v :: v in g ==> v.name == m
    ensures forall e :: e in Chain(g) ==> e.u.name == m
  {
    ChainFacts(g);
    forall e | e in Chain(g) ensures e.u.name == m {
      var r := Chain(g);
      var j :| 0 <= j < |r| && r[j] == e;
      assert |r| == |g| - 1;
      assert r[j] == Edge(g[j], g[j + 1], 0);
      assert g[j] in g;
    }
  }

  /** For each label `l`, the waiting edges leaving l's vertices are exactly the chain through
      l's vertices in insertion order: k occurrences give k - 1 edges, consecutive in the
      order the vertices were inserted (not sorted by instant). */
  lemma {:induction false} WaitingChainOfLabel(vs: seq<Vertex>, ls: seq<Label>, l: Label)
    requires NoDup(ls)
    ensures Leaving(WaitingEdges(vs, ls), l) == if l in ls then Chain(Group(vs, l)) else []
    decreases |ls|
  {
    if ls != [] {
      var ls' := ls[..|ls| - 1];
      var m := ls[|ls| - 1];
      assert ls == ls' + [m];
      assert NoDup(ls');
      WaitingChainOfLabel(vs, ls', l);
      LeavingConcat(WaitingEdges(vs, ls'), Chain(Group(vs, m)), l);
      GroupMembers(vs, m);
      ChainLeaves(Group(vs, m), m);
      if m == l {
        LeavingAll(Chain(Group(vs, m)), l);
        assert l !in ls';
      } else {
        LeavingNone(Chain(Group(vs, m)), l);
      }
    }
  }

  lemma {:induction false} LeavingWithin(E: seq<Edge>, l: Label)
    ensures forall e :: e in Leaving(E, l) ==> e in E
    decreases |E|
  {
    if E != [] {
      LeavingWithin(E[..|E| - 1], l);
      assert forall e :: e in E[..|E| - 1] ==> e in E;
    }
  }

  /** Sum over the labels `ls` of the sizes of their groups. */
  function GroupSizes(vs: seq<Vertex>, ls: seq<Label>): nat
  {
    if ls == [] then 0 else GroupSizes(vs, ls[..|ls| - 1]) + |Group(vs, ls[|ls| - 1])|
  }

  lemma GroupSnoc(vs: seq<Vertex>, x: Vertex, l: Label)
    ensures Group(vs + [x], l) == Group(vs, l) + (if x.name == l then [x] else [])
  {
    assert (vs + [x])[..|vs|] == vs;
  }

  lemma {:induction false} GroupSizesSnoc(vs: seq<Vertex>, x: Vertex, ls: seq<Label>)
    requires NoDup(ls)
    ensures GroupSizes(vs + [x], ls) == GroupSizes(vs, ls) + (if x.name in ls then 1 else 0)
    decreases |ls|
  {
    if ls != [] {
      var ls' := ls[..|ls| - 1];
      assert ls == ls' + [ls[|ls| - 1]];
      assert NoDup(ls');
      GroupSizesSnoc(vs, x, ls');
      GroupSnoc(vs, x, ls[|ls| - 1]);
    }
  }

  /** The groups partition the vertex list. */
  lemma {:induction false} GroupSizesTotal(vs: seq<Vertex>)
    ensures GroupSizes(vs, Labels(vs)) == |vs|
    decreases |vs|
  {
    if vs != [] {
      var vs' := vs[..|vs| - 1];
      var x := vs[|vs| - 1];
      assert vs == vs' + [x];
      GroupSizesTotal(vs');
      var ls := Labels(vs');
      LabelsFacts(vs');
      GroupSizesSnoc(vs', x, ls);
      if x.name !in ls {
        assert Labels(vs) == ls + [x.name];
        assert (ls + [x.name])[..|ls|] == ls;
        GroupSnoc(vs', x, x.name);
      }
    }
  }

  lemma {:induction false} WaitingLength(vs: seq<Vertex>, ls: seq<Label>)
    requires forall l :: l in ls ==> Group(vs, l) != []
    ensures |WaitingEdges(vs, ls)| == GroupSizes(vs, ls) - |ls|
    decreases |ls|
  {
    if ls != [] {
      WaitingLength(vs, ls[..|ls| - 1]);
      ChainFacts(Group(vs, ls[|ls| - 1]));
    }
  }

  /** The builder adds `|V| - (number of labels)` waiting edges, so the graph has
      `|P| + |V| - (number of labels)` edges. */
  lemma EdgeCount(P: seq<Record>)
    ensures var vs := Dedup(Endpoints(P));
      |TravelEdges(P) + WaitingEdges(vs, Labels(vs))| == |P| + |vs| - |Labels(vs)|
  {
    var vs := Dedup(Endpoints(P));
    LabelsFacts(vs);
    WaitingLength(vs, Labels(vs));
    GroupSizesTotal(vs);
  }
}
