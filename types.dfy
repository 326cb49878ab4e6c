/** Values shared by the graph builder, the shortest-path engines and the path selectors. */
module Types {

  /** A node label of the raw records (an opaque name such as "a"). */
  type Label = string

  /** A vertex of the time-expanded graph: the pair (label, instant). */
  datatype Vertex = Vertex(name: Label, instant: int)

  /** A raw temporal record (u, v, t, l): leave u at instant t, reach v at instant t + l. */
  datatype Record = Record(u: Label, v: Label, t: int, l: int)

  /** A directed weighted edge of the time-expanded graph (the `Edge` class). */
  datatype Edge = Edge(u: Vertex, v: Vertex, weight: int)

  /** One compacted transition (fromLabel, toLabel, departureInstant, 1) of a returned path. */
  datatype Hop = Hop(fromLabel: Label, toLabel: Label, departure: int, weight: int)

  datatype Option<T> = None | Some(value: T)

  /** What a `bellman_ford` or `dijkstra` call hands back as its path: a list of vertices,
      or the empty dictionary `{}` that projet.py returns on failure. */
  datatype PathValue = VertexList(items: seq<Vertex>) | EmptyDict

  /** The vertices a path value holds; `len({}) == 0`, so the empty dictionary holds none. */
  function Items(p: PathValue): seq<Vertex>
  {
    if p.VertexList? then p.items else []
  }

  /** A distance: a finite number or Python's `float('inf')` / `np.inf`. */
  datatype Ext = Fin(n: int) | Inf

  /** `d + w`, where infinity absorbs any finite weight. */
  function Add(d: Ext, w: int): Ext
  {
    if d.Inf? then Inf else Fin(d.n + w)
  }

  /** Python's `a < b` on an int-or-infinity value: `inf < inf` is false. */
  predicate Lt(a: Ext, b: Ext)
  {
    match a
    case Inf => false
    case Fin(x) => b.Inf? || x < b.n
  }

  /** Python's `a <= b` on an int-or-infinity value. */
  predicate Le(a: Ext, b: Ext)
  {
    match a
    case Inf => b.Inf?
    case Fin(x) => b.Inf? || x <= b.n
  }

  /** Every element occurs once. */
  predicate NoDup<T(==)>(s: seq<T>)
  {
    forall i, j :: 0 <= i < j < |s| ==> s[i] != s[j]
  }

  /** `d` with `x` appended unless it is already there
      (`if x not in vertices: vertices.append(x)`). */
  function AppendNew<T(==)>(d: seq<T>, x: T): seq<T>
  {
    if x in d then d else d + [x]
  }

  /** The elements of `s` in order of first occurrence, each once; this is how the source keeps
      its vertex list and how a Python dict orders the keys it is built from. */
  function Dedup<T(==)>(s: seq<T>): seq<T>
  {
    if s == [] then [] else AppendNew(Dedup(s[..|s| - 1]), s[|s| - 1])
  }

  lemma DedupSnoc<T>(s: seq<T>, x: T)
    ensures Dedup(s + [x]) == AppendNew(Dedup(s), x)
  {
    assert (s + [x])[..|s|] == s;
  }

  /** `Dedup` keeps exactly the elements of `s`, each once. */
  lemma {:induction false} DedupFacts<T>(s: seq<T>)
    ensures NoDup(Dedup(s))
    ensures forall x :: x in Dedup(s) <==> x in s
    ensures |Dedup(s)| <= |s|
    decreases |s|
  {
    if s != [] {
      var s', x := s[..|s| - 1], s[|s| - 1];
      assert s == s' + [x];
      DedupFacts(s');
    }
  }
}
