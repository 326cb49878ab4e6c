/** What the path strategies answer. Types 1 to 3 try candidate (departure, arrival) vertex
    pairs in a fixed order and keep the first pair that `bellman_ford` connects; the answer is
    the hop list of a shortest walk of that pair, or `None` when no candidate connects. */
module Answers {
  import opened Types
  import opened Walks
  import opened Hops
  import opened Selection
  import opened Graph

  /** The pairs `(s, d)` for `d` in `ds`, in order: the candidates of type 1. */
  function Fan(s: Vertex, ds: seq<Vertex>): seq<Pair>
  {
    seq(|ds|, i requires 0 <= i < |ds| => (s, ds[i]))
  }

  /** The pairs `(s, d)` for `s` in `ss`, in order: the candidates of type 2. */
  function Funnel(ss: seq<Vertex>, d: Vertex): seq<Pair>
  {
    seq(|ss|, i requires 0 <= i < |ss| => (ss[i], d))
  }

  /** `bellman_ford` finds a path for the pair. */
  ghost predicate Links(E: seq<Edge>, p: Pair)
  {
    Connects(E, p.0, p.1)
  }

  /** No pair of `cs` is linked. */
  ghost predicate Unlinked(E: seq<Edge>, cs: seq<Pair>)
  {
    forall j :: 0 <= j < |cs| ==> !Links(E, cs[j])
  }

  /** `cs[k]` is the first linked candidate. */
  ghost predicate FirstLink(E: seq<Edge>, cs: seq<Pair>, k: int)
  {
    0 <= k < |cs| && Links(E, cs[k]) && forall j :: 0 <= j < k ==> !Links(E, cs[j])
  }

  /** `path` lists the vertices of a shortest walk from `p.0` to `p.1`. */
  ghost predicate Finds(E: seq<Edge>, p: Pair, path: seq<Vertex>)
  {
    exists n :: IsShortest(E, p.0, p.1, Fin(n)) && Realises(E, p.0, p.1, path, n)
  }

  /** `h` is the hop list of a shortest walk from `p.0` to `p.1`. */
  ghost predicate ShortestHops(E: seq<Edge>, p: Pair, h: seq<Hop>)
  {
    exists path :: Finds(E, p, path) && h == Compact(path)
  }

  /** The answer of a first-reachable strategy over the candidates `cs`: `None` exactly when no
      candidate is linked, otherwise the shortest hops of the first linked candidate. */
  ghost predicate Answer(E: seq<Edge>, cs: seq<Pair>, r: Option<seq<Hop>>)
  {
    (r.None? <==> Unlinked(E, cs)) &&
    (r.Some? ==> exists k :: FirstLink(E, cs, k) && ShortestHops(E, cs[k], r.value))
  }

  /** What the code/ version of `type_1` answers: it returns after the first destination
      whatever `bellman_ford` gives back there, the hops of its path when it links and no hops
      when it does not; `None` only when there are no destinations. */
  ghost predicate FirstOnly(E: seq<Edge>, cs: seq<Pair>, r: Option<seq<Hop>>)
  {
    (r.None? <==> cs == []) &&
    (r.Some? ==> if Links(E, cs[0]) then ShortestHops(E, cs[0], r.value) else r.value == [])
  }

  /** The state after trying one bucket of pairs with a `break` at the first linked pair: the
      latest `bellman_ford` result is the path of the first linked pair, or the empty dict when
      no pair of the (non-empty) bucket links. */
  ghost predicate LastTry(E: seq<Edge>, b: seq<Pair>, path: PathValue)
  {
    (exists k :: FirstLink(E, b, k) && path.VertexList? && Finds(E, b[k], path.items)) ||
    (Unlinked(E, b) && path == EmptyDict)
  }

  /** The outcome of trying one bucket of pairs with a `break` at the first linked pair: that
      pair's shortest hops, or no hops at all when the bucket holds no linked pair. */
  ghost predicate BucketHops(E: seq<Edge>, b: seq<Pair>, h: seq<Hop>)
  {
    (exists k :: FirstLink(E, b, k) && ShortestHops(E, b[k], h)) || (Unlinked(E, b) && h == [])
  }

  // ---------------------------------------------------------------------------
  // Lemmas

  /** A shortest distance realised by a vertex list gives that list's hops as shortest hops. */
  lemma Found(E: seq<Edge>, p: Pair, path: seq<Vertex>, distance: Ext)
    requires distance.Fin? && IsShortest(E, p.0, p.1, distance) && Realises(E, p.0, p.1, path, distance.n)
    ensures Finds(E, p, path) && ShortestHops(E, p, Compact(path))
  {
    assert IsShortest(E, p.0, p.1, Fin(distance.n));
  }

  /** The hops of the path left by a bucket are the outcome of that bucket. */
  lemma LastTryHops(E: seq<Edge>, b: seq<Pair>, path: PathValue)
    requires LastTry(E, b, path)
    ensures BucketHops(E, b, Compact(Items(path)))
  {
  }

  /** A linked pair behind unlinked ones is the first linked candidate. */
  lemma FirstLinkAt(E: seq<Edge>, pre: seq<Pair>, p: Pair, post: seq<Pair>)
    requires Unlinked(E, pre) && Links(E, p)
    ensures FirstLink(E, pre + [p] + post, |pre|)
  {
    var cs := pre + [p] + post;
    assert forall j :: 0 <= j < |pre| ==> cs[j] == pre[j];
  }

  /** Trying the candidates in order: a linked candidate behind unlinked ones is the first
      linked one, and an unlinked one extends the unlinked prefix. */
  lemma FirstLinkHere(E: seq<Edge>, cs: seq<Pair>, i: nat)
    requires i < |cs| && Unlinked(E, cs[..i]) && Links(E, cs[i])
    ensures FirstLink(E, cs, i)
  {
    assert forall j :: 0 <= j < i ==> cs[..i][j] == cs[j];
  }

  lemma UnlinkedNext(E: seq<Edge>, cs: seq<Pair>, i: nat)
    requires i < |cs| && Unlinked(E, cs[..i]) && !Links(E, cs[i])
    ensures Unlinked(E, cs[..i + 1])
  {
    assert cs[..i + 1] == cs[..i] + [cs[i]];
  }

  lemma UnlinkedAll(E: seq<Edge>, cs: seq<Pair>)
    requires Unlinked(E, cs[..|cs|])
    ensures Unlinked(E, cs)
  {
    assert cs[..|cs|] == cs;
  }

  /** Trying the buckets of `ds` one after the other, each in order: the `i`-th pair of the
      `b`-th bucket is candidate `|Buckets(ps, ds[..b])| + i` of `Buckets(ps, ds)`, and the
      pairs tried before it are the candidates before it. */
  lemma BucketCandidate(E: seq<Edge>, ps: seq<Pair>, ds: seq<int>, b: nat, i: nat) returns (k: nat)
    requires b < |ds| && i < |Bucket(ps, ds[b])|
    requires Unlinked(E, Buckets(ps, ds[..b]) + Bucket(ps, ds[b])[..i])
    ensures k < |Buckets(ps, ds)| && Buckets(ps, ds)[k] == Bucket(ps, ds[b])[i]
    ensures Unlinked(E, Buckets(ps, ds)[..k])
  {
    var front, bucket := Buckets(ps, ds[..b]), Bucket(ps, ds[b]);
    BucketsAt(ps, ds, b, i);
    k := |front| + i;
    assert Buckets(ps, ds)[..k] == front + bucket[..i];
  }

  /** An unlinked pair extends the unlinked pairs tried so far. */
  lemma UnlinkedSnoc(E: seq<Edge>, front: seq<Pair>, bucket: seq<Pair>, i: nat)
    requires i < |bucket| && Unlinked(E, front + bucket[..i]) && !Links(E, bucket[i])
    ensures Unlinked(E, front + bucket[..i + 1])
  {
    assert front + bucket[..i + 1] == (front + bucket[..i]) + [bucket[i]];
  }

  /** A bucket with no linked pair extends the unlinked buckets by one. */
  lemma UnlinkedBucket(E: seq<Edge>, ps: seq<Pair>, ds: seq<int>, b: nat)
    requires b < |ds|
    requires Unlinked(E, Buckets(ps, ds[..b]) + Bucket(ps, ds[b])[..|Bucket(ps, ds[b])|])
    ensures Unlinked(E, Buckets(ps, ds[..b + 1]))
  {
    BucketsNext(ps, ds, b);
    assert Bucket(ps, ds[b])[..|Bucket(ps, ds[b])|] == Bucket(ps, ds[b]);
  }

  lemma UnlinkedBuckets(E: seq<Edge>, ps: seq<Pair>, ds: seq<int>)
    requires Unlinked(E, Buckets(ps, ds[..|ds|]))
    ensures Unlinked(E, Buckets(ps, ds))
  {
    assert ds[..|ds|] == ds;
  }

  /** A concatenation is unlinked exactly when both parts are. */
  lemma UnlinkedConcat(E: seq<Edge>, a: seq<Pair>, b: seq<Pair>)
    ensures Unlinked(E, a + b) <==> Unlinked(E, a) && Unlinked(E, b)
  {
    var ab := a + b;
    if Unlinked(E, ab) {
      forall j | 0 <= j < |a| ensures !Links(E, a[j]) {
        assert ab[j] == a[j];
      }
      forall j | 0 <= j < |b| ensures !Links(E, b[j]) {
        assert ab[|a| + j] == b[j];
      }
    }
    if Unlinked(E, a) && Unlinked(E, b) {
      forall j | 0 <= j < |ab| ensures !Links(E, ab[j]) {
        if j < |a| {
          assert ab[j] == a[j];
        } else {
          assert ab[j] == b[j - |a|];
        }
      }
    }
  }

  /** The first linked candidate is unique, so an answer names one pair. */
  lemma {:induction false} FirstLinkUnique(E: seq<Edge>, cs: seq<Pair>, k: int, k': int)
    requires FirstLink(E, cs, k) && FirstLink(E, cs, k')
    ensures k == k'
  {
  }

  /** Over candidates sorted by a key, the first linked candidate comes first in key order
      among all linked candidates. */
  lemma {:induction false} FirstIsExtreme(E: seq<Edge>, cs: seq<Pair>, key: Pair -> int, desc: bool, k: int)
    requires SortedBy(cs, key, desc) && FirstLink(E, cs, k)
    ensures forall j :: 0 <= j < |cs| && Links(E, cs[j]) ==> InOrder(key, desc, cs[k], cs[j])
  {
  }

  function Arrival(p: Pair): int
  {
    p.1.instant
  }

  function Departure(p: Pair): int
  {
    p.0.instant
  }

  /** Type 1 arrives earliest: the destination it chooses, among the destinations sorted by
      instant, arrives no later than any destination the source connects to. */
  lemma EarliestArrival(E: seq<Edge>, source: Vertex, dests: seq<Vertex>, k: int)
    requires FirstLink(E, Fan(source, SortBy(dests, Instant, false)), k)
    ensures var p := Fan(source, SortBy(dests, Instant, false))[k];
      p.0 == source && p.1 in dests &&
      forall d :: d in dests && Connects(E, source, d) ==> p.1.instant <= d.instant
  {
    var sorted := SortBy(dests, Instant, false);
    var cs := Fan(source, sorted);
    SortByFacts(dests, Instant, false);
    assert SortedBy(cs, Arrival, false) by {
      forall i, j | 0 <= i < j < |cs| ensures InOrder(Arrival, false, cs[i], cs[j]) {
        assert InOrder(Instant, false, sorted[i], sorted[j]);
      }
    }
    FirstIsExtreme(E, cs, Arrival, false, k);
    assert sorted[k] in multiset(dests);
    forall d | d in dests && Connects(E, source, d) ensures cs[k].1.instant <= d.instant {
      assert d in multiset(sorted);
      var j :| 0 <= j < |sorted| && sorted[j] == d;
      assert Links(E, cs[j]);
    }
  }

  /** Type 2 departs latest: the source it chooses, among the sources sorted by decreasing
      instant, departs no earlier than any source that connects to the destination. */
  lemma LatestDeparture(E: seq<Edge>, sources: seq<Vertex>, dest: Vertex, k: int)
    requires FirstLink(E, Funnel(SortBy(sources, Instant, true), dest), k)
    ensures var p := Funnel(SortBy(sources, Instant, true), dest)[k];
      p.1 == dest && p.0 in sources &&
      forall s :: s in sources && Connects(E, s, dest) ==> p.0.instant >= s.instant
  {
    var sorted := SortBy(sources, Instant, true);
    var cs := Funnel(sorted, dest);
    SortByFacts(sources, Instant, true);
    assert SortedBy(cs, Departure, true) by {
      forall i, j | 0 <= i < j < |cs| ensures InOrder(Departure, true, cs[i], cs[j]) {
        assert InOrder(Instant, true, sorted[i], sorted[j]);
      }
    }
    FirstIsExtreme(E, cs, Departure, true, k);
    assert sorted[k] in multiset(sources);
    forall s | s in sources && Connects(E, s, dest) ensures cs[k].0.instant >= s.instant {
      assert s in multiset(sorted);
      var j :| 0 <= j < |sorted| && sorted[j] == s;
      assert Links(E, cs[j]);
    }
  }

  /** Type 3 is fastest: the pair it chooses has a positive duration no longer than that of
      any connected (source, destination) pair whose arrival is later than its departure. */
  lemma LeastDuration(E: seq<Edge>, sources: seq<Vertex>, dests: seq<Vertex>, k: int)
    requires FirstLink(E, Schedule(Pairs(sources, dests)), k)
    ensures var p := Schedule(Pairs(sources, dests))[k];
      p.0 in sources && p.1 in dests && Duration(p) > 0 &&
      forall s, d :: s in sources && d in dests && d.instant > s.instant && Connects(E, s, d) ==>
        Duration(p) <= d.instant - s.instant
  {
    var cs := Schedule(Pairs(sources, dests));
    ScheduleFacts(sources, dests);
    FirstIsExtreme(E, cs, Duration, false, k);
    assert cs[k] in cs;
    forall s, d | s in sources && d in dests && d.instant > s.instant && Connects(E, s, d)
      ensures Duration(cs[k]) <= d.instant - s.instant
    {
      assert (s, d) in cs;
      var j :| 0 <= j < |cs| && cs[j] == (s, d);
      assert Links(E, cs[j]);
    }
  }

  /** The hops of a shortest walk between vertices of different labels form a non-empty chain
      that leaves the first label and arrives at the second, one label change per hop. */
  lemma HopsRoute(E: seq<Edge>, p: Pair, h: seq<Hop>)
    requires ShortestHops(E, p, h) && p.0.name != p.1.name
    ensures h != [] && h[0].fromLabel == p.0.name && h[|h| - 1].toLabel == p.1.name && Chained(h)
    ensures forall x :: x in h ==> x.fromLabel != x.toLabel && x.weight == 1
  {
    var path: seq<Vertex> :| Finds(E, p, path) && h == Compact(path);
    var n: int :| IsShortest(E, p.0, p.1, Fin(n)) && Realises(E, p.0, p.1, path, n);
    var w: seq<Edge> :| IsWalk(E, p.0, w) && Stop(p.0, w) == p.1 && Visits(p.0, w) == path && Weight(w) == n;
    VisitsAt(p.0, w, |w|);
    assert w[..|w|] == w;
    CompactFacts(path);
    assert path[|path| - 1].name != path[0].name;
  }

  // ---------------------------------------------------------------------------
  // Where the candidates come from

  /** The sorted vertices of a label are vertices. */
  lemma SortedMembers(vertices: seq<Vertex>, l: Label, desc: bool)
    ensures forall v :: v in SortBy(Group(vertices, l), Instant, desc) ==> v in vertices && v.name == l
  {
    GroupMembers(vertices, l);
    SortByFacts(Group(vertices, l), Instant, desc);
    forall v | v in SortBy(Group(vertices, l), Instant, desc) ensures v in vertices && v.name == l {
      assert v in multiset(SortBy(Group(vertices, l), Instant, desc));
    }
  }

  /** The pairs of `type_3` run from a vertex of the start label to a vertex of the end label. */
  lemma ScheduleNames(vertices: seq<Vertex>, start: Label, end: Label)
    ensures forall p :: p in Schedule(Pairs(Group(vertices, start), Group(vertices, end))) ==>
      p.0 in vertices && p.1 in vertices && p.0.name == start && p.1.name == end
  {
    ScheduleFacts(Group(vertices, start), Group(vertices, end));
    GroupMembers(vertices, start);
    GroupMembers(vertices, end);
  }

  /** The pairs of one duration bucket run between vertices of the two labels. */
  lemma BucketNames(vertices: seq<Vertex>, start: Label, end: Label, d: int)
    ensures forall p :: p in Bucket(Pairs(Group(vertices, start), Group(vertices, end)), d) ==>
      p.0 in vertices && p.1 in vertices
  {
    WithKeyMembers(Pairs(Group(vertices, start), Group(vertices, end)), Duration, d);
    PairsMembers(Group(vertices, start), Group(vertices, end));
    GroupMembers(vertices, start);
    GroupMembers(vertices, end);
  }
}
