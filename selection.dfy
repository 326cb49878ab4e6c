/** The pure selection steps of the path strategies: Python's stable `sorted` with a key,
    `min` and `max` with a key, and the duration buckets of `type_3`. */
module Selection {
  import opened Types
  import opened Graph

  // ---------------------------------------------------------------------------
  // Stable sort by an integer key

  /** `a` may stand in front of `b`: ascending keys, or descending with `reverse=True`. */
  predicate InOrder<T>(key: T -> int, desc: bool, a: T, b: T)
  {
    if desc then key(a) >= key(b) else key(a) <= key(b)
  }

  predicate SortedBy<T>(s: seq<T>, key: T -> int, desc: bool)
  {
    forall i, j :: 0 <= i < j < |s| ==> InOrder(key, desc, s[i], s[j])
  }

  /** Puts `x` behind every element it may follow, so that equal keys keep their order. */
  function Insert<T>(s: seq<T>, x: T, key: T -> int, desc: bool): seq<T>
    decreases |s|
  {
    if s == [] || InOrder(key, desc, s[|s| - 1], x) then s + [x]
    else Insert(s[..|s| - 1], x, key, desc) + [s[|s| - 1]]
  }

  /** Python's `sorted(s, key=key, reverse=desc)`, a stable sort. */
  function SortBy<T>(s: seq<T>, key: T -> int, desc: bool): seq<T>
  {
    if s == [] then [] else Insert(SortBy(s[..|s| - 1], key, desc), s[|s| - 1], key, desc)
  }

  /** The elements of `s` whose key is `k`, in their order in `s`. */
  function WithKey<T>(s: seq<T>, key: T -> int, k: int): seq<T>
  {
    if s == [] then []
    else WithKey(s[..|s| - 1], key, k) + (if key(s[|s| - 1]) == k then [s[|s| - 1]] else [])
  }

  lemma {:induction false} WithKeyConcat<T>(a: seq<T>, b: seq<T>, key: T -> int, k: int)
    ensures WithKey(a + b, key, k) == WithKey(a, key, k) + WithKey(b, key, k)
    decreases |b|
  {
    if b == [] {
      assert a + b == a;
    } else {
      assert (a + b)[..|a + b| - 1] == a + b[..|b| - 1];
      WithKeyConcat(a, b[..|b| - 1], key, k);
    }
  }

  lemma {:induction false} InsertMultiset<T>(s: seq<T>, x: T, key: T -> int, desc: bool)
    ensures multiset(Insert(s, x, key, desc)) == multiset(s) + multiset{x}
    decreases |s|
  {
    if s != [] && !InOrder(key, desc, s[|s| - 1], x) {
      var s' := s[..|s| - 1];
      assert s == s' + [s[|s| - 1]];
      InsertMultiset(s', x, key, desc);
    }
  }

  lemma {:induction false} InsertSorted<T>(s: seq<T>, x: T, key: T -> int, desc: bool)
    requires SortedBy(s, key, desc)
    ensures SortedBy(Insert(s, x, key, desc), key, desc)
    decreases |s|
  {
    if s != [] {
      var s', y := s[..|s| - 1], s[|s| - 1];
      if InOrder(key, desc, y, x) {
        var r := s + [x];
        forall i, j | 0 <= i < j < |r| ensures InOrder(key, desc, r[i], r[j]) {
          if j == |s| && i < |s| - 1 {
            assert InOrder(key, desc, s[i], y);
          }
        }
      } else {
        InsertSorted(s', x, key, desc);
        var t := Insert(s', x, key, desc);
        InsertMultiset(s', x, key, desc);
        var r := t + [y];
        forall i, j | 0 <= i < j < |r| ensures InOrder(key, desc, r[i], r[j]) {
          if j == |t| {
            assert r[i] in multiset(t);
            if r[i] != x {
              assert r[i] in s';
              var m :| 0 <= m < |s'| && s'[m] == r[i];
              assert s[m] == r[i];
            }
          }
        }
      }
    }
  }

  /** Inserting `x` adds `x` behind the elements with its key and leaves the other keys' order
      alone: the elements it moves past have a different key. */
  lemma {:induction false} InsertWithKey<T>(s: seq<T>, x: T, key: T -> int, desc: bool, k: int)
    ensures WithKey(Insert(s, x, key, desc), key, k) ==
      WithKey(s, key, k) + (if key(x) == k then [x] else [])
    decreases |s|
  {
    if s == [] || InOrder(key, desc, s[|s| - 1], x) {
      WithKeyConcat(s, [x], key, k);
      assert [x][..0] == [];
    } else {
      var s', y := s[..|s| - 1], s[|s| - 1];
      assert s == s' + [y];
      InsertWithKey(s', x, key, desc, k);
      WithKeyConcat(Insert(s', x, key, desc), [y], key, k);
      WithKeyConcat(s', [y], key, k);
      assert [y][..0] == [];
    }
  }

  /** `SortBy` orders by key, and among equal keys keeps the input order: the elements with
      any one key come out in the order they went in. */
  lemma {:induction false} SortByFacts<T>(s: seq<T>, key: T -> int, desc: bool)
    ensures SortedBy(SortBy(s, key, desc), key, desc)
    ensures forall k :: WithKey(SortBy(s, key, desc), key, k) == WithKey(s, key, k)
    ensures multiset(SortBy(s, key, desc)) == multiset(s)
    decreases |s|
  {
    if s != [] {
      var s', x := s[..|s| - 1], s[|s| - 1];
      assert s == s' + [x];
      SortByFacts(s', key, desc);
      InsertSorted(SortBy(s', key, desc), x, key, desc);
      InsertMultiset(SortBy(s', key, desc), x, key, desc);
      forall k ensures WithKey(SortBy(s, key, desc), key, k) == WithKey(s, key, k) {
        InsertWithKey(SortBy(s', key, desc), x, key, desc, k);
      }
    }
  }

  // ---------------------------------------------------------------------------
  // min and max with a key

  /** Python's `min(s, key=key)`: scanning left to right, replaced only by a strictly smaller key,
      so the first element of least key. */
  function MinBy<T>(s: seq<T>, key: T -> int): T
    requires s != []
  {
    if |s| == 1 then s[0]
    else
      var m := MinBy(s[..|s| - 1], key);
      if key(s[|s| - 1]) < key(m) then s[|s| - 1] else m
  }

  /** Python's `max(s, key=key)`: the first element of greatest key. */
  function MaxBy<T>(s: seq<T>, key: T -> int): T
    requires s != []
  {
    if |s| == 1 then s[0]
    else
      var m := MaxBy(s[..|s| - 1], key);
      if key(s[|s| - 1]) > key(m) then s[|s| - 1] else m
  }

  /** `MinBy` is the element at the first position holding the least key. */
  lemma {:induction false} MinByFacts<T>(s: seq<T>, key: T -> int) returns (i: nat)
    requires s != []
    ensures i < |s| && s[i] == MinBy(s, key)
    ensures forall j :: 0 <= j < |s| ==> key(s[i]) <= key(s[j])
    ensures forall j :: 0 <= j < i ==> key(s[j]) > key(s[i])
    decreases |s|
  {
    if |s| == 1 {
      i := 0;
    } else {
      var s' := s[..|s| - 1];
      i := MinByFacts(s', key);
      if key(s[|s| - 1]) < key(s'[i]) {
        i := |s| - 1;
      }
    }
  }

  /** `MaxBy` is the element at the first position holding the greatest key. */
  lemma {:induction false} MaxByFacts<T>(s: seq<T>, key: T -> int) returns (i: nat)
    requires s != []
    ensures i < |s| && s[i] == MaxBy(s, key)
    ensures forall j :: 0 <= j < |s| ==> key(s[i]) >= key(s[j])
    ensures forall j :: 0 <= j < i ==> key(s[j]) < key(s[i])
    decreases |s|
  {
    if |s| == 1 {
      i := 0;
    } else {
      var s' := s[..|s| - 1];
      i := MaxByFacts(s', key);
      if key(s[|s| - 1]) > key(s'[i]) {
        i := |s| - 1;
      }
    }
  }

  /** The instant of a vertex, the sort and selection key of the strategies. */
  function Instant(v: Vertex): int
  {
    v.instant
  }

  // ---------------------------------------------------------------------------
  // The duration buckets of type_3

  /** (source, destination) pairs, departure and arrival. */
  type Pair = (Vertex, Vertex)

  /** `t2 - t1`, the key of `dictemps`. */
  function Duration(p: Pair): int
  {
    p.1.instant - p.0.instant
  }

  /** The pairs `(s, d)` for `d` in `dests` (in order) with `d` later than `s`. */
  function PairsFrom(s: Vertex, dests: seq<Vertex>): seq<Pair>
  {
    if dests == [] then []
    else
      var d := dests[|dests| - 1];
      PairsFrom(s, dests[..|dests| - 1]) + (if d.instant > s.instant then [(s, d)] else [])
  }

  /** Every pair the nested loop appends to `dictemps`, in the order it appends them. */
  function Pairs(sources: seq<Vertex>, dests: seq<Vertex>): seq<Pair>
  {
    if sources == [] then []
    else Pairs(sources[..|sources| - 1], dests) + PairsFrom(sources[|sources| - 1], dests)
  }

  /** The durations of a list of pairs, one per pair. */
  function DurationList(ps: seq<Pair>): seq<int>
  {
    if ps == [] then [] else DurationList(ps[..|ps| - 1]) + [Duration(ps[|ps| - 1])]
  }

  /** A duration is sorted by its own value. */
  function Itself(d: int): int
  {
    d
  }

  /** The keys of `dictemps` after `sorted(dictemps.items(), key=lambda k: k[0])`. */
  function Tri(ps: seq<Pair>): seq<int>
  {
    SortBy(Dedup(DurationList(ps)), Itself, false)
  }

  /** `dictemps[d]`: the pairs of duration `d`, in the order they were appended. */
  function Bucket(ps: seq<Pair>, d: int): seq<Pair>
  {
    WithKey(ps, Duration, d)
  }

  /** The buckets of the durations `ds`, one after the other. */
  function Buckets(ps: seq<Pair>, ds: seq<int>): seq<Pair>
  {
    if ds == [] then [] else Buckets(ps, ds[..|ds| - 1]) + Bucket(ps, ds[|ds| - 1])
  }

  /** The order in which `type_3` tries pairs: bucket by bucket in ascending duration,
      each bucket in insertion order. */
  function Schedule(ps: seq<Pair>): seq<Pair>
  {
    Buckets(ps, Tri(ps))
  }

  /** The bucket of the longest duration, the last one `type_3` tries. */
  function LastBucket(ps: seq<Pair>): seq<Pair>
    requires Tri(ps) != []
  {
    Bucket(ps, Tri(ps)[|Tri(ps)| - 1])
  }

  lemma {:induction false} PairsFromMembers(s: Vertex, dests: seq<Vertex>)
    ensures forall p :: p in PairsFrom(s, dests) <==> p.0 == s && p.1 in dests && p.1.instant > s.instant
    decreases |dests|
  {
    if dests != [] {
      var ds := dests[..|dests| - 1];
      assert dests == ds + [dests[|dests| - 1]];
      PairsFromMembers(s, ds);
    }
  }

  /** The pairs are exactly the source/destination combinations with a positive duration. */
  lemma {:induction false} PairsMembers(sources: seq<Vertex>, dests: seq<Vertex>)
    ensures forall p :: p in Pairs(sources, dests) <==>
      p.0 in sources && p.1 in dests && p.1.instant > p.0.instant
    decreases |sources|
  {
    if sources != [] {
      var ss := sources[..|sources| - 1];
      assert sources == ss + [sources[|sources| - 1]];
      PairsMembers(ss, dests);
      PairsFromMembers(sources[|sources| - 1], dests);
    }
  }

  lemma {:induction false} WithKeyMembers<T>(s: seq<T>, key: T -> int, k: int)
    ensures forall x :: x in WithKey(s, key, k) <==> x in s && key(x) == k
    decreases |s|
  {
    if s != [] {
      var s' := s[..|s| - 1];
      assert s == s' + [s[|s| - 1]];
      WithKeyMembers(s', key, k);
    }
  }

  /** The sorted keys are distinct and strictly ascending, and they are the durations that occur. */
  lemma TriFacts(ps: seq<Pair>)
    ensures forall i, j :: 0 <= i < j < |Tri(ps)| ==> Tri(ps)[i] < Tri(ps)[j]
    ensures forall d :: d in Tri(ps) <==> Bucket(ps, d) != []
  {
    TriStrict(ps);
    forall d ensures d in Tri(ps) <==> Bucket(ps, d) != [] {
      TriMember(ps, d);
    }
  }

  lemma TriStrict(ps: seq<Pair>)
    ensures forall i, j :: 0 <= i < j < |Tri(ps)| ==> Tri(ps)[i] < Tri(ps)[j]
  {
    var ds := Dedup(DurationList(ps));
    DedupFacts(DurationList(ps));
    SortByFacts(ds, Itself, false);
    var t := Tri(ps);
    forall i, j | 0 <= i < j < |t| ensures t[i] < t[j] {
      assert t[i] <= t[j];
      if t[i] == t[j] {
        DupCount(t, i, j);
        NoDupCount(ds, t[i]);
      }
    }
  }

  lemma TriMember(ps: seq<Pair>, d: int)
    ensures d in Tri(ps) <==> Bucket(ps, d) != []
  {
    var ds := Dedup(DurationList(ps));
    DedupFacts(DurationList(ps));
    SortByFacts(ds, Itself, false);
    var t := Tri(ps);
    assert d in t <==> d in ds by {
      assert d in t <==> d in multiset(t);
      assert d in ds <==> d in multiset(ds);
    }
    DurationOccurs(ps, d);
  }

  /** A duration occurs in the list exactly when its bucket is non-empty. */
  lemma {:induction false} DurationOccurs(ps: seq<Pair>, d: int)
    ensures d in DurationList(ps) <==> Bucket(ps, d) != []
    decreases |ps|
  {
    if ps != [] {
      DurationOccurs(ps[..|ps| - 1], d);
    }
  }

  lemma DupCount<T>(s: seq<T>, i: nat, j: nat)
    requires i < j < |s| && s[i] == s[j]
    ensures multiset(s)[s[i]] >= 2
  {
    assert s == s[..i] + [s[i]] + s[i + 1..j] + [s[j]] + s[j + 1..];
  }

  lemma {:induction false} NoDupCount<T>(s: seq<T>, x: T)
    requires NoDup(s)
    ensures multiset(s)[x] <= 1
    decreases |s|
  {
    if s != [] {
      var s' := s[..|s| - 1];
      assert s == s' + [s[|s| - 1]];
      assert NoDup(s');
      NoDupCount(s', x);
      if s[|s| - 1] == x {
        assert x !in s';
      }
    }
  }

  /** With ascending durations `ds`, the concatenated buckets are sorted by duration. */
  lemma {:induction false} BucketsSorted(ps: seq<Pair>, ds: seq<int>)
    requires forall i, j :: 0 <= i < j < |ds| ==> ds[i] < ds[j]
    ensures SortedBy(Buckets(ps, ds), Duration, false)
    ensures forall p :: p in Buckets(ps, ds) ==> Duration(p) in ds
    decreases |ds|
  {
    if ds != [] {
      var ds', d := ds[..|ds| - 1], ds[|ds| - 1];
      BucketsSorted(ps, ds');
      var a, b := Buckets(ps, ds'), Bucket(ps, d);
      WithKeyMembers(ps, Duration, d);
      forall i, j | 0 <= i < j < |a + b| ensures Duration((a + b)[i]) <= Duration((a + b)[j]) {
        if i < |a| && j >= |a| {
          assert (a + b)[i] in a;
          assert (a + b)[j] in b;
          var m :| 0 <= m < |ds'| && ds'[m] == Duration((a + b)[i]);
          assert ds[m] == ds'[m];
        } else if i >= |a| {
          assert (a + b)[i] in b && (a + b)[j] in b;
        }
      }
      assert ds == ds' + [d];
    }
  }

  /** With distinct ascending durations `ds`, the pairs of each duration in `ds` appear in
      bucket order, and no others. */
  lemma {:induction false} BucketsWithKey(ps: seq<Pair>, ds: seq<int>, k: int)
    requires forall i, j :: 0 <= i < j < |ds| ==> ds[i] < ds[j]
    ensures WithKey(Buckets(ps, ds), Duration, k) == if k in ds then Bucket(ps, k) else []
    decreases |ds|
  {
    if ds != [] {
      var ds', d := ds[..|ds| - 1], ds[|ds| - 1];
      assert ds == ds' + [d];
      BucketsWithKey(ps, ds', k);
      var a, b := Buckets(ps, ds'), Bucket(ps, d);
      WithKeyMembers(ps, Duration, d);
      WithKeyConcat(a, b, Duration, k);
      WithKeyAll(b, Duration, d, k);
    }
  }

  /** All elements of `s` have key `d`, so `WithKey(s, k)` is `s` for `k == d` and empty otherwise. */
  lemma {:induction false} WithKeyAll<T>(s: seq<T>, key: T -> int, d: int, k: int)
    requires forall x :: x in s ==> key(x) == d
    ensures WithKey(s, key, k) == if k == d then s else []
    decreases |s|
  {
    if s != [] {
      var s' := s[..|s| - 1];
      forall x | x in s' ensures key(x) == d {
        var i :| 0 <= i < |s'| && s'[i] == x;
        assert s[i] == x;
      }
      WithKeyAll(s', key, d, k);
      assert s[|s| - 1] in s;
      assert s == s' + [s[|s| - 1]];
    }
  }

  /** `type_3`'s order: ascending duration, and among pairs of equal duration the order of the
      nested loop (source-major); every pair with a positive duration is tried. */
  lemma ScheduleFacts(sources: seq<Vertex>, dests: seq<Vertex>)
    ensures var ps := Pairs(sources, dests);
      SortedBy(Schedule(ps), Duration, false) &&
      (forall k :: WithKey(Schedule(ps), Duration, k) == WithKey(ps, Duration, k)) &&
      (forall p :: p in Schedule(ps) <==> p.0 in sources && p.1 in dests && p.1.instant > p.0.instant)
  {
    var ps := Pairs(sources, dests);
    TriFacts(ps);
    BucketsSorted(ps, Tri(ps));
    PairsMembers(sources, dests);
    forall k ensures WithKey(Schedule(ps), Duration, k) == WithKey(ps, Duration, k) {
      BucketsWithKey(ps, Tri(ps), k);
    }
    forall p ensures p in Schedule(ps) <==> p in ps {
      WithKeyMembers(Schedule(ps), Duration, Duration(p));
      WithKeyMembers(ps, Duration, Duration(p));
    }
  }

  // ---------------------------------------------------------------------------
  // Building dictemps

  /** `dictemps` and the order its keys were created in hold the pairs of `ps` by duration. */
  ghost predicate Grouped(ps: seq<Pair>, dictemps: map<int, seq<Pair>>, keys: seq<int>)
  {
    keys == Dedup(DurationList(ps)) &&
    (forall d :: d in dictemps <==> d in keys) &&
    (forall d :: d in dictemps ==> dictemps[d] == Bucket(ps, d))
  }

  /** The nested loop of `type_3`: for each source, for each destination, a pair whose arrival
      is later than its departure is appended to the `defaultdict(list)` bucket of its
      duration. The keys come in first-insertion order, each bucket in loop order, and a
      duration is a key exactly when some pair has it. */
  method GroupByDuration(sources: seq<Vertex>, dests: seq<Vertex>)
    returns (dictemps: map<int, seq<Pair>>, keys: seq<int>)
    ensures keys == Dedup(DurationList(Pairs(sources, dests)))
    ensures forall d :: d in dictemps <==> Bucket(Pairs(sources, dests), d) != []
    ensures forall d :: d in dictemps ==> dictemps[d] == Bucket(Pairs(sources, dests), d)
  {
    dictemps, keys := map[], [];
    for i := 0 to |sources|
      invariant Grouped(Pairs(sources[..i], dests), dictemps, keys)
    {
      PairsNext(sources, dests, i);
      dictemps, keys := GroupFrom(sources[i], dests, Pairs(sources[..i], dests), dictemps, keys);
    }
    assert sources[..|sources|] == sources;
    GroupedKeys(Pairs(sources, dests), dictemps, keys);
  }

  /** The first half of `type_3`: the vertices of the two labels are clustered, every pair
      with a later arrival than departure is grouped by duration, and the durations are
      sorted (`tri`). Every sorted duration has a non-empty bucket in `dictemps`. */
  method DurationBuckets(vertices: seq<Vertex>, start: Label, end: Label)
    returns (dictemps: map<int, seq<Pair>>, tri: seq<int>)
    ensures var ps := Pairs(Group(vertices, start), Group(vertices, end));
      tri == Tri(ps) &&
      (forall b :: 0 <= b < |tri| ==> tri[b] in dictemps && dictemps[tri[b]] == Bucket(ps, tri[b]) != [])
  {
    var clusters, _ := ClusterByLabel(vertices);
    var sources := Cluster(clusters, start);
    var destinations := Cluster(clusters, end);
    var keys;
    dictemps, keys := GroupByDuration(sources, destinations);
    tri := SortBy(keys, Itself, false);
    TriFacts(Pairs(sources, destinations));
    assert forall b :: 0 <= b < |tri| ==> tri[b] in tri;
  }

  /** The inner loop of the grouping, for one source: the pairs `PairsFrom(source, dests)` are
      added behind the pairs `ps` already grouped. */
  method GroupFrom(source: Vertex, dests: seq<Vertex>, ghost ps: seq<Pair>, dictemps0: map<int, seq<Pair>>, keys0: seq<int>)
    returns (dictemps: map<int, seq<Pair>>, keys: seq<int>)
    requires Grouped(ps, dictemps0, keys0)
    ensures Grouped(ps + PairsFrom(source, dests), dictemps, keys)
  {
    dictemps, keys := dictemps0, keys0;
    assert ps + PairsFrom(source, dests[..0]) == ps;
    for j := 0 to |dests|
      invariant Grouped(ps + PairsFrom(source, dests[..j]), dictemps, keys)
    {
      PairsFromNext(source, dests, j);
      ghost var sofar := ps + PairsFrom(source, dests[..j]);
      var destination := dests[j];
      var t1, t2 := source.instant, destination.instant;
      if t2 > t1 {
        dictemps, keys := AddPair(sofar, (source, destination), dictemps, keys);
        assert ps + PairsFrom(source, dests[..j + 1]) == sofar + [(source, destination)];
      } else {
        assert ps + PairsFrom(source, dests[..j + 1]) == sofar;
      }
    }
    assert dests[..|dests|] == dests;
  }

  lemma PairsNext(sources: seq<Vertex>, dests: seq<Vertex>, i: nat)
    requires i < |sources|
    ensures Pairs(sources[..i + 1], dests) == Pairs(sources[..i], dests) + PairsFrom(sources[i], dests)
  {
    assert sources[..i + 1][..i] == sources[..i];
  }

  lemma PairsFromNext(s: Vertex, dests: seq<Vertex>, j: nat)
    requires j < |dests|
    ensures PairsFrom(s, dests[..j + 1]) ==
      PairsFrom(s, dests[..j]) + if dests[j].instant > s.instant then [(s, dests[j])] else []
  {
    assert dests[..j + 1][..j] == dests[..j];
  }

  /** A duration is a key of the grouping exactly when its bucket is non-empty. */
  lemma GroupedKeys(ps: seq<Pair>, dictemps: map<int, seq<Pair>>, keys: seq<int>)
    requires Grouped(ps, dictemps, keys)
    ensures forall d :: d in dictemps <==> Bucket(ps, d) != []
  {
    DedupFacts(DurationList(ps));
    forall d ensures d in dictemps <==> Bucket(ps, d) != [] {
      DurationOccurs(ps, d);
    }
  }

  /** `dictemps[t2 - t1].append((source, destination))`: a missing key of the defaultdict reads
      as an empty list and is created, after the keys created before it. */
  method AddPair(ghost ps: seq<Pair>, p: Pair, dictemps0: map<int, seq<Pair>>, keys0: seq<int>)
    returns (dictemps: map<int, seq<Pair>>, keys: seq<int>)
    requires Grouped(ps, dictemps0, keys0)
    ensures Grouped(ps + [p], dictemps, keys)
  {
    var d := Duration(p);
    GroupStep(ps, p, dictemps0, keys0);
    var bucket := if d in dictemps0 then dictemps0[d] else [];
    keys := if d in dictemps0 then keys0 else keys0 + [d];
    dictemps := dictemps0[d := bucket + [p]];
  }

  /** Appending a pair to its bucket (created empty when missing) keeps the grouping. */
  lemma GroupStep(ps: seq<Pair>, p: Pair, dictemps: map<int, seq<Pair>>, keys: seq<int>)
    requires Grouped(ps, dictemps, keys)
    ensures var d := Duration(p);
      var keys' := if d in dictemps then keys else keys + [d];
      var base := if d in dictemps then dictemps[d] else [];
      Grouped(ps + [p], dictemps[d := base + [p]], keys')
  {
    var d := Duration(p);
    assert (ps + [p])[..|ps|] == ps;
    DedupSnoc(DurationList(ps), d);
    DedupFacts(DurationList(ps));
    DurationOccurs(ps, d);
  }

  /** The buckets of `ds` are those of a prefix of `ds` followed by those of the rest. */
  lemma {:induction false} BucketsSplit(ps: seq<Pair>, ds: seq<int>, m: nat)
    requires m <= |ds|
    ensures Buckets(ps, ds) == Buckets(ps, ds[..m]) + Buckets(ps, ds[m..])
    decreases |ds|
  {
    if m < |ds| {
      var ds' := ds[..|ds| - 1];
      BucketsSplit(ps, ds', m);
      assert ds'[..m] == ds[..m];
      assert ds[m..] == ds'[m..] + [ds[|ds| - 1]];
      assert ds[m..][..|ds[m..]| - 1] == ds'[m..];
    } else {
      assert ds[..m] == ds;
      assert ds[m..] == [];
    }
  }

  /** Trying the pairs bucket by bucket and each bucket in order is trying `Buckets(ps, ds)`:
      the `i`-th pair of the `b`-th bucket stands behind all pairs of the earlier buckets and
      the first `i` of its own. */
  lemma BucketsAt(ps: seq<Pair>, ds: seq<int>, b: nat, i: nat)
    requires b < |ds| && i < |Bucket(ps, ds[b])|
    ensures var bucket := Bucket(ps, ds[b]);
      Buckets(ps, ds) ==
        Buckets(ps, ds[..b]) + bucket[..i] + [bucket[i]] + (bucket[i + 1..] + Buckets(ps, ds[b + 1..]))
  {
    var bucket := Bucket(ps, ds[b]);
    var front, rest := Buckets(ps, ds[..b]), Buckets(ps, ds[b + 1..]);
    assert Buckets(ps, ds) == front + bucket + rest by {
      BucketsSplit(ps, ds, b + 1);
      BucketsNext(ps, ds, b);
    }
    Regroup(front, bucket, rest, i);
  }

  /** Cutting the middle part of a concatenation at `i`. */
  lemma Regroup<T>(a: seq<T>, b: seq<T>, c: seq<T>, i: nat)
    requires i < |b|
    ensures a + b + c == a + b[..i] + [b[i]] + (b[i + 1..] + c)
  {
    assert b == b[..i] + [b[i]] + b[i + 1..];
  }

  /** Each bucket of the sorted keys is `Buckets` of one key further. */
  lemma BucketsNext(ps: seq<Pair>, ds: seq<int>, b: nat)
    requires b < |ds|
    ensures Buckets(ps, ds[..b + 1]) == Buckets(ps, ds[..b]) + Bucket(ps, ds[b])
  {
    assert ds[..b + 1][..b] == ds[..b];
  }
}
