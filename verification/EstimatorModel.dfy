/** The sharded two-epoch estimator as a state and its operations, and what whole runs keep.

    Each bucket tracks groups in a current and a previous epoch; all buckets share one limit. The
    class in Estimators is proved to perform exactly these operations. */
module EstimatorModel {
  import opened Base
  import opened Snapshots

  datatype Bucket = Bucket(groups: map<Key, Entry>, prev: map<Key, Entry>)

  datatype Counters = Counters(limit: int, size: int, bucketSizes: seq<int>, rejected: seq<set<Key>>)

  /** Keys go to buckets by a fixed route: the remainder of the key by the number of buckets. */
  datatype State = State(precision: nat, route: Key -> nat, counters: Counters, buckets: seq<Bucket>)

  ghost function Tracked(b: Bucket): set<Key> { b.groups.Keys + b.prev.Keys }

  ghost predicate Shaped(s: State) {
    && |s.buckets| == |s.counters.bucketSizes| == |s.counters.rejected| > 0
    && forall k: Key :: s.route(k) < |s.buckets|
  }

  /** The bucket a key belongs to. */
  function RouteBy(buckets: nat): Key -> nat
    requires 0 < buckets
  {
    k => k % buckets
  }

  function Empty(precision: nat, limit: int, buckets: nat): State
    requires 0 < buckets
  {
    State(precision, RouteBy(buckets), Counters(limit, 0, seq(buckets, i => 0), seq(buckets, i => {})),
          seq(buckets, i => Bucket(map[], map[])))
  }

  /* Operations */

  /** Admission: either both counters count the key or its bucket's reject sketch takes it. */
  function Allowed(c: Counters, i: nat, key: Key): (r: (Counters, bool))
    requires i < |c.bucketSizes| == |c.rejected|
  {
    if c.size >= c.limit
    then (c.(rejected := c.rejected[i := c.rejected[i] + {key}]), false)
    else (c.(size := c.size + 1, bucketSizes := c.bucketSizes[i := c.bucketSizes[i] + 1]), true)
  }

  /** Lowers the bucket's part of the count to what it keeps, and forgets its rejected keys. */
  function Lowered(c: Counters, i: nat, kept: int): Counters
    requires i < |c.bucketSizes| == |c.rejected|
  {
    var diff := c.bucketSizes[i] - kept;
    var d := if diff > 0 then c.(size := c.size - diff, bucketSizes := c.bucketSizes[i := c.bucketSizes[i] - diff])
             else c;
    d.(rejected := d.rejected[i := {}])
  }

  function Added(e: Entry, fp: Uint64): Entry {
    e.(sketch := e.sketch.(hashes := e.sketch.hashes + {fp}))
  }

  /** An insert into bucket i: a tracked key takes the fingerprint in the current epoch, keeping
      the values it has; a new key needs admission. */
  function InsertedIn(c: Counters, b: Bucket, i: nat, precision: nat, key: Key, fp: Uint64, values: seq<string>)
    : (Counters, Bucket)
    requires i < |c.bucketSizes| == |c.rejected|
  {
    var blank := SketchValue(precision, {});
    if key in b.groups then
      (c, b.(groups := b.groups[key := Added(b.groups[key], fp)]))
    else if key in b.prev then
      (c, b.(groups := b.groups[key := Added(Entry(b.prev[key].values, blank), fp)]))
    else
      var (d, ok) := Allowed(c, i, key);
      (d, if ok then b.(groups := b.groups[key := Added(Entry(values, blank), fp)]) else b)
  }

  function Inserted(s: State, key: Key, fp: Uint64, values: seq<string>): State
    requires Shaped(s)
  {
    var i := s.route(key);
    var (c, b) := InsertedIn(s.counters, s.buckets[i], i, s.precision, key, fp, values);
    State(s.precision, s.route, c, s.buckets[i := b])
  }

  function Rotated(s: State, i: nat): State
    requires Shaped(s) && i < |s.buckets|
  {
    var b := s.buckets[i];
    State(s.precision, s.route, Lowered(s.counters, i, |b.groups|), s.buckets[i := Bucket(map[], b.groups)])
  }

  function Reset(s: State, i: nat): State
    requires Shaped(s) && i < |s.buckets|
  {
    State(s.precision, s.route, Lowered(s.counters, i, 0), s.buckets[i := Bucket(map[], map[])])
  }

  /* Runs */

  datatype Op =
    | Insert(key: Key, fp: Uint64, values: seq<string>)
    | Rotate(i: nat)
    | ResetBucket(i: nat)

  function Step(s: State, op: Op): (t: State)
    requires Shaped(s)
    ensures Shaped(t) && |t.buckets| == |s.buckets| && t.route == s.route && t.counters.limit == s.counters.limit
  {
    match op
    case Insert(key, fp, values) => Inserted(s, key, fp, values)
    case Rotate(i) => if i < |s.buckets| then Rotated(s, i) else s
    case ResetBucket(i) => if i < |s.buckets| then Reset(s, i) else s
  }

  function Run(s: State, ops: seq<Op>): (t: State)
    requires Shaped(s)
    ensures Shaped(t) && |t.buckets| == |s.buckets| && t.route == s.route && t.counters.limit == s.counters.limit
  {
    if ops == [] then s else Step(Run(s, ops[..|ops| - 1]), ops[|ops| - 1])
  }

  lemma {:induction false} RunAppend(s: State, a: seq<Op>, b: seq<Op>)
    requires Shaped(s)
    ensures Run(s, a + b) == Run(Run(s, a), b)
  {
    if b == [] {
      assert a + b == a;
    } else {
      var n := |b| - 1;
      assert (a + b)[..|a + b| - 1] == a + b[..n];
      RunAppend(s, a, b[..n]);
    }
  }

  /* Exact accounting */

  ghost function Size(r: set<Key>): int { |r| }

  /** The keys each bucket tracks. */
  ghost function TrackedSets(s: State): (r: seq<set<Key>>)
    ensures |r| == |s.buckets|
    ensures forall i | 0 <= i < |r| :: r[i] == Tracked(s.buckets[i])
  {
    seq(|s.buckets|, i requires 0 <= i < |s.buckets| => Tracked(s.buckets[i]))
  }

  /** Every set holds only keys routed to its own position. */
  ghost predicate Routed(s: State, sets: seq<set<Key>>) {
    forall i, k | 0 <= i < |sets| && k in sets[i] :: s.route(k) == i
  }

  /** Every counter counts exactly what it stands for, and keys live in the bucket they hash to. */
  ghost predicate Exact(s: State) {
    && Shaped(s)
    && Routed(s, TrackedSets(s)) && Routed(s, s.counters.rejected)
    && (forall i | 0 <= i < |s.buckets| :: s.counters.bucketSizes[i] == |Tracked(s.buckets[i])|)
    && s.counters.size == Sum(Size, TrackedSets(s))
  }

  lemma EmptyIsExact(precision: nat, limit: int, buckets: nat)
    requires 0 < buckets
    ensures Exact(Empty(precision, limit, buckets))
  {
    SumBounds(Size, TrackedSets(Empty(precision, limit, buckets)), 0, 0);
  }

  /** The key is tracked in t if it was in s or if there is room; otherwise only the reject sketch of
      its bucket learns it. No other bucket is touched. */
  ghost predicate TracksOrRejects(s: State, t: State, i: nat, key: Key)
    requires Shaped(s) && Shaped(t) && i < |s.buckets|
  {
    var tracked := Tracked(s.buckets[i]);
    && t.route == s.route && t.precision == s.precision
    && if key in tracked || s.counters.size < s.counters.limit then
         && TrackedSets(t) == TrackedSets(s)[i := tracked + {key}]
         && t.counters.rejected == s.counters.rejected && t.counters.limit == s.counters.limit
         && t.counters.size == s.counters.size + (if key in tracked then 0 else 1)
         && t.counters.bucketSizes
            == s.counters.bucketSizes[i := s.counters.bucketSizes[i] + if key in tracked then 0 else 1]
       else
         && t.buckets == s.buckets
         && t.counters == s.counters.(rejected := s.counters.rejected[i := s.counters.rejected[i] + {key}])
  }

  /** That is what an insert does. */
  lemma InsertTracks(s: State, key: Key, fp: Uint64, values: seq<string>)
    requires Shaped(s)
    ensures Shaped(Inserted(s, key, fp, values))
    ensures TracksOrRejects(s, Inserted(s, key, fp, values), s.route(key), key)
  {
    var i, t := s.route(key), Inserted(s, key, fp, values);
    if key in Tracked(s.buckets[i]) || s.counters.size < s.counters.limit {
      assert Tracked(t.buckets[i]) == Tracked(s.buckets[i]) + {key};
      assert TrackedSets(t) == TrackedSets(s)[i := Tracked(s.buckets[i]) + {key}];
    }
  }

  lemma AddKeySize(r: set<Key>, key: Key)
    ensures |r + {key}| == |r| + if key in r then 0 else 1
  {
    if key in r {
      assert r + {key} == r;
    }
  }

  lemma RoutedUpdate(s: State, sets: seq<set<Key>>, i: nat, key: Key)
    requires i < |sets| && s.route(key) == i && Routed(s, sets)
    ensures Routed(s, sets[i := sets[i] + {key}])
  {
  }

  /** Counting one more key in bucket i, or one it has already. */
  lemma AdmittingKeepsExact(s: State, t: State, i: nat, key: Key)
    requires Exact(s) && Shaped(t) && i < |s.buckets| && i == s.route(key) && t.route == s.route
    requires var more := if key in Tracked(s.buckets[i]) then 0 else 1;
             && TrackedSets(t) == TrackedSets(s)[i := TrackedSets(s)[i] + {key}]
             && t.counters.rejected == s.counters.rejected
             && t.counters.size == s.counters.size + more
             && t.counters.bucketSizes == s.counters.bucketSizes[i := s.counters.bucketSizes[i] + more]
    ensures Exact(t)
  {
    var tracked := TrackedSets(s)[i];
    AddKeySize(tracked, key);
    SumUpdate(Size, TrackedSets(s), i, tracked + {key});
    RoutedUpdate(s, TrackedSets(s), i, key);
    forall j | 0 <= j < |t.buckets| ensures t.counters.bucketSizes[j] == |Tracked(t.buckets[j])| {
      assert Tracked(t.buckets[j]) == TrackedSets(t)[j];
      assert s.counters.bucketSizes[j] == |Tracked(s.buckets[j])|;
    }
  }

  lemma RejectingKeepsExact(s: State, i: nat, key: Key)
    requires Exact(s) && i < |s.buckets| && i == s.route(key)
    ensures Exact(s.(counters := s.counters.(rejected := s.counters.rejected[i := s.counters.rejected[i] + {key}])))
  {
    var t := s.(counters := s.counters.(rejected := s.counters.rejected[i := s.counters.rejected[i] + {key}]));
    assert TrackedSets(t) == TrackedSets(s);
    RoutedUpdate(s, s.counters.rejected, i, key);
  }

  lemma {:induction false} TracksOrRejectsKeepsExact(s: State, t: State, i: nat, key: Key)
    requires Exact(s) && Shaped(t) && i < |s.buckets| && i == s.route(key) && TracksOrRejects(s, t, i, key)
    ensures Exact(t)
  {
    if key in Tracked(s.buckets[i]) || s.counters.size < s.counters.limit {
      AdmittingKeepsExact(s, t, i, key);
    } else {
      RejectingKeepsExact(s, i, key);
    }
  }

  lemma {:induction false} InsertKeepsExact(s: State, key: Key, fp: Uint64, values: seq<string>)
    requires Exact(s)
    ensures Exact(Inserted(s, key, fp, values))
  {
    InsertTracks(s, key, fp, values);
    TracksOrRejectsKeepsExact(s, Inserted(s, key, fp, values), s.route(key), key);
  }

  lemma RoutedShrink(s: State, sets: seq<set<Key>>, i: nat, less: set<Key>)
    requires i < |sets| && less <= sets[i] && Routed(s, sets)
    ensures Routed(s, sets[i := less])
  {
  }

  /** Counting fewer keys in bucket i, and no rejected ones. */
  lemma {:induction false} FewerKeepsExact(s: State, t: State, i: nat, less: set<Key>)
    requires Exact(s) && Shaped(t) && i < |s.buckets| && t.route == s.route && less <= TrackedSets(s)[i]
    requires TrackedSets(t) == TrackedSets(s)[i := less]
    requires t.counters.rejected == s.counters.rejected[i := {}] && t.counters.limit == s.counters.limit
    requires t.counters.bucketSizes == s.counters.bucketSizes[i := |less|]
    requires t.counters.size == s.counters.size - (s.counters.bucketSizes[i] - |less|)
    ensures Exact(t)
  {
    SubsetSize(less, TrackedSets(s)[i]);
    SumUpdate(Size, TrackedSets(s), i, less);
    RoutedShrink(s, TrackedSets(s), i, less);
    RoutedShrink(s, s.counters.rejected, i, {});
    forall j | 0 <= j < |t.buckets| ensures t.counters.bucketSizes[j] == |Tracked(t.buckets[j])| {
      assert Tracked(t.buckets[j]) == TrackedSets(t)[j];
      assert s.counters.bucketSizes[j] == |Tracked(s.buckets[j])|;
    }
  }

  /** Replacing a bucket by one that tracks only some of its keys, and lowering the counters to it. */
  lemma {:induction false} LoweringKeepsExact(s: State, i: nat, b: Bucket)
    requires Exact(s) && i < |s.buckets| && Tracked(b) <= Tracked(s.buckets[i])
    ensures Exact(State(s.precision, s.route, Lowered(s.counters, i, |Tracked(b)|), s.buckets[i := b]))
  {
    var t := State(s.precision, s.route, Lowered(s.counters, i, |Tracked(b)|), s.buckets[i := b]);
    assert s.counters.bucketSizes[i] == |Tracked(s.buckets[i])|;
    SubsetSize(Tracked(b), Tracked(s.buckets[i]));
    LoweredCounts(s.counters, i, |Tracked(b)|);
    assert TrackedSets(t) == TrackedSets(s)[i := Tracked(b)];
    FewerKeepsExact(s, t, i, Tracked(b));
  }

  lemma LoweredCounts(c: Counters, i: nat, kept: int)
    requires i < |c.bucketSizes| == |c.rejected| && kept <= c.bucketSizes[i]
    ensures Lowered(c, i, kept)
            == Counters(c.limit, c.size - (c.bucketSizes[i] - kept), c.bucketSizes[i := kept], c.rejected[i := {}])
  {
  }

  lemma {:induction false} RotateKeepsExact(s: State, i: nat)
    requires Exact(s) && i < |s.buckets|
    ensures Exact(Rotated(s, i))
  {
    var b := Bucket(map[], s.buckets[i].groups);
    assert Tracked(b) == s.buckets[i].groups.Keys;
    LoweringKeepsExact(s, i, b);
  }

  lemma {:induction false} ResetKeepsExact(s: State, i: nat)
    requires Exact(s) && i < |s.buckets|
    ensures Exact(Reset(s, i))
  {
    var b := Bucket(map[], map[]);
    assert Tracked(b) == {};
    LoweringKeepsExact(s, i, b);
  }

  lemma {:induction false} StepKeepsExact(s: State, op: Op)
    requires Exact(s)
    ensures Exact(Step(s, op))
    ensures s.counters.size <= s.counters.limit ==> Step(s, op).counters.size <= s.counters.limit
  {
    match op {
      case Insert(key, fp, values) =>
        InsertKeepsExact(s, key, fp, values);
        InsertTracks(s, key, fp, values);
      case Rotate(i) => if i < |s.buckets| { RotateKeepsExact(s, i); }
      case ResetBucket(i) => if i < |s.buckets| { ResetKeepsExact(s, i); }
    }
  }

  /** Over any run the counters stay exact and the size stays within the limit. */
  lemma {:induction false} RunsAreExact(s: State, ops: seq<Op>)
    requires Exact(s) && s.counters.size <= s.counters.limit
    ensures Exact(Run(s, ops))
    ensures 0 <= Run(s, ops).counters.size <= s.counters.limit
  {
    if ops != [] {
      var n := |ops| - 1;
      RunsAreExact(s, ops[..n]);
      StepKeepsExact(Run(s, ops[..n]), ops[n]);
    }
    SizesNonNegative(TrackedSets(Run(s, ops)));
  }

  lemma {:induction false} SizesNonNegative(sets: seq<set<Key>>)
    ensures Sum(Size, sets) >= 0
  {
    if sets != [] {
      SizesNonNegative(sets[1..]);
    }
  }

  ghost function Union(sets: seq<set<Key>>): set<Key> {
    if sets == [] then {} else sets[0] + Union(sets[1..])
  }

  lemma {:induction false} UnionMember(sets: seq<set<Key>>, k: Key)
    ensures k in Union(sets) <==> exists i | 0 <= i < |sets| :: k in sets[i]
  {
    if sets != [] {
      UnionMember(sets[1..], k);
      if i :| 0 <= i < |sets| && k in sets[i] {
        assert i > 0 ==> sets[1..][i - 1] == sets[i];
      }
    }
  }

  /** Sets at different positions hold different keys, so their sizes add up. */
  lemma {:induction false} SizesAddUp(sets: seq<set<Key>>)
    requires forall i, j, k | 0 <= i < j < |sets| && k in sets[i] :: k !in sets[j]
    ensures Sum(Size, sets) == |Union(sets)|
  {
    if sets != [] {
      var rest := sets[1..];
      SizesAddUp(rest);
      forall k | k in sets[0] ensures k !in Union(rest) {
        UnionMember(rest, k);
      }
      assert |sets[0] + Union(rest)| == |sets[0]| + |Union(rest)|;
    }
  }

  /** All keys tracked, and all keys rejected, by any bucket. */
  ghost function AllTracked(s: State): set<Key> { Union(TrackedSets(s)) }

  ghost function AllRejected(s: State): set<Key> { Union(s.counters.rejected) }

  lemma RoutedUnion(s: State, sets: seq<set<Key>>)
    requires Shaped(s) && |sets| == |s.buckets| && Routed(s, sets)
    ensures Sum(Size, sets) == |Union(sets)|
    ensures forall k :: k in Union(sets) <==> k in sets[s.route(k)]
  {
    forall i, j, k | 0 <= i < j < |sets| && k in sets[i] ensures k !in sets[j] {
      assert s.route(k) == i;
    }
    SizesAddUp(sets);
    forall k: Key ensures k in Union(sets) <==> k in sets[s.route(k)] {
      UnionMember(sets, k);
    }
  }

  /** The size is the number of different keys tracked. */
  lemma {:induction false} SizeIsNumberOfKeys(s: State)
    requires Exact(s)
    ensures s.counters.size == |AllTracked(s)|
    ensures forall k :: k in AllTracked(s) <==> k in Tracked(s.buckets[s.route(k)])
  {
    RoutedUnion(s, TrackedSets(s));
  }

  /* Admission and conservation */

  ghost function KeysOf(ops: seq<Op>): set<Key> {
    set i | 0 <= i < |ops| && ops[i].Insert? :: ops[i].key
  }

  ghost predicate OnlyInserts(ops: seq<Op>) {
    forall op | op in ops :: op.Insert?
  }

  lemma KeysOfSnoc(ops: seq<Op>)
    requires ops != [] && OnlyInserts(ops)
    ensures KeysOf(ops) == KeysOf(ops[..|ops| - 1]) + {ops[|ops| - 1].key}
    ensures OnlyInserts(ops[..|ops| - 1]) && ops[|ops| - 1].Insert?
  {
    assert ops[|ops| - 1] in ops;
  }

  lemma {:induction false} UnionUpdate(sets: seq<set<Key>>, i: nat, key: Key)
    requires i < |sets|
    ensures Union(sets[i := sets[i] + {key}]) == Union(sets) + {key}
  {
    var t := sets[i := sets[i] + {key}];
    if i == 0 {
      assert t[1..] == sets[1..];
    } else {
      assert t[1..] == sets[1..][i - 1 := sets[1..][i - 1] + {key}];
      UnionUpdate(sets[1..], i - 1, key);
    }
  }

  /** Seen over all buckets: the key is tracked, or newly admitted, or rejected. */
  ghost predicate TrackedOverall(s: State, t: State, key: Key) {
    if key in AllTracked(s) || s.counters.size < s.counters.limit
    then AllTracked(t) == AllTracked(s) + {key} && AllRejected(t) == AllRejected(s)
    else AllTracked(t) == AllTracked(s) && AllRejected(t) == AllRejected(s) + {key}
  }

  lemma AdmittedOverall(s: State, t: State, i: nat, key: Key)
    requires i < |s.buckets| && TrackedSets(t) == TrackedSets(s)[i := TrackedSets(s)[i] + {key}]
    ensures AllTracked(t) == AllTracked(s) + {key}
  {
    UnionUpdate(TrackedSets(s), i, key);
  }

  lemma RejectedOverall(s: State, t: State, i: nat, key: Key)
    requires i < |s.counters.rejected|
    requires t.counters.rejected == s.counters.rejected[i := s.counters.rejected[i] + {key}]
    ensures AllRejected(t) == AllRejected(s) + {key}
  {
    UnionUpdate(s.counters.rejected, i, key);
  }

  lemma SameBucketsOverall(s: State, t: State)
    requires t.buckets == s.buckets
    ensures AllTracked(t) == AllTracked(s)
  {
    assert TrackedSets(t) == TrackedSets(s);
  }

  lemma TracksOverall(s: State, t: State, i: nat, key: Key)
    requires Exact(s) && Shaped(t) && i < |s.buckets| && i == s.route(key) && TracksOrRejects(s, t, i, key)
    requires key in AllTracked(s) <==> key in Tracked(s.buckets[i])
    ensures TrackedOverall(s, t, key)
  {
    if key in Tracked(s.buckets[i]) || s.counters.size < s.counters.limit {
      AdmittedOverall(s, t, i, key);
    } else {
      RejectedOverall(s, t, i, key);
      SameBucketsOverall(s, t);
    }
  }

  /** One insert, seen over all buckets. */
  lemma {:induction false} InsertOverall(s: State, key: Key, fp: Uint64, values: seq<string>)
    requires Exact(s)
    ensures var t := Inserted(s, key, fp, values);
            Exact(t) && t.counters.size == |AllTracked(t)| && TrackedOverall(s, t, key)
  {
    var t := Inserted(s, key, fp, values);
    InsertTracks(s, key, fp, values);
    InsertKeepsExact(s, key, fp, values);
    SizeIsNumberOfKeys(s);
    TracksOverall(s, t, s.route(key), key);
    SizeIsNumberOfKeys(t);
  }

  /** What a batch makes of the tracked keys, given the keys it offers. */
  ghost predicate Admitted(before: set<Key>, offered: set<Key>, after: set<Key>, limit: int) {
    && (|before| <= limit ==> |after| == if |before + offered| <= limit then |before + offered| else limit)
    && (|before| >= limit ==> |after| == |before|)
    && before <= after <= before + offered
    && (|before + offered| <= limit ==> after == before + offered)
  }

  lemma AdmitOne(before: set<Key>, offered: set<Key>, mid: set<Key>, limit: int, key: Key, after: set<Key>)
    requires Admitted(before, offered, mid, limit)
    requires after == if key in mid || |mid| < limit then mid + {key} else mid
    ensures Admitted(before, offered + {key}, after, limit)
  {
    var all := before + offered;
    assert before + (offered + {key}) == all + {key};
    AddKeySize(all, key);
    AddKeySize(mid, key);
    SubsetSize(mid, all);
  }

  /** A batch of inserts leaves the size at the limit or at the number of keys, whichever is less,
      and never lowers it: which keys were new does not depend on the order they came in. */
  lemma {:induction false} BatchAdmission(s: State, ops: seq<Op>)
    requires Exact(s) && OnlyInserts(ops)
    ensures var t := Run(s, ops);
            && Exact(t) && t.counters.size == |AllTracked(t)|
            && s.counters.size == |AllTracked(s)|
            && Admitted(AllTracked(s), KeysOf(ops), AllTracked(t), s.counters.limit)
  {
    SizeIsNumberOfKeys(s);
    if ops == [] {
      assert AllTracked(s) + KeysOf(ops) == AllTracked(s);
    } else {
      var n := |ops| - 1;
      KeysOfSnoc(ops);
      BatchAdmission(s, ops[..n]);
      var t, key := Run(s, ops[..n]), ops[n].key;
      InsertOverall(t, key, ops[n].fp, ops[n].values);
      AdmitOne(AllTracked(s), KeysOf(ops[..n]), AllTracked(t), s.counters.limit, key, AllTracked(Run(s, ops)));
    }
  }

  /** So two orders of the same batch, whatever their start offsets, end with the same size. */
  lemma {:induction false} BatchOrderIrrelevant(s: State, a: seq<Op>, b: seq<Op>)
    requires Exact(s) && OnlyInserts(a) && multiset(a) == multiset(b)
    ensures Run(s, a).counters.size == Run(s, b).counters.size
  {
    forall op | op in b ensures op.Insert? {
      assert op in multiset(a);
    }
    SameKeys(a, b);
    SameKeys(b, a);
    assert KeysOf(a) == KeysOf(b);
    BatchAdmission(s, a);
    BatchAdmission(s, b);
  }

  lemma SameKeys(a: seq<Op>, b: seq<Op>)
    requires multiset(a) == multiset(b)
    ensures KeysOf(a) <= KeysOf(b)
  {
    forall k | k in KeysOf(a) ensures k in KeysOf(b) {
      var i :| 0 <= i < |a| && a[i].Insert? && a[i].key == k;
      assert a[i] in multiset(b);
      var j :| 0 <= j < |b| && b[j] == a[i];
    }
  }

  /** What totalSize reports when sketches estimate exactly; rejected keys only count from a
      threshold on, which is at most the limit. */
  ghost function TotalSize(c: Counters, threshold: int): int {
    if c.size >= threshold then c.size + Sum(Size, c.rejected) else c.size
  }

  /** The offered keys fall into tracked and rejected ones, and none is rejected below the limit. */
  ghost predicate Partition(offered: set<Key>, tracked: set<Key>, rejected: set<Key>, limit: int) {
    tracked !! rejected && tracked + rejected == offered && (rejected != {} ==> |tracked| >= limit)
  }

  lemma PartitionOne(offered: set<Key>, tracked: set<Key>, rejected: set<Key>, limit: int, key: Key)
    requires Partition(offered, tracked, rejected, limit)
    ensures key in tracked || |tracked| < limit ==> Partition(offered + {key}, tracked + {key}, rejected, limit)
    ensures key !in tracked && |tracked| >= limit ==> Partition(offered + {key}, tracked, rejected + {key}, limit)
  {
    AddKeySize(tracked, key);
    if key in tracked || |tracked| < limit {
      assert tracked + {key} + rejected == offered + {key};
      assert key in rejected ==> key in tracked || |tracked| >= limit;
    } else {
      assert tracked + (rejected + {key}) == offered + {key};
    }
  }

  /** From construction until the first rotation, no key is both tracked and rejected, and together
      they are exactly the keys offered. */
  lemma {:induction false} OfferedIsTrackedOrRejected(s: State, ops: seq<Op>)
    requires Exact(s) && AllTracked(s) == {} && AllRejected(s) == {} && OnlyInserts(ops)
    ensures var t := Run(s, ops);
            && Exact(t) && t.counters.size == |AllTracked(t)|
            && Partition(KeysOf(ops), AllTracked(t), AllRejected(t), s.counters.limit)
  {
    SizeIsNumberOfKeys(s);
    if ops == [] {
      assert KeysOf(ops) == {};
    } else {
      var n := |ops| - 1;
      KeysOfSnoc(ops);
      OfferedIsTrackedOrRejected(s, ops[..n]);
      var t, key := Run(s, ops[..n]), ops[n].key;
      InsertOverall(t, key, ops[n].fp, ops[n].values);
      PartitionOne(KeysOf(ops[..n]), AllTracked(t), AllRejected(t), s.counters.limit, key);
    }
  }

  lemma PartitionSize(offered: set<Key>, tracked: set<Key>, rejected: set<Key>, limit: int)
    requires Partition(offered, tracked, rejected, limit)
    ensures |offered| == |tracked| + |rejected|
    ensures |tracked| < limit ==> rejected == {}
  {
    assert |tracked + rejected| == |tracked| + |rejected|;
  }

  lemma NothingYet(s: State)
    requires forall i | 0 <= i < |s.buckets| :: Tracked(s.buckets[i]) == {}
    requires forall i | 0 <= i < |s.counters.rejected| :: s.counters.rejected[i] == {}
    ensures AllTracked(s) == {} && AllRejected(s) == {}
  {
    forall k: Key ensures k !in AllTracked(s) && k !in AllRejected(s) {
      UnionMember(TrackedSets(s), k);
      UnionMember(s.counters.rejected, k);
    }
  }

  /** Until the first rotation the reported total is the number of distinct keys offered. */
  lemma TotalIsOffered(precision: nat, limit: int, buckets: nat, ops: seq<Op>, threshold: int)
    requires 0 < buckets && OnlyInserts(ops) && threshold <= limit
    ensures TotalSize(Run(Empty(precision, limit, buckets), ops).counters, threshold) == |KeysOf(ops)|
  {
    var s := Empty(precision, limit, buckets);
    EmptyIsExact(precision, limit, buckets);
    NothingYet(s);
    OfferedIsTrackedOrRejected(s, ops);
    TotalOfPartition(Run(s, ops), KeysOf(ops), threshold);
  }

  lemma TotalOfPartition(t: State, offered: set<Key>, threshold: int)
    requires Exact(t) && t.counters.size == |AllTracked(t)| && threshold <= t.counters.limit
    requires Partition(offered, AllTracked(t), AllRejected(t), t.counters.limit)
    ensures TotalSize(t.counters, threshold) == |offered|
  {
    RoutedUnion(t, t.counters.rejected);
    PartitionSize(offered, AllTracked(t), AllRejected(t), t.counters.limit);
  }

  /** Position j inserts key k while its bucket does not track it and there is no room, and since then
      the bucket was neither rotated nor reset. */
  ghost predicate RejectedAt(s: State, ops: seq<Op>, j: nat, k: Key)
    requires Shaped(s)
  {
    && j < |ops| && ops[j].Insert? && ops[j].key == k
    && Run(s, ops[..j]).counters.size >= s.counters.limit
    && k !in Tracked(Run(s, ops[..j]).buckets[s.route(k)])
    && Rotate(s.route(k)) !in ops[j + 1..] && ResetBucket(s.route(k)) !in ops[j + 1..]
  }

  ghost predicate WasRejected(s: State, ops: seq<Op>, k: Key)
    requires Shaped(s)
  {
    exists j: nat :: RejectedAt(s, ops, j, k)
  }

  lemma RejectedAtSnoc(s: State, ops: seq<Op>, j: nat, k: Key)
    requires Shaped(s) && ops != []
    ensures var n := |ops| - 1;
            RejectedAt(s, ops, j, k) <==>
              if j == n then
                && ops[n].Insert? && ops[n].key == k && Run(s, ops[..n]).counters.size >= s.counters.limit
                && k !in Tracked(Run(s, ops[..n]).buckets[s.route(k)])
              else RejectedAt(s, ops[..n], j, k) && ops[n] != Rotate(s.route(k)) && ops[n] != ResetBucket(s.route(k))
  {
    var n := |ops| - 1;
    if j < n {
      assert ops[..n][..j] == ops[..j];
      assert ops[j + 1..] == ops[..n][j + 1..] + [ops[n]];
    } else if j == n {
      assert ops[j + 1..] == [];
    }
  }

  lemma WasRejectedSnoc(s: State, ops: seq<Op>, k: Key)
    requires Shaped(s) && ops != []
    ensures var n := |ops| - 1;
            WasRejected(s, ops, k) <==>
              || (ops[n].Insert? && ops[n].key == k && Run(s, ops[..n]).counters.size >= s.counters.limit
                  && k !in Tracked(Run(s, ops[..n]).buckets[s.route(k)]))
              || (WasRejected(s, ops[..n], k) && ops[n] != Rotate(s.route(k)) && ops[n] != ResetBucket(s.route(k)))
  {
    var n := |ops| - 1;
    if j: nat :| RejectedAt(s, ops, j, k) {
      RejectedAtSnoc(s, ops, j, k);
    }
    if j: nat :| RejectedAt(s, ops[..n], j, k) {
      RejectedAtSnoc(s, ops, j, k);
    }
    RejectedAtSnoc(s, ops, n, k);
  }

  lemma StepRejects(t: State, op: Op, k: Key)
    requires Shaped(t)
    ensures var i := t.route(k);
            k in Step(t, op).counters.rejected[i] <==>
              || (op.Insert? && op.key == k && t.counters.size >= t.counters.limit && k !in Tracked(t.buckets[i]))
              || (k in t.counters.rejected[i] && op != Rotate(i) && op != ResetBucket(i))
  {
  }

  /** A bucket's reject sketch has exactly the keys that were turned away for lack of room since the
      bucket was last rotated or reset. */
  lemma {:induction false} RejectedMeans(s: State, ops: seq<Op>, k: Key)
    requires Shaped(s) && k !in s.counters.rejected[s.route(k)]
    ensures k in Run(s, ops).counters.rejected[s.route(k)] <==> WasRejected(s, ops, k)
  {
    if ops != [] {
      var n := |ops| - 1;
      RejectedMeans(s, ops[..n], k);
      WasRejectedSnoc(s, ops, k);
      StepRejects(Run(s, ops[..n]), ops[n], k);
    }
  }

  /* What a snapshot shows */

  /** The entry a snapshot emits for a tracked key: both epochs together, values from the current
      one if it has the key. */
  ghost function Emitted(b: Bucket, k: Key): Entry
    requires k in Tracked(b)
  {
    if k !in b.groups then b.prev[k]
    else if k !in b.prev then b.groups[k]
    else b.groups[k].(sketch := Merged(b.groups[k].sketch, b.prev[k].sketch))
  }

  ghost function Content(s: State): map<Key, Entry>
    requires Shaped(s)
  {
    map k | k in AllTracked(s) && k in Tracked(s.buckets[s.route(k)]) :: Emitted(s.buckets[s.route(k)], k)
  }

  /** A snapshot shows every tracked key. */
  lemma {:induction false} ContentShowsAll(s: State)
    requires Exact(s)
    ensures Content(s).Keys == AllTracked(s) && |Content(s)| == s.counters.size
  {
    SizeIsNumberOfKeys(s);
    assert Content(s).Keys == AllTracked(s);
  }

  /** Every sketch has the precision of the estimator, so merging sketches never fails. */
  ghost predicate Uniform(s: State) {
    forall i | 0 <= i < |s.buckets| :: UniformEpoch(s.buckets[i].groups, s.precision)
                                       && UniformEpoch(s.buckets[i].prev, s.precision)
  }

  ghost predicate UniformEpoch(m: map<Key, Entry>, precision: nat) {
    forall k | k in m :: m[k].sketch.precision == precision
  }

  lemma {:induction false} RunPrecision(s: State, ops: seq<Op>)
    requires Shaped(s)
    ensures Run(s, ops).precision == s.precision
  {
    if ops != [] {
      RunPrecision(s, ops[..|ops| - 1]);
    }
  }

  lemma StepKeepsUniform(s: State, op: Op)
    requires Shaped(s) && Uniform(s)
    ensures Uniform(Step(s, op))
  {
  }

  lemma {:induction false} RunKeepsUniform(s: State, ops: seq<Op>)
    requires Shaped(s) && Uniform(s)
    ensures Uniform(Run(s, ops))
  {
    if ops != [] {
      RunKeepsUniform(s, ops[..|ops| - 1]);
      StepKeepsUniform(Run(s, ops[..|ops| - 1]), ops[|ops| - 1]);
    }
  }
}
