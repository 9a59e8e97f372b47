/** An estimator's snapshot, emitted in batches to a callback that may fail. */
module EstimatorSnapshots {
  import opened Base
  import opened Snapshots
  import opened EstimatorModel
  import opened EstimatorBuckets
  import opened Estimators
  import Global = GlobalModel

  /** The part of a content that belongs to some keys. */
  ghost function OnKeys(content: map<Key, Entry>, keys: set<Key>): map<Key, Entry> {
    map k | k in keys && k in content :: content[k]
  }

  lemma MergeParts(content: map<Key, Entry>, a: set<Key>, b: set<Key>)
    requires a !! b
    ensures MergedEntries(OnKeys(content, a), OnKeys(content, b)) == OnKeys(content, a + b)
  {
  }

  /** What the receiver has after some calls: exactly the keys sent so far, no reject size yet. */
  ghost predicate Progress(content: map<Key, Entry>, churn: bool, minimum: int, calls: seq<Core>, done: set<Key>) {
    && Folded(EMPTY, calls)
       == Core(OnKeys(content, done), calls != [] && churn, 0,
               if calls == [] then 0 else MergedMinCardinality(0, minimum))
    && forall i | 0 <= i < |calls| :: |calls[i].entries| <= 1000
  }

  lemma {:induction false} SendBatch(content: map<Key, Entry>, churn: bool, minimum: int, calls: seq<Core>,
                                     done: set<Key>, keys: set<Key>)
    requires Progress(content, churn, minimum, calls, done)
    requires keys !! done && keys <= content.Keys && |keys| <= BATCH_SIZE
    ensures Progress(content, churn, minimum, calls + [Core(OnKeys(content, keys), churn, 0, minimum)], done + keys)
  {
    var batch := OnKeys(content, keys);
    assert batch.Keys == keys;
    FoldedAppend(EMPTY, calls, Core(batch, churn, 0, minimum));
    MergeParts(content, done, keys);
  }

  /** What a bucket emits for some keys. */
  ghost function EmittedFor(b: Bucket, keys: set<Key>): map<Key, Entry> {
    map k | k in keys && k in Tracked(b) :: Emitted(b, k)
  }

  /** The bucket emits its part of the content. */
  ghost predicate Shows(content: map<Key, Entry>, b: Bucket) {
    forall k | k in Tracked(b) :: k in content && content[k] == Emitted(b, k)
  }

  lemma EmittedIsContent(content: map<Key, Entry>, b: Bucket, keys: set<Key>)
    requires Shows(content, b) && keys <= Tracked(b)
    ensures EmittedFor(b, keys) == OnKeys(content, keys) && keys <= content.Keys
  {
  }

  /** Appends the keys of m that skip does not have, in whatever order the map yields them. */
  method AppendKeys(keys: seq<Key>, m: map<Key, Entry>, skip: map<Key, Entry>) returns (r: seq<Key>)
    requires Distinct(keys) && Elements(keys) == skip.Keys
    ensures Distinct(r) && Elements(r) == m.Keys + skip.Keys
  {
    r := keys;
    var todo := m.Keys;
    while todo != {}
      invariant todo <= m.Keys && Distinct(r) && Elements(r) == skip.Keys + (m.Keys - todo)
    {
      var k :| k in todo;
      todo := todo - {k};
      if k !in skip {
        ElementsSnoc(r, k);
        r := r + [k];
      }
    }
  }

  /** Merges the two epochs of one key into a fresh sketch. The merges cannot fail. */
  method EmitKey(eb: EstimatorBucket, key: Key) returns (e: Entry)
    requires key in Tracked(eb.Contents())
    requires UniformEpoch(eb.groups, eb.precision) && UniformEpoch(eb.prevGroups, eb.precision)
    ensures e == Emitted(eb.Contents(), key)
  {
    var values, found := [], false;
    if key in eb.groups {
      values, found := eb.groups[key].values, true;
    }
    if key in eb.prevGroups && !found {
      values := eb.prevGroups[key].values;
    }
    var res := SketchValue(eb.precision, {});
    if key in eb.groups {
      assert res.precision == eb.groups[key].sketch.precision;
      res := Merged(res, eb.groups[key].sketch);
    }
    if key in eb.prevGroups {
      assert res.precision == eb.prevGroups[key].sketch.precision;
      res := Merged(res, eb.prevGroups[key].sketch);
    }
    e := Entry(values, res);
    assert key !in eb.groups ==> res.hashes == eb.prevGroups[key].sketch.hashes;
    assert key in eb.groups && key !in eb.prevGroups ==> res.hashes == eb.groups[key].sketch.hashes;
  }

  /** One batch: an entry for each of its keys. */
  method EmitBatch(eb: EstimatorBucket, batch: seq<Key>) returns (sketches: map<Key, Entry>)
    requires Distinct(batch) && Elements(batch) <= Tracked(eb.Contents())
    requires UniformEpoch(eb.groups, eb.precision) && UniformEpoch(eb.prevGroups, eb.precision)
    ensures sketches == EmittedFor(eb.Contents(), Elements(batch))
  {
    sketches := map[];
    ghost var bucket := eb.Contents();
    assert Elements<Key>([]) == {};
    var i := 0;
    while i < |batch|
      invariant 0 <= i <= |batch| && sketches == EmittedFor(bucket, Elements(batch[..i]))
    {
      assert batch[i] in Elements(batch);
      var e := EmitKey(eb, batch[i]);
      NextKeyIsNew(batch, i);
      OneMoreEmitted(bucket, Elements(batch[..i]), batch[i]);
      sketches := sketches[batch[i] := e];
      i := i + 1;
    }
    assert batch[..i] == batch;
  }

  lemma OneMoreEmitted(b: Bucket, keys: set<Key>, k: Key)
    requires k in Tracked(b)
    ensures EmittedFor(b, keys + {k}) == EmittedFor(b, keys)[k := Emitted(b, k)]
  {
  }

  lemma NextKeyIsNew(keys: seq<Key>, i: nat)
    requires i < |keys| && Distinct(keys)
    ensures keys[i] !in Elements(keys[..i]) && Elements(keys[..i + 1]) == Elements(keys[..i]) + {keys[i]}
  {
    assert keys[..i + 1] == keys[..i] + [keys[i]];
    ElementsSnoc(keys[..i], keys[i]);
  }

  lemma SliceKeys(keys: seq<Key>, i: nat, j: nat)
    requires i <= j <= |keys| && Distinct(keys)
    ensures Distinct(keys[i..j]) && Elements(keys[i..j]) !! Elements(keys[..i])
    ensures Elements(keys[..j]) == Elements(keys[..i]) + Elements(keys[i..j])
    ensures Elements(keys[i..j]) <= Elements(keys)
  {
    forall k ensures k in Elements(keys[..j]) <==> k in Elements(keys[..i]) || k in Elements(keys[i..j]) {
      if k in Elements(keys[..j]) {
        var a :| 0 <= a < j && keys[..j][a] == k;
        assert if a < i then keys[..i][a] == k else keys[i..j][a - i] == k;
      }
      if k in Elements(keys[..i]) {
        var a :| 0 <= a < i && keys[..i][a] == k;
        assert keys[..j][a] == k;
      }
      if k in Elements(keys[i..j]) {
        var a :| 0 <= a < j - i && keys[i..j][a] == k;
        assert keys[..j][a + i] == k && keys[a + i] == k;
      }
    }
    forall k | k in Elements(keys[i..j]) ensures k !in Elements(keys[..i]) && k in Elements(keys) {
      var a :| 0 <= a < j - i && keys[i..j][a] == k;
      assert keys[a + i] == k;
    }
  }

  /** The keys of one bucket: those of the current epoch, then those only the previous one has. */
  method CollectKeys(eb: EstimatorBucket) returns (keys: seq<Key>)
    ensures Distinct(keys) && Elements(keys) == Tracked(eb.Contents())
  {
    assert Elements<Key>([]) == {};
    keys := AppendKeys([], eb.groups, map[]);
    keys := AppendKeys(keys, eb.prevGroups, eb.groups);
  }

  /** The keys before position end are those before position i and those in between. */
  lemma {:induction false} SliceFacts(keys: seq<Key>, i: nat, end: nat, done: set<Key>)
    requires i <= end <= |keys| && Distinct(keys) && done !! Elements(keys)
    ensures var batch := Elements(keys[i..end]);
            && Distinct(keys[i..end]) && |batch| == end - i && batch <= Elements(keys)
            && batch !! done + Elements(keys[..i])
            && done + Elements(keys[..i]) + batch == done + Elements(keys[..end])
            && Elements(keys[..end]) <= Elements(keys)
  {
    SliceKeys(keys, i, end);
    SliceKeys(keys, 0, end);
    assert keys[0..end] == keys[..end];
    DistinctSize(keys[i..end]);
  }

  /** The batch of keys from position i on is sent, after the keys before it. */
  lemma {:induction false} SendSlice(content: map<Key, Entry>, churn: bool, minimum: int, calls: seq<Core>,
                                     done: set<Key>, b: Bucket, batch: set<Key>)
    requires Progress(content, churn, minimum, calls, done) && |batch| <= BATCH_SIZE && batch !! done
    requires Shows(content, b) && batch <= Tracked(b)
    ensures Progress(content, churn, minimum, calls + [Core(EmittedFor(b, batch), churn, 0, minimum)], done + batch)
  {
    EmittedIsContent(content, b, batch);
    SendBatch(content, churn, minimum, calls, done, batch);
  }

  /** All batches of one bucket. The callback accepts that many calls and fails on the next. */
  method EmitBucket(eb: EstimatorBucket, churn: bool, minimum: int, accepted: nat, sent: seq<Core>,
                    ghost content: map<Key, Entry>, ghost done: set<Key>)
    returns (calls: seq<Core>, ok: bool, ghost now: set<Key>)
    requires UniformEpoch(eb.groups, eb.precision) && UniformEpoch(eb.prevGroups, eb.precision)
    requires Shows(content, eb.Contents()) && done !! Tracked(eb.Contents())
    requires Progress(content, churn, minimum, sent, done) && |sent| <= accepted
    ensures Progress(content, churn, minimum, calls, now) && now <= done + Tracked(eb.Contents())
    ensures if ok then now == done + Tracked(eb.Contents()) && |calls| <= accepted else |calls| == accepted + 1
  {
    ghost var bucket := eb.Contents();
    var keys := CollectKeys(eb);
    calls, now := sent, done;
    assert Elements(keys[..0]) == {};
    assert done + {} == done;
    var i := 0;
    while i < |keys|
      invariant 0 <= i <= |keys| && now == done + Elements(keys[..i]) && now <= done + Tracked(bucket)
      invariant Progress(content, churn, minimum, calls, now) && |calls| <= accepted
    {
      var end := if i + BATCH_SIZE < |keys| then i + BATCH_SIZE else |keys|;
      SliceFacts(keys, i, end, done);
      SendSlice(content, churn, minimum, calls, now, bucket, Elements(keys[i..end]));
      var sketches := EmitBatch(eb, keys[i..end]);
      calls, now := calls + [Core(sketches, churn, 0, minimum)], done + Elements(keys[..end]);
      if |calls| > accepted {
        ok := false;
        return;
      }
      i := end;
    }
    assert keys[..i] == keys;
    ok := true;
  }

  /** The keys of a content that route to one of the first b buckets. */
  ghost function Routes(content: map<Key, Entry>, route: Key -> nat, b: nat): set<Key> {
    set k | k in content && route(k) < b
  }

  /** A bucket holds the part of the content that routes to it. */
  lemma BucketContent(s: State, i: nat)
    requires Exact(s) && i < |s.buckets|
    ensures Shows(Content(s), s.buckets[i])
    ensures RoutesTo(Content(s), s.route, i, Tracked(s.buckets[i]))
  {
    ContentShowsAll(s);
    TrackedAtRoute(s, i);
  }

  lemma TrackedAtRoute(s: State, i: nat)
    requires Exact(s) && i < |s.buckets|
    ensures forall k | k in Tracked(s.buckets[i]) :: k in AllTracked(s) && s.route(k) == i
    ensures forall k | k in AllTracked(s) && s.route(k) == i :: k in Tracked(s.buckets[i])
  {
    SizeIsNumberOfKeys(s);
    forall k | k in Tracked(s.buckets[i]) ensures k in AllTracked(s) && s.route(k) == i {
      assert k in TrackedSets(s)[i];
    }
  }

  lemma NextRoutes(content: map<Key, Entry>, route: Key -> nat, i: nat, tracked: set<Key>)
    requires RoutesTo(content, route, i, tracked)
    ensures Routes(content, route, i) !! tracked
    ensures Routes(content, route, i + 1) == Routes(content, route, i) + tracked
  {
  }

  /** The tracked keys are the part of the content that routes to bucket i. */
  ghost predicate RoutesTo(content: map<Key, Entry>, route: Key -> nat, i: nat, tracked: set<Key>) {
    forall k :: k in tracked <==> k in content && route(k) == i
  }

  /** Every bucket is ready to send its part of the content. */
  ghost predicate Ready(content: map<Key, Entry>, route: Key -> nat, precision: nat, buckets: seq<Bucket>) {
    && (forall i | 0 <= i < |buckets| ::
          && Shows(content, buckets[i]) && RoutesTo(content, route, i, Tracked(buckets[i]))
          && UniformEpoch(buckets[i].groups, precision) && UniformEpoch(buckets[i].prev, precision))
    && OnKeys(content, Routes(content, route, |buckets|)) == content
  }

  lemma AllRoutes(content: map<Key, Entry>, route: Key -> nat, n: nat)
    requires forall k | k in content :: route(k) < n
    ensures OnKeys(content, Routes(content, route, n)) == content
  {
  }

  lemma {:induction false} ExactIsReady(s: State)
    requires Exact(s) && Uniform(s)
    ensures Ready(Content(s), s.route, s.precision, s.buckets) && |Content(s)| == s.counters.size
  {
    forall i | 0 <= i < |s.buckets|
      ensures Shows(Content(s), s.buckets[i]) && RoutesTo(Content(s), s.route, i, Tracked(s.buckets[i]))
    {
      BucketContent(s, i);
    }
    AllRoutes(Content(s), s.route, |s.buckets|);
    ContentShowsAll(s);
  }

  method EmitBuckets(e: Estimator, accepted: nat, ghost content: map<Key, Entry>)
    returns (calls: seq<Core>, ok: bool, ghost done: set<Key>)
    requires e.Structure() && Ready(content, e.View().route, e.precision, e.View().buckets)
    ensures Progress(content, e.calculateChurn, e.minCardinality, calls, done)
    ensures if ok then |calls| <= accepted && OnKeys(content, done) == content else |calls| == accepted + 1
  {
    ghost var route, contents := e.View().route, ContentsOf(e.buckets);
    calls, done := [], {};
    assert Routes(content, route, 0) == {};
    var b := 0;
    while b < |e.buckets|
      invariant 0 <= b <= |e.buckets| && done == Routes(content, route, b)
      invariant Progress(content, e.calculateChurn, e.minCardinality, calls, done) && |calls| <= accepted
    {
      NextRoutes(content, route, b, Tracked(contents[b]));
      calls, ok, done := EmitBucket(e.buckets[b], e.calculateChurn, e.minCardinality, accepted, calls, content, done);
      if !ok {
        return;
      }
      b := b + 1;
    }
    ok := true;
  }

  ghost predicate PartOf(some: map<Key, Entry>, all: map<Key, Entry>) {
    forall k | k in some :: k in all && some[k] == all[k]
  }

  /** What the receiver has in the end: everything once, or, if a call failed, a part. */
  ghost predicate Sent(content: map<Key, Entry>, churn: bool, minimum: int, rejected: int, calls: seq<Core>, ok: bool) {
    && (forall i | 0 <= i < |calls| :: |calls[i].entries| <= 1000)
    && PartOf(Folded(EMPTY, calls).entries, content)
    && (ok ==> Folded(EMPTY, calls) == Core(content, churn, rejected, MergedMinCardinality(0, minimum)))
  }

  method Send(e: Estimator, accepted: nat, ghost content: map<Key, Entry>) returns (calls: seq<Core>, ok: bool)
    requires e.Structure() && Ready(content, e.View().route, e.precision, e.View().buckets)
    ensures Sent(content, e.calculateChurn, e.minCardinality, Sum(Size, e.View().counters.rejected), calls, ok)
    ensures if ok then |calls| <= accepted else |calls| == accepted + 1
  {
    ghost var done: set<Key>;
    calls, ok, done := EmitBuckets(e, accepted, content);
    if !ok {
      return;
    }
    var rejected := e.groupSize.TotalRejected();
    SendRejected(content, e.calculateChurn, e.minCardinality, calls, done, rejected);
    calls := calls + [Core(map[], e.calculateChurn, rejected, e.minCardinality)];
    ok := |calls| <= accepted;
  }

  /** Group mode: batches of every bucket, and at last the reject total with no entries. */
  method GroupSnapshot(e: Estimator, accepted: nat) returns (calls: seq<Core>, ok: bool)
    requires e.Valid()
    ensures Sent(Content(e.View()), e.calculateChurn, e.minCardinality, Sum(Size, e.View().counters.rejected),
                 calls, ok)
    ensures ok ==> |Folded(EMPTY, calls).entries| == e.View().counters.size
    ensures if ok then |calls| <= accepted else |calls| == accepted + 1
  {
    ExactIsReady(e.View());
    calls, ok := Send(e, accepted, Content(e.View()));
  }

  lemma {:induction false} SendRejected(content: map<Key, Entry>, churn: bool, minimum: int, calls: seq<Core>,
                                        done: set<Key>, rejected: int)
    requires Progress(content, churn, minimum, calls, done) && OnKeys(content, done) == content
    ensures Folded(EMPTY, calls + [Core(map[], churn, rejected, minimum)])
            == Core(content, churn, rejected, MergedMinCardinality(0, minimum))
  {
    FoldedAppend(EMPTY, calls, Core(map[], churn, rejected, minimum));
    assert MergedEntries(content, map[]) == content;
  }

  /** Global mode: one call with the union of all sketches under key zero. */
  method GlobalSnapshot(e: Estimator) returns (snapshot: Core)
    requires e.Structure()
    ensures snapshot == Core(map[0 := Entry([], SketchValue(e.precision, Global.Content(CellsOf(e.buckets))))],
                             e.calculateChurn, 0, e.minCardinality)
  {
    var hashes: set<Uint64> := {};
    ghost var cells := CellsOf(e.buckets);
    var i := 0;
    while i < |e.buckets|
      invariant 0 <= i <= |e.buckets| && hashes == Global.Content(cells[..i])
    {
      assert cells[..i + 1][..i] == cells[..i];
      hashes := hashes + e.buckets[i].sketch;
      if e.buckets[i].prevSketch.Some? {
        hashes := hashes + e.buckets[i].prevSketch.value;
      }
      i := i + 1;
    }
    assert cells[..i] == cells;
    snapshot := Core(map[0 := Entry([], SketchValue(e.precision, hashes))], e.calculateChurn, 0, e.minCardinality);
  }
}
