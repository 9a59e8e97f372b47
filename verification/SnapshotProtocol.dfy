/** One toSnapshot of a grouped estimator while inserts, rotations and resets keep happening.

    The reader captures a bucket's two group maps under the lock, releases it, and then takes the
    lock again for each batch of keys. A captured map is an object: it keeps receiving inserts as
    long as it is the bucket's current one. Every map a bucket ever had is kept here as one epoch. */
module SnapshotProtocol {
  import opened Base

  type Key = Uint64
  type Hash = Uint64
  type Epoch = map<Key, set<Hash>>

  /** One emitted group, with the bucket and the epoch it was captured from. */
  datatype Emitted = Emitted(key: Key, sketch: set<Hash>, bucket: nat, epoch: nat)

  /** One insert: the hash went to this key of this epoch of this bucket. */
  datatype Entry = Entry(bucket: nat, epoch: nat, key: Key, hash: Hash)

  datatype Reader =
    | Collecting(bucket: nat)
    | Emitting(bucket: nat, epoch: nat, keys: seq<Key>, i: nat)
    | Finished

  /** Keys are routed to buckets by a fixed function, the remainder of the key by the bucket count.
      The last epoch of a bucket is its current map, the one before it the previous map.
      The log records every insert with the epoch it went to; collected, what each key held
      when it was collected. */
  datatype State = State(
    route: Key -> nat,
    buckets: seq<seq<Epoch>>,
    reader: Reader,
    out: seq<Emitted>,
    collected: map<Key, set<Hash>>,
    log: set<Entry>)

  ghost predicate Init(s: State) {
    && s.buckets != [] && (forall b | 0 <= b < |s.buckets| :: s.buckets[b] == [map[], map[]])
    && (forall k: Key :: s.route(k) == k % |s.buckets|)
    && s.reader == Collecting(0) && s.out == [] && s.collected == map[] && s.log == {}
  }

  ghost function At(e: Epoch, k: Key): set<Hash> { if k in e then e[k] else {} }

  /** What key k holds in epoch n of bucket b and in the epoch before it. */
  ghost function Content(s: State, b: nat, n: nat, k: Key): set<Hash>
    requires b < |s.buckets| && 0 < n < |s.buckets[b]|
  {
    At(s.buckets[b][n], k) + At(s.buckets[b][n - 1], k)
  }

  ghost predicate Insert(s: State, t: State, k: Key, h: Hash)
  {
    var b := s.route(k);
    && b < |s.buckets| && s.buckets[b] != []
    && var n := |s.buckets[b]| - 1;
       var e := s.buckets[b][n];
       t == s.(buckets := s.buckets[b := s.buckets[b][n := e[k := At(e, k) + {h}]]],
               log := s.log + {Entry(b, n, k, h)})
  }

  ghost predicate Rotate(s: State, t: State, b: nat) {
    b < |s.buckets| && t == s.(buckets := s.buckets[b := s.buckets[b] + [map[]]])
  }

  ghost predicate Reset(s: State, t: State, b: nat) {
    b < |s.buckets| && t == s.(buckets := s.buckets[b := s.buckets[b] + [map[], map[]]])
  }

  ghost predicate Lists(keys: seq<Key>, ks: set<Key>) {
    Distinct(keys) && forall k :: k in keys <==> k in ks
  }

  /** Captures both maps and lists the keys of either, in any order. */
  ghost predicate Collect(s: State, t: State, keys: seq<Key>) {
    && s.reader.Collecting?
    && var b := s.reader.bucket;
       && b < |s.buckets| && |s.buckets[b]| >= 2
       && var n := |s.buckets[b]| - 1;
          && Lists(keys, s.buckets[b][n].Keys + s.buckets[b][n - 1].Keys)
          && t == s.(reader := Emitting(b, n, keys, 0),
                     collected := s.collected + map k | k in keys :: Content(s, b, n, k))
  }

  ghost function BatchEnd(r: Reader): nat
    requires r.Emitting?
  {
    if r.i + BATCH_SIZE <= |r.keys| then r.i + BATCH_SIZE else |r.keys|
  }

  /** Merges both captured maps for the next batch of keys and passes them to the callback. */
  ghost predicate EmitBatch(s: State, t: State) {
    && s.reader.Emitting? && s.reader.i < |s.reader.keys|
    && var Emitting(b, n, keys, i) := s.reader;
       && b < |s.buckets| && 0 < n < |s.buckets[b]|
       && var end := BatchEnd(s.reader);
          t == s.(reader := Emitting(b, n, keys, end), out := s.out + BatchOf(s, b, n, keys, i, end))
  }

  ghost function BatchOf(s: State, b: nat, n: nat, keys: seq<Key>, i: nat, end: nat): (r: seq<Emitted>)
    requires b < |s.buckets| && 0 < n < |s.buckets[b]| && i <= end <= |keys|
    ensures |r| == end - i
    ensures forall j | 0 <= j < |r| :: r[j] == Emitted(keys[i + j], Content(s, b, n, keys[i + j]), b, n)
  {
    seq(end - i, j requires 0 <= j < end - i => Emitted(keys[i + j], Content(s, b, n, keys[i + j]), b, n))
  }

  ghost predicate NextBucket(s: State, t: State) {
    && s.reader.Emitting? && s.reader.i >= |s.reader.keys|
    && t == s.(reader := Collecting(s.reader.bucket + 1))
  }

  ghost predicate EmitMetadata(s: State, t: State) {
    s.reader == Collecting(|s.buckets|) && t == s.(reader := Finished)
  }

  ghost predicate Next(s: State, t: State) {
    && s.buckets != []
    && (|| (exists k, h :: Insert(s, t, k, h))
        || (exists b :: Rotate(s, t, b)) || (exists b :: Reset(s, t, b))
        || (exists keys :: Collect(s, t, keys))
        || EmitBatch(s, t) || NextBucket(s, t) || EmitMetadata(s, t))
  }

  ghost predicate IsRun(run: seq<State>) {
    && run != [] && Init(run[0])
    && forall i | 0 <= i < |run| - 1 :: Next(run[i], run[i + 1])
  }

  /* The invariant */

  ghost predicate Holds(s: State, e: Entry) {
    && e.bucket < |s.buckets| && e.epoch < |s.buckets[e.bucket]|
    && e.hash in At(s.buckets[e.bucket][e.epoch], e.key)
  }

  /** The maps hold exactly the hashes inserted under each key during each epoch. */
  ghost predicate LogExact(s: State) {
    forall e: Entry :: e in s.log <==> Holds(s, e)
  }

  ghost predicate BucketsOk(s: State) {
    && s.buckets != [] && (forall k: Key :: s.route(k) < |s.buckets|)
    && (forall b | 0 <= b < |s.buckets| :: |s.buckets[b]| >= 2)
    && (forall b, n, k | 0 <= b < |s.buckets| && 0 <= n < |s.buckets[b]| && k in s.buckets[b][n] ::
          s.route(k) == b)
  }

  /** The keys collected from the present bucket and not emitted yet. */
  ghost function Waiting(s: State): seq<Key> {
    if s.reader.Emitting? && s.reader.i <= |s.reader.keys| then s.reader.keys[s.reader.i..] else []
  }

  /** Buckets below this one have been collected. */
  ghost function Progress(s: State): nat {
    match s.reader
    case Collecting(b) => b
    case Emitting(b, _, _, _) => b + 1
    case Finished => |s.buckets|
  }

  /** A waiting key has a sketch in a captured map, which still holds what was collected. */
  ghost predicate WaitingOk(s: State, b: nat, n: nat, k: Key) {
    && b < |s.buckets| && 0 < n < |s.buckets[b]|
    && k in s.collected && s.route(k) == b
    && (k in s.buckets[b][n] || k in s.buckets[b][n - 1])
    && s.collected[k] <= Content(s, b, n, k)
  }

  ghost predicate ReaderOk(s: State)
    requires s.buckets != []
  {
    && Progress(s) <= |s.buckets|
    && (s.reader.Emitting? ==>
          && 0 < s.reader.epoch < |s.buckets[s.reader.bucket]| && s.reader.i <= |s.reader.keys|
          && forall k | k in Waiting(s) :: WaitingOk(s, s.reader.bucket, s.reader.epoch, k))
    && Distinct(Waiting(s))
  }

  ghost predicate EmittedOk(s: State, e: Emitted)
    requires s.buckets != []
  {
    && e.key in s.collected && s.route(e.key) < Progress(s) && e.key !in Waiting(s)
    && e.bucket < |s.buckets| && e.bucket == s.route(e.key) && 0 < e.epoch < |s.buckets[e.bucket]|
    && s.collected[e.key] <= e.sketch <= Content(s, e.bucket, e.epoch, e.key)
  }

  ghost predicate OutOk(s: State)
    requires s.buckets != []
  {
    && (forall j | 0 <= j < |s.out| :: EmittedOk(s, s.out[j]))
    && (forall i, j | 0 <= i < j < |s.out| :: s.out[i].key != s.out[j].key)
    && (forall k | k in s.collected ::
          s.route(k) < Progress(s) && (k in Waiting(s) || exists j | 0 <= j < |s.out| :: s.out[j].key == k))
  }

  ghost predicate Inv(s: State) {
    LogExact(s) && BucketsOk(s) && ReaderOk(s) && OutOk(s)
  }

  /** Writers only extend epochs: what a key holds in an epoch never shrinks. */
  ghost predicate Grows(s: State, t: State) {
    && |t.buckets| == |s.buckets| && t.route == s.route
    && forall b | 0 <= b < |s.buckets| ::
         && |s.buckets[b]| <= |t.buckets[b]|
         && forall n, k | 0 <= n < |s.buckets[b]| && k in s.buckets[b][n] ::
              k in t.buckets[b][n] && s.buckets[b][n][k] <= t.buckets[b][n][k]
  }

  lemma ContentGrows(s: State, t: State, b: nat, n: nat, k: Key)
    requires Grows(s, t) && b < |s.buckets| && 0 < n < |s.buckets[b]|
    ensures Content(s, b, n, k) <= Content(t, b, n, k)
  {
    assert At(s.buckets[b][n], k) <= At(t.buckets[b][n], k);
    assert At(s.buckets[b][n - 1], k) <= At(t.buckets[b][n - 1], k);
  }

  lemma ReaderUnaffected(s: State, t: State)
    requires Inv(s) && Grows(s, t)
    requires t.reader == s.reader && t.out == s.out && t.collected == s.collected
    ensures ReaderOk(t) && OutOk(t)
  {
    assert Waiting(t) == Waiting(s);
    if s.reader.Emitting? {
      forall k | k in Waiting(t) ensures t.collected[k] <= Content(t, t.reader.bucket, t.reader.epoch, k) {
        ContentGrows(s, t, s.reader.bucket, s.reader.epoch, k);
      }
    }
    forall j | 0 <= j < |t.out| ensures EmittedOk(t, t.out[j]) {
      assert EmittedOk(s, s.out[j]);
      ContentGrows(s, t, t.out[j].bucket, t.out[j].epoch, t.out[j].key);
    }
  }

  lemma InsertHolds(s: State, t: State, k: Key, h: Hash, e: Entry)
    requires BucketsOk(s) && Insert(s, t, k, h)
    ensures Holds(t, e) <==> Holds(s, e) || e == Entry(s.route(k), |s.buckets[s.route(k)]| - 1, k, h)
  {
    var b := s.route(k);
    var n := |s.buckets[b]| - 1;
    assert t.buckets[b][n] == s.buckets[b][n][k := At(s.buckets[b][n], k) + {h}];
  }

  lemma InsertKeepsLog(s: State, t: State, k: Key, h: Hash)
    requires BucketsOk(s) && LogExact(s) && Insert(s, t, k, h)
    ensures LogExact(t)
  {
    forall e: Entry ensures e in t.log <==> Holds(t, e) {
      InsertHolds(s, t, k, h, e);
    }
  }

  lemma InsertKeepsBuckets(s: State, t: State, k: Key, h: Hash)
    requires BucketsOk(s) && Insert(s, t, k, h)
    ensures BucketsOk(t) && Grows(s, t)
  {
    var b := s.route(k);
    var n := |s.buckets[b]| - 1;
    assert t.buckets[b][n] == s.buckets[b][n][k := At(s.buckets[b][n], k) + {h}];
  }

  lemma FreshEpochsKeepBuckets(s: State, t: State, b: nat)
    requires BucketsOk(s) && LogExact(s) && (Rotate(s, t, b) || Reset(s, t, b))
    ensures BucketsOk(t) && LogExact(t) && Grows(s, t)
  {
    assert forall n | |s.buckets[b]| <= n < |t.buckets[b]| :: t.buckets[b][n] == map[];
    forall e: Entry ensures e in t.log <==> Holds(t, e) {
      assert e in s.log <==> Holds(s, e);
    }
  }

  /** A step of the reader leaves the buckets and the log alone. */
  lemma ReaderStepKeepsBuckets(s: State, t: State)
    requires BucketsOk(s) && LogExact(s)
    requires t.route == s.route && t.buckets == s.buckets && t.log == s.log
    ensures BucketsOk(t) && LogExact(t)
    ensures forall b, n, k | 0 <= b < |s.buckets| && 0 < n < |s.buckets[b]| ::
              Content(t, b, n, k) == Content(s, b, n, k)
  {
    forall e: Entry ensures e in t.log <==> Holds(t, e) {
      assert e in s.log <==> Holds(s, e);
    }
  }

  /** What was emitted stays right when the reader moves on and its waiting keys are other ones. */
  lemma EmittedKept(s: State, t: State, e: Emitted)
    requires s.buckets != [] && EmittedOk(s, e)
    requires t.route == s.route && t.buckets == s.buckets && Progress(s) <= Progress(t)
    requires e.key !in Waiting(t)
    requires e.key in t.collected && t.collected[e.key] == s.collected[e.key]
    ensures EmittedOk(t, e)
  {
  }

  /** The keys of a bucket route to it, and were not collected while the reader had not come to it. */
  lemma CollectedAreNew(s: State, t: State, keys: seq<Key>)
    requires Inv(s) && Collect(s, t, keys)
    ensures forall k | k in keys :: s.route(k) == s.reader.bucket && k !in s.collected
  {
    var b := s.reader.bucket;
    var n := |s.buckets[b]| - 1;
    forall k | k in keys ensures s.route(k) == b && k !in s.collected {
      assert k in s.buckets[b][n] || k in s.buckets[b][n - 1];
    }
  }

  lemma CollectedWaits(s: State, t: State, keys: seq<Key>)
    requires Collect(s, t, keys)
    ensures Waiting(t) == keys && Waiting(s) == [] && t.reader.Emitting?
    ensures forall k | k in keys ::
              k in t.collected && t.collected[k] == Content(s, s.reader.bucket, |s.buckets[s.reader.bucket]| - 1, k)
  {
  }

  lemma CollectedIsWaiting(s: State, t: State, keys: seq<Key>, k: Key)
    requires Collect(s, t, keys) && k in keys && s.route(k) == s.reader.bucket
    ensures WaitingOk(t, t.reader.bucket, t.reader.epoch, k)
  {
    var b := s.reader.bucket;
    assert k in s.buckets[b][|s.buckets[b]| - 1].Keys + s.buckets[b][|s.buckets[b]| - 2].Keys;
  }

  lemma CollectKeepsReader(s: State, t: State, keys: seq<Key>)
    requires s.buckets != [] && Collect(s, t, keys)
    requires forall k | k in keys :: s.route(k) == s.reader.bucket
    ensures ReaderOk(t)
  {
    CollectedWaits(s, t, keys);
    forall k | k in Waiting(t) ensures WaitingOk(t, t.reader.bucket, t.reader.epoch, k) {
      CollectedIsWaiting(s, t, keys, k);
    }
  }

  lemma CollectKeepsOut(s: State, t: State, keys: seq<Key>)
    requires Inv(s) && Collect(s, t, keys)
    requires Waiting(t) == keys && Waiting(s) == []
    requires forall k | k in keys :: s.route(k) == s.reader.bucket && k !in s.collected
    ensures OutOk(t)
  {
    forall j | 0 <= j < |t.out| ensures EmittedOk(t, t.out[j]) {
      assert EmittedOk(s, s.out[j]);
      EmittedKept(s, t, s.out[j]);
    }
    forall k | k in t.collected
      ensures t.route(k) < Progress(t) && (k in Waiting(t) || exists j | 0 <= j < |t.out| :: t.out[j].key == k)
    {
      if k !in keys {
        assert k in s.collected && k !in Waiting(s);
      }
    }
  }

  lemma BatchLeavesWaiting(s: State, t: State)
    requires s.buckets != [] && s.reader.Emitting? && EmitBatch(s, t)
    ensures BatchEnd(s.reader) - s.reader.i <= |Waiting(s)|
    ensures Waiting(t) == Waiting(s)[BatchEnd(s.reader) - s.reader.i..]
  {
    var end := BatchEnd(s.reader);
    assert s.reader.keys[s.reader.i..][end - s.reader.i..] == s.reader.keys[end..];
  }

  lemma EmitBatchKeepsReader(s: State, t: State)
    requires Inv(s) && EmitBatch(s, t)
    ensures ReaderOk(t)
    ensures Waiting(t) == Waiting(s)[BatchEnd(s.reader) - s.reader.i..]
  {
    BatchLeavesWaiting(s, t);
    FewerWaiting(s, t, BatchEnd(s.reader) - s.reader.i);
  }

  lemma StillWaiting(s: State, t: State, b: nat, n: nat, k: Key)
    requires t.buckets == s.buckets && t.route == s.route && t.collected == s.collected && WaitingOk(s, b, n, k)
    ensures WaitingOk(t, b, n, k)
  {
  }

  lemma FewerWaiting(s: State, t: State, n: nat)
    requires s.buckets != [] && ReaderOk(s) && s.reader.Emitting? && t.reader.Emitting?
    requires t.buckets == s.buckets && t.route == s.route && t.collected == s.collected && t.log == s.log
    requires t.reader.bucket == s.reader.bucket && t.reader.epoch == s.reader.epoch
    requires t.reader.i <= |t.reader.keys| && n <= |Waiting(s)| && Waiting(t) == Waiting(s)[n..]
    ensures ReaderOk(t)
  {
    forall k | k in Waiting(t) ensures WaitingOk(t, t.reader.bucket, t.reader.epoch, k) {
      assert k in Waiting(s);
      StillWaiting(s, t, s.reader.bucket, s.reader.epoch, k);
    }
  }

  /** The batch in one step: its keys are the first waiting keys, in order. */
  lemma BatchIsWaitingPrefix(s: State, t: State) returns (batch: seq<Emitted>)
    requires Inv(s) && EmitBatch(s, t)
    ensures t.out == s.out + batch && |batch| == BatchEnd(s.reader) - s.reader.i <= |Waiting(s)|
    ensures forall j | 0 <= j < |batch| ::
              && batch[j].key == Waiting(s)[j]
              && batch[j] == Emitted(Waiting(s)[j], Content(s, s.reader.bucket, s.reader.epoch, Waiting(s)[j]),
                                     s.reader.bucket, s.reader.epoch)
  {
    var Emitting(b, n, keys, i) := s.reader;
    batch := BatchOf(s, b, n, keys, i, BatchEnd(s.reader));
  }

  lemma BatchEmittedOk(s: State, t: State, batch: seq<Emitted>, j: nat)
    requires Inv(s) && EmitBatch(s, t) && j < |batch| <= |Waiting(s)|
    requires batch[j] == Emitted(Waiting(s)[j], Content(s, s.reader.bucket, s.reader.epoch, Waiting(s)[j]),
                                 s.reader.bucket, s.reader.epoch)
    requires Waiting(t) == Waiting(s)[|batch|..]
    ensures EmittedOk(t, batch[j])
  {
    assert Waiting(s)[j] in Waiting(s);
  }

  lemma EarlierEmittedOk(s: State, t: State, n: nat, e: Emitted)
    requires Inv(s) && EmitBatch(s, t) && e in s.out
    requires n <= |Waiting(s)| && Waiting(t) == Waiting(s)[n..]
    ensures EmittedOk(t, e)
  {
    assert EmittedOk(s, e);
    EmittedKept(s, t, e);
  }

  lemma AllEmittedOk(s: State, t: State, batch: seq<Emitted>)
    requires Inv(s) && EmitBatch(s, t) && t.out == s.out + batch && |batch| <= |Waiting(s)|
    requires Waiting(t) == Waiting(s)[|batch|..]
    requires forall j | 0 <= j < |batch| ::
               batch[j] == Emitted(Waiting(s)[j], Content(s, s.reader.bucket, s.reader.epoch, Waiting(s)[j]),
                                   s.reader.bucket, s.reader.epoch)
    ensures forall j | 0 <= j < |t.out| :: EmittedOk(t, t.out[j])
  {
    forall e | e in s.out ensures EmittedOk(t, e) {
      EarlierEmittedOk(s, t, |batch|, e);
    }
    forall j | 0 <= j < |batch| ensures EmittedOk(t, batch[j]) {
      BatchEmittedOk(s, t, batch, j);
    }
  }

  lemma StillCovered(s: State, t: State, batch: seq<Emitted>, k: Key)
    requires Inv(s) && EmitBatch(s, t) && t.out == s.out + batch && |batch| <= |Waiting(s)|
    requires Waiting(t) == Waiting(s)[|batch|..]
    requires forall j | 0 <= j < |batch| :: batch[j].key == Waiting(s)[j]
    requires k in t.collected
    ensures t.route(k) < Progress(t) && (k in Waiting(t) || exists j | 0 <= j < |t.out| :: t.out[j].key == k)
  {
    StillListed(Waiting(s), s.out, batch, k);
  }

  /** A key that was waiting or emitted still is, once the first waiting keys are emitted. */
  lemma StillListed(waiting: seq<Key>, out: seq<Emitted>, batch: seq<Emitted>, k: Key)
    requires |batch| <= |waiting| && forall j | 0 <= j < |batch| :: batch[j].key == waiting[j]
    requires k in waiting || exists j | 0 <= j < |out| :: out[j].key == k
    ensures k in waiting[|batch|..] || exists j | 0 <= j < |out + batch| :: (out + batch)[j].key == k
  {
    if j :| 0 <= j < |out| && out[j].key == k {
      assert (out + batch)[j].key == k;
    } else {
      var j :| 0 <= j < |waiting| && waiting[j] == k;
      if j < |batch| {
        assert (out + batch)[|out| + j].key == k;
      } else {
        assert waiting[|batch|..][j - |batch|] == k;
      }
    }
  }

  lemma EmittedKeysDistinct(s: State, t: State, batch: seq<Emitted>)
    requires Inv(s) && t.out == s.out + batch && |batch| <= |Waiting(s)|
    requires forall j | 0 <= j < |batch| :: batch[j].key == Waiting(s)[j]
    ensures forall i, j | 0 <= i < j < |t.out| :: t.out[i].key != t.out[j].key
  {
    forall i, j | 0 <= i < j < |t.out| ensures t.out[i].key != t.out[j].key {
      if i < |s.out| {
        assert EmittedOk(s, s.out[i]);
        if |s.out| <= j {
          assert t.out[j].key == Waiting(s)[j - |s.out|];
          assert t.out[j].key in Waiting(s);
        }
      } else {
        assert t.out[i].key == Waiting(s)[i - |s.out|] && t.out[j].key == Waiting(s)[j - |s.out|];
      }
    }
  }

  lemma EmitBatchKeepsOut(s: State, t: State)
    requires Inv(s) && EmitBatch(s, t)
    requires Waiting(t) == Waiting(s)[BatchEnd(s.reader) - s.reader.i..]
    ensures OutOk(t)
  {
    var batch := BatchIsWaitingPrefix(s, t);
    AllEmittedOk(s, t, batch);
    EmittedKeysDistinct(s, t, batch);
    forall k | k in t.collected
      ensures t.route(k) < Progress(t) && (k in Waiting(t) || exists j | 0 <= j < |t.out| :: t.out[j].key == k)
    {
      StillCovered(s, t, batch, k);
    }
  }

  lemma AdvanceKeepsInv(s: State, t: State)
    requires Inv(s) && (NextBucket(s, t) || EmitMetadata(s, t))
    ensures Inv(t)
  {
    ReaderStepKeepsBuckets(s, t);
    assert Waiting(s) == [] && Waiting(t) == [];
    forall j | 0 <= j < |t.out| ensures EmittedOk(t, t.out[j]) {
      assert EmittedOk(s, s.out[j]);
      EmittedKept(s, t, s.out[j]);
    }
  }

  lemma NextKeepsInv(s: State, t: State)
    requires Inv(s) && Next(s, t)
    ensures Inv(t)
  {
    if k, h :| Insert(s, t, k, h) {
      InsertKeepsBuckets(s, t, k, h);
      InsertKeepsLog(s, t, k, h);
      ReaderUnaffected(s, t);
    } else if b :| Rotate(s, t, b) || Reset(s, t, b) {
      FreshEpochsKeepBuckets(s, t, b);
      ReaderUnaffected(s, t);
    } else if keys :| Collect(s, t, keys) {
      ReaderStepKeepsBuckets(s, t);
      CollectedAreNew(s, t, keys);
      CollectedWaits(s, t, keys);
      CollectKeepsReader(s, t, keys);
      CollectKeepsOut(s, t, keys);
    } else if EmitBatch(s, t) {
      ReaderStepKeepsBuckets(s, t);
      EmitBatchKeepsReader(s, t);
      EmitBatchKeepsOut(s, t);
    } else {
      AdvanceKeepsInv(s, t);
    }
  }

  lemma InitInv(s: State)
    requires Init(s)
    ensures Inv(s)
  {
    forall e: Entry ensures !Holds(s, e) {
      if e.bucket < |s.buckets| {
        assert s.buckets[e.bucket] == [map[], map[]];
      }
    }
    forall b, n, k | 0 <= b < |s.buckets| && 0 <= n < |s.buckets[b]| ensures k !in s.buckets[b][n] {
      assert s.buckets[b] == [map[], map[]];
    }
  }

  lemma {:induction false} RunKeepsInv(run: seq<State>)
    requires IsRun(run)
    ensures Inv(run[|run| - 1])
  {
    var n := |run| - 1;
    if n == 0 {
      InitInv(run[0]);
    } else {
      RunKeepsInv(run[..n]);
      assert Next(run[n - 1], run[n]);
      NextKeepsInv(run[n - 1], run[n]);
    }
  }

  /* Main results */

  /** Hash h was inserted under the key of e during one of the two epochs captured for e. */
  ghost predicate InsertedInCapture(s: State, e: Emitted, h: Hash) {
    && 0 < e.epoch
    && (|| Entry(e.bucket, e.epoch, e.key, h) in s.log
        || Entry(e.bucket, e.epoch - 1, e.key, h) in s.log)
  }

  /** A finished snapshot emitted each collected key exactly once; its sketch has everything the
      key held when collected, and only hashes inserted under that key during the two captured
      epochs, whatever inserts, rotations and resets ran between the batches. */
  lemma SnapshotConsistent(run: seq<State>)
    requires IsRun(run) && run[|run| - 1].reader == Finished
    ensures var s := run[|run| - 1];
            && (forall k :: k in s.collected <==> exists i | 0 <= i < |s.out| :: s.out[i].key == k)
            && (forall i, j | 0 <= i < j < |s.out| :: s.out[i].key != s.out[j].key)
            && |s.out| == |s.collected|
            && (forall i | 0 <= i < |s.out| ::
                  && s.collected[s.out[i].key] <= s.out[i].sketch
                  && forall h | h in s.out[i].sketch :: InsertedInCapture(s, s.out[i], h))
  {
    RunKeepsInv(run);
    var s := run[|run| - 1];
    assert Waiting(s) == [];
    forall i | 0 <= i < |s.out| ensures s.out[i].key in s.collected {
      assert EmittedOk(s, s.out[i]);
    }
    DistinctKeysCount(s.out, s.collected.Keys);
    forall i | 0 <= i < |s.out|
      ensures s.collected[s.out[i].key] <= s.out[i].sketch
      ensures forall h | h in s.out[i].sketch :: InsertedInCapture(s, s.out[i], h)
    {
      EmittedWasInserted(s, s.out[i]);
    }
  }

  lemma EmittedWasInserted(s: State, e: Emitted)
    requires LogExact(s) && BucketsOk(s) && EmittedOk(s, e)
    ensures forall h | h in e.sketch :: InsertedInCapture(s, e, h)
  {
    forall h | h in e.sketch ensures InsertedInCapture(s, e, h) {
      assert Holds(s, Entry(e.bucket, e.epoch, e.key, h)) || Holds(s, Entry(e.bucket, e.epoch - 1, e.key, h));
    }
  }

  lemma {:induction false} DistinctKeysCount(out: seq<Emitted>, ks: set<Key>)
    requires forall i, j | 0 <= i < j < |out| :: out[i].key != out[j].key
    requires forall k :: k in ks <==> exists i | 0 <= i < |out| :: out[i].key == k
    ensures |out| == |ks|
  {
    if out == [] {
      assert ks == {};
    } else {
      var n := |out| - 1;
      var init := out[..n];
      forall k ensures k in ks - {out[n].key} <==> exists i | 0 <= i < |init| :: init[i].key == k {
        if k in ks - {out[n].key} {
          var i :| 0 <= i < |out| && out[i].key == k;
          assert init[i].key == k;
        }
      }
      assert out[n].key in ks;
      DistinctKeysCount(init, ks - {out[n].key});
    }
  }

  /* Completeness */

  ghost predicate Tracks(s: State, k: Key) {
    var b := s.route(k);
    && b < |s.buckets| && |s.buckets[b]| >= 2
    && (k in s.buckets[b][|s.buckets[b]| - 1] || k in s.buckets[b][|s.buckets[b]| - 2])
  }

  /** The bucket holds hash h under key k, in its current map or the one before it. */
  ghost predicate Shows(s: State, k: Key, h: Hash) {
    Tracks(s, k) && h in Content(s, s.route(k), |s.buckets[s.route(k)]| - 1, k)
  }

  /** The reader is about to collect the bucket of k. */
  ghost predicate Turn(s: State, k: Key) { s.reader == Collecting(s.route(k)) }

  /** The bucket of k is collected as it is in state q of the run. */
  ghost predicate CollectedFrom(run: seq<State>, q: nat, k: Key) {
    q + 1 < |run| && Turn(run[q], k) && run[q + 1].reader.Emitting?
  }

  /** What t has collected of k is what its bucket holds in s: nothing if it does not track k there. */
  ghost predicate Took(s: State, t: State, k: Key) {
    && (k in t.collected <==> Tracks(s, k))
    && (Tracks(s, k) ==> t.collected[k] == Content(s, s.route(k), |s.buckets[s.route(k)]| - 1, k))
  }

  lemma ListedAtTurn(s: State, t: State, keys: seq<Key>, k: Key)
    requires Collect(s, t, keys) && Turn(s, k) && Tracks(s, k)
    ensures k in keys
  {
    var b := s.reader.bucket;
    assert k in s.buckets[b][|s.buckets[b]| - 1].Keys + s.buckets[b][|s.buckets[b]| - 2].Keys;
  }

  lemma CollectedAtTurn(s: State, t: State, keys: seq<Key>, k: Key)
    requires Collect(s, t, keys) && Turn(s, k) && k in keys
    ensures k in t.collected && t.collected[k] == Content(s, s.route(k), |s.buckets[s.route(k)]| - 1, k)
  {
    assert s.reader.bucket == s.route(k);
  }

  lemma OnlyTrackedAreListed(s: State, t: State, keys: seq<Key>, k: Key)
    requires Collect(s, t, keys) && Turn(s, k) && k in keys
    ensures Tracks(s, k)
  {
    var b := s.reader.bucket;
    assert k in s.buckets[b][|s.buckets[b]| - 1].Keys + s.buckets[b][|s.buckets[b]| - 2].Keys;
  }

  lemma TakesAtTurn(s: State, t: State, keys: seq<Key>, k: Key)
    requires Collect(s, t, keys) && Turn(s, k) && k !in s.collected
    ensures Took(s, t, k)
  {
    if Tracks(s, k) {
      ListedAtTurn(s, t, keys, k);
      CollectedAtTurn(s, t, keys, k);
    } else if k in keys {
      OnlyTrackedAreListed(s, t, keys, k);
    }
  }

  /** What was collected from other buckets stays. */
  lemma CollectKeeps(s: State, t: State, keys: seq<Key>, k: Key)
    requires Collect(s, t, keys) && !Turn(s, k)
    requires forall k | k in keys :: s.route(k) == s.reader.bucket
    ensures k in t.collected <==> k in s.collected
    ensures k in s.collected ==> t.collected[k] == s.collected[k]
  {
    assert k !in keys;
  }

  lemma NoProgress(s: State, t: State)
    requires Next(s, t) && !exists keys :: Collect(s, t, keys)
    ensures t.collected == s.collected && t.route == s.route && Progress(t) == Progress(s)
    ensures s.reader.Collecting? ==> !t.reader.Emitting?
  {
  }

  /** The reader never goes back, and passes the bucket of k by collecting it. */
  lemma StepProgress(s: State, t: State, k: Key)
    requires Next(s, t)
    ensures t.route == s.route && Progress(s) <= Progress(t)
    ensures Progress(s) <= s.route(k) < Progress(t) ==> Turn(s, k) && t.reader.Emitting?
    ensures Turn(s, k) && t.reader.Emitting? ==> Progress(s) <= s.route(k) < Progress(t)
  {
    if keys :| Collect(s, t, keys) {
    } else {
      NoProgress(s, t);
    }
  }

  lemma StepTakes(s: State, t: State, k: Key)
    requires Inv(s) && Next(s, t)
    ensures if Turn(s, k) && t.reader.Emitting? then Took(s, t, k)
            else (k in t.collected <==> k in s.collected) && (k in s.collected ==> t.collected[k] == s.collected[k])
  {
    if keys :| Collect(s, t, keys) {
      CollectedAreNew(s, t, keys);
      if Turn(s, k) {
        assert k !in s.collected;
        TakesAtTurn(s, t, keys, k);
      } else {
        CollectKeeps(s, t, keys, k);
      }
    } else {
      NoProgress(s, t);
    }
  }

  /** Once the reader is past a bucket, what it has of a key is from one state of the run. */
  lemma {:induction false} TakenOnce(run: seq<State>, k: Key) returns (q: nat)
    requires IsRun(run) && run[|run| - 1].route(k) < Progress(run[|run| - 1])
    ensures CollectedFrom(run, q, k) && Took(run[q], run[|run| - 1], k)
  {
    var n := |run| - 1;
    assert n > 0 by {
      assert Progress(run[0]) == 0;
    }
    var s, t := run[n - 1], run[n];
    assert Next(s, t);
    RunKeepsInv(run[..n]);
    StepProgress(s, t, k);
    StepTakes(s, t, k);
    if s.route(k) < Progress(s) {
      q := TakenOnce(run[..n], k);
    } else {
      q := n - 1;
    }
  }

  /** The reader does not go back, and goes on when it collects the bucket of k. */
  ghost predicate Rises(s: State, t: State, k: Key) {
    && t.route == s.route && Progress(s) <= Progress(t)
    && (Turn(s, k) && t.reader.Emitting? ==> Progress(s) <= s.route(k) < Progress(t))
  }

  ghost predicate Orderly(run: seq<State>, k: Key) {
    forall i, j | 0 <= i < j < |run| && j == i + 1 :: Rises(run[i], run[j], k)
  }

  lemma RunIsOrderly(run: seq<State>, k: Key)
    requires IsRun(run)
    ensures Orderly(run, k)
  {
    forall i, j | 0 <= i < j < |run| && j == i + 1 ensures Rises(run[i], run[j], k) {
      assert Next(run[i], run[i + 1]);
      StepProgress(run[i], run[j], k);
    }
  }

  lemma {:induction false} ProgressGrows(run: seq<State>, q: nat, r: nat, k: Key)
    requires Orderly(run, k) && q <= r < |run|
    ensures run[q].route == run[r].route && Progress(run[q]) <= Progress(run[r])
  {
    if q < r {
      ProgressGrows(run, q, r - 1, k);
      assert Rises(run[r - 1], run[r], k);
    }
  }

  /** While nothing is collected, the bucket of k is still to be collected. */
  lemma NotYetCollected(run: seq<State>, p: nat, q: nat, k: Key)
    requires Orderly(run, k) && p < |run| && CollectedFrom(run, q, k) && Progress(run[p]) <= run[q].route(k)
    ensures p <= q
  {
    if q < p {
      ProgressGrows(run, q + 1, p, k);
    }
  }

  lemma SameCollection(run: seq<State>, q: nat, r: nat, k: Key)
    requires Orderly(run, k) && CollectedFrom(run, q, k) && CollectedFrom(run, r, k)
    ensures q == r
  {
    if q < r {
      ProgressGrows(run, q, r, k);
      NotYetCollected(run, r, q, k);
    } else if r < q {
      ProgressGrows(run, r, q, k);
      NotYetCollected(run, q, r, k);
    }
  }

  /** Each bucket is collected from one state only. */
  lemma CollectedOnce(run: seq<State>, q: nat, r: nat, k: Key)
    requires IsRun(run) && CollectedFrom(run, q, k) && CollectedFrom(run, r, k)
    ensures q == r
  {
    RunIsOrderly(run, k);
    SameCollection(run, q, r, k);
  }

  /** A finished snapshot misses nothing and makes nothing up: there is one state of the run from which
      the bucket of k was collected, and k is emitted exactly if it is tracked there, with every hash
      the bucket holds for it there. */
  lemma SnapshotComplete(run: seq<State>, k: Key) returns (q: nat)
    requires IsRun(run) && run[|run| - 1].reader == Finished
    ensures CollectedFrom(run, q, k) && forall r: nat | CollectedFrom(run, r, k) :: r == q
    ensures var s := run[|run| - 1];
            && (Tracks(run[q], k) <==> exists i | 0 <= i < |s.out| :: s.out[i].key == k)
            && (forall i, h | 0 <= i < |s.out| && s.out[i].key == k && Shows(run[q], k, h) :: h in s.out[i].sketch)
  {
    AllPassed(run, k);
    q := TakenOnce(run, k);
    forall r: nat | CollectedFrom(run, r, k) ensures r == q {
      CollectedOnce(run, r, q, k);
    }
    SnapshotConsistent(run);
    TakenIsEmitted(run[q], run[|run| - 1], k);
  }

  lemma AllPassed(run: seq<State>, k: Key)
    requires IsRun(run) && run[|run| - 1].reader == Finished
    ensures run[|run| - 1].route(k) < Progress(run[|run| - 1])
  {
    RunKeepsInv(run);
  }

  lemma TakenIsEmitted(s: State, t: State, k: Key)
    requires Took(s, t, k)
    requires forall k :: k in t.collected <==> exists i | 0 <= i < |t.out| :: t.out[i].key == k
    requires forall i | 0 <= i < |t.out| :: t.out[i].key in t.collected && t.collected[t.out[i].key] <= t.out[i].sketch
    ensures Tracks(s, k) <==> exists i | 0 <= i < |t.out| :: t.out[i].key == k
    ensures forall i, h | 0 <= i < |t.out| && t.out[i].key == k && Shows(s, k, h) :: h in t.out[i].sketch
  {
    assert k in t.collected <==> exists i | 0 <= i < |t.out| :: t.out[i].key == k;
  }

  /** So a group tracked in every state since before the first bucket was collected is emitted, with
      every hash it held all the time. */
  lemma TrackedThroughoutIsEmitted(run: seq<State>, p: nat, k: Key)
    requires IsRun(run) && run[|run| - 1].reader == Finished && p < |run| && run[p].reader == Collecting(0)
    requires forall j: nat | p <= j < |run| :: Tracks(run[j], k)
    ensures var s := run[|run| - 1];
            exists i | 0 <= i < |s.out| ::
              && s.out[i].key == k
              && forall h | (forall j: nat | p <= j < |run| :: Shows(run[j], k, h)) :: h in s.out[i].sketch
  {
    var s := run[|run| - 1];
    var q := SnapshotComplete(run, k);
    RunIsOrderly(run, k);
    NotYetCollected(run, p, q, k);
    var i :| 0 <= i < |s.out| && s.out[i].key == k;
  }

  /** Every key of a batch is in one of the two captured maps, so it has a sketch to merge into. */
  lemma BatchKeysHaveSketch(run: seq<State>, i: nat)
    requires IsRun(run) && run[|run| - 1].reader.Emitting?
    requires run[|run| - 1].reader.i <= i < |run[|run| - 1].reader.keys|
    ensures var s := run[|run| - 1];
            var r := s.reader;
            && r.bucket < |s.buckets| && 0 < r.epoch < |s.buckets[r.bucket]|
            && (r.keys[i] in s.buckets[r.bucket][r.epoch] || r.keys[i] in s.buckets[r.bucket][r.epoch - 1])
  {
    RunKeepsInv(run);
    var s := run[|run| - 1];
    assert Waiting(s)[i - s.reader.i] == s.reader.keys[i];
    assert WaitingOk(s, s.reader.bucket, s.reader.epoch, s.reader.keys[i]);
  }
}
