/** Sharding and visiting order are invisible: whatever the number of buckets and however inserts,
    rotations and resets of single buckets follow each other, a snapshot shows for each key what was
    inserted under it with at most one rotation of its own bucket since. */
module Sharding {
  import opened Base
  import opened Snapshots
  import opened EstimatorModel

  /* What a run leaves of a key */

  /** How often bucket b rotates. */
  ghost function Turns(ops: seq<Op>, b: nat): nat {
    if ops == [] then 0
    else Turns(ops[..|ops| - 1], b) + if ops[|ops| - 1] == Rotate(b) then 1 else 0
  }

  /** Position i inserts fp under k, and since then bucket b rotated age times and was not reset. */
  ghost predicate InsertedAt(ops: seq<Op>, i: nat, k: Key, fp: Uint64, b: nat, age: nat) {
    && i < |ops| && ops[i].Insert? && ops[i].key == k && ops[i].fp == fp
    && Turns(ops[i + 1..], b) == age && ResetBucket(b) !in ops[i + 1..]
  }

  /** The hash is still held: it was inserted with at most one rotation of its bucket since. */
  ghost predicate Held(ops: seq<Op>, route: Key -> nat, k: Key, fp: Uint64) {
    exists i: nat, age: nat :: age <= 1 && InsertedAt(ops, i, k, fp, route(k), age)
  }

  ghost function HashesUnder(ops: seq<Op>, k: Key): set<Uint64> {
    set j | 0 <= j < |ops| && ops[j].Insert? && ops[j].key == k :: ops[j].fp
  }

  ghost function HeldHashes(ops: seq<Op>, route: Key -> nat, k: Key): set<Uint64> {
    set fp | fp in HashesUnder(ops, k) && Held(ops, route, k, fp)
  }

  ghost function HeldKeys(ops: seq<Op>, route: Key -> nat): set<Key> {
    set k | k in KeysOf(ops) && HeldHashes(ops, route, k) != {}
  }

  /* The same, step by step */

  datatype TwoEpochs = TwoEpochs(cur: set<Uint64>, prev: set<Uint64>)

  const NOTHING := TwoEpochs({}, {})

  /** What key k of bucket b has in its two epochs after some operations. */
  ghost function Epochs(start: TwoEpochs, ops: seq<Op>, b: nat, k: Key): TwoEpochs {
    if ops == [] then start
    else
      var e := Epochs(start, ops[..|ops| - 1], b, k);
      match ops[|ops| - 1]
      case Insert(key, fp, _) => if key == k then e.(cur := e.cur + {fp}) else e
      case Rotate(i) => if i == b then TwoEpochs({}, e.cur) else e
      case ResetBucket(i) => if i == b then NOTHING else e
  }

  lemma {:induction false} EpochsAppend(start: TwoEpochs, x: seq<Op>, y: seq<Op>, b: nat, k: Key)
    ensures Epochs(start, x + y, b, k) == Epochs(Epochs(start, x, b, k), y, b, k)
    decreases |y|
  {
    if y == [] {
      assert x + y == x;
    } else {
      assert (x + y)[..|x + y| - 1] == x + y[..|y| - 1];
      EpochsAppend(start, x, y[..|y| - 1], b, k);
    }
  }

  /** One more operation ages what was inserted before it. */
  lemma InsertedAtSnoc(ops: seq<Op>, i: nat, k: Key, fp: Uint64, b: nat, age: nat)
    requires ops != []
    ensures var n := |ops| - 1;
            InsertedAt(ops, i, k, fp, b, age) <==>
              if i == n then ops[n].Insert? && ops[n].key == k && ops[n].fp == fp && age == 0
              else
                && ops[n] != ResetBucket(b)
                && if ops[n] == Rotate(b) then age > 0 && InsertedAt(ops[..n], i, k, fp, b, age - 1)
                   else InsertedAt(ops[..n], i, k, fp, b, age)
  {
    var n := |ops| - 1;
    if i < n {
      var since := ops[i + 1..];
      assert since[..|since| - 1] == ops[..n][i + 1..] && since[|since| - 1] == ops[n];
      assert ResetBucket(b) in since <==> ResetBucket(b) in ops[..n][i + 1..] || ops[n] == ResetBucket(b);
    } else if i == n {
      assert ops[i + 1..] == [];
    }
  }

  ghost predicate Aged(ops: seq<Op>, k: Key, fp: Uint64, b: nat, age: nat) {
    exists i: nat :: InsertedAt(ops, i, k, fp, b, age)
  }

  lemma AgedSnoc(ops: seq<Op>, k: Key, fp: Uint64, b: nat, age: nat)
    requires ops != []
    ensures var n := |ops| - 1;
            Aged(ops, k, fp, b, age) <==>
              || (ops[n].Insert? && ops[n].key == k && ops[n].fp == fp && age == 0)
              || (ops[n] != ResetBucket(b)
                  && if ops[n] == Rotate(b) then age > 0 && Aged(ops[..n], k, fp, b, age - 1)
                     else Aged(ops[..n], k, fp, b, age))
  {
    var n := |ops| - 1;
    var before := if ops[n] == Rotate(b) then age - 1 else age;
    if i: nat :| InsertedAt(ops, i, k, fp, b, age) {
      InsertedAtSnoc(ops, i, k, fp, b, age);
    }
    if before >= 0 && Aged(ops[..n], k, fp, b, before) {
      var i: nat :| InsertedAt(ops[..n], i, k, fp, b, before);
      InsertedAtSnoc(ops, i, k, fp, b, age);
    }
    InsertedAtSnoc(ops, n, k, fp, b, age);
  }

  /** The current epoch is what was inserted with no rotation since, the previous one with one. */
  lemma {:induction false} EpochsMean(ops: seq<Op>, b: nat, k: Key, fp: Uint64)
    ensures fp in Epochs(NOTHING, ops, b, k).cur <==> Aged(ops, k, fp, b, 0)
    ensures fp in Epochs(NOTHING, ops, b, k).prev <==> Aged(ops, k, fp, b, 1)
  {
    if ops != [] {
      EpochsMean(ops[..|ops| - 1], b, k, fp);
      AgedSnoc(ops, k, fp, b, 0);
      AgedSnoc(ops, k, fp, b, 1);
    }
  }

  lemma HeldIsAged(ops: seq<Op>, route: Key -> nat, k: Key, fp: Uint64)
    ensures Held(ops, route, k, fp) <==> Aged(ops, k, fp, route(k), 0) || Aged(ops, k, fp, route(k), 1)
  {
    if i: nat, age: nat :| age <= 1 && InsertedAt(ops, i, k, fp, route(k), age) {
      assert Aged(ops, k, fp, route(k), age);
    }
  }

  lemma HeldMeans(ops: seq<Op>, route: Key -> nat, k: Key)
    ensures var e := Epochs(NOTHING, ops, route(k), k); HeldHashes(ops, route, k) == e.cur + e.prev
  {
    var e := Epochs(NOTHING, ops, route(k), k);
    forall fp: Uint64 ensures fp in HeldHashes(ops, route, k) <==> fp in e.cur + e.prev {
      EpochsMean(ops, route(k), k, fp);
      HeldIsAged(ops, route, k, fp);
      if i: nat, age: nat :| age <= 1 && InsertedAt(ops, i, k, fp, route(k), age) {
        assert ops[i].fp in HashesUnder(ops, k);
      }
    }
  }

  lemma HeldKeysMean(ops: seq<Op>, route: Key -> nat)
    ensures forall k: Key :: k in HeldKeys(ops, route) <==> Epochs(NOTHING, ops, route(k), k) != NOTHING
  {
    forall k: Key ensures k in HeldKeys(ops, route) <==> Epochs(NOTHING, ops, route(k), k) != NOTHING {
      HeldMeans(ops, route, k);
      if fp :| fp in HeldHashes(ops, route, k) {
        var j :| 0 <= j < |ops| && ops[j].Insert? && ops[j].key == k && ops[j].fp == fp;
        assert k in KeysOf(ops);
      }
    }
  }

  /* The state after a run */

  /** A key stands for one combination of values. */
  ghost predicate Functional(ops: seq<Op>, val: Key -> seq<string>) {
    forall op | op in ops && op.Insert? :: op.values == val(op.key)
  }

  /** An epoch has the key exactly with these hashes, and, if any, the given values. */
  ghost predicate EpochHas(m: map<Key, Entry>, k: Key, precision: nat, hashes: set<Uint64>, functional: bool,
                           values: seq<string>)
  {
    && (k in m <==> hashes != {})
    && (k in m ==> m[k].sketch == SketchValue(precision, hashes) && (functional ==> m[k].values == values))
  }

  ghost predicate KeyHolds(s: State, ops: seq<Op>, k: Key, val: Key -> seq<string>)
    requires Shaped(s)
  {
    var b, e := s.buckets[s.route(k)], Epochs(NOTHING, ops, s.route(k), k);
    && EpochHas(b.groups, k, s.precision, e.cur, Functional(ops, val), val(k))
    && EpochHas(b.prev, k, s.precision, e.prev, Functional(ops, val), val(k))
  }

  ghost predicate Holds(s: State, ops: seq<Op>, val: Key -> seq<string>) {
    Exact(s) && forall k: Key :: KeyHolds(s, ops, k, val)
  }

  lemma {:induction false} HoldsTracked(s: State, ops: seq<Op>, val: Key -> seq<string>)
    requires Holds(s, ops, val)
    ensures AllTracked(s) == HeldKeys(ops, s.route) && s.counters.size == |HeldKeys(ops, s.route)|
  {
    SizeIsNumberOfKeys(s);
    HeldKeysMean(ops, s.route);
    forall k: Key ensures k in AllTracked(s) <==> k in HeldKeys(ops, s.route) {
      TrackedIff(s, ops, k, val);
    }
  }

  lemma TrackedIff(s: State, ops: seq<Op>, k: Key, val: Key -> seq<string>)
    requires Shaped(s) && KeyHolds(s, ops, k, val)
    ensures k in Tracked(s.buckets[s.route(k)]) <==> Epochs(NOTHING, ops, s.route(k), k) != NOTHING
  {
  }

  lemma FunctionalPrefix(ops: seq<Op>, val: Key -> seq<string>)
    requires ops != [] && Functional(ops, val)
    ensures Functional(ops[..|ops| - 1], val)
    ensures var op := ops[|ops| - 1]; op.Insert? ==> op.values == val(op.key)
  {
    assert ops[|ops| - 1] in ops;
  }

  /** What an accepted insert does to the epochs of one key. */
  lemma InsertKeyHolds(s: State, op: Op, k: Key, e: TwoEpochs, before: bool, after: bool, values: seq<string>)
    requires Shaped(s) && op.Insert?
    requires op.key in Tracked(s.buckets[s.route(op.key)]) || s.counters.size < s.counters.limit
    requires EpochHas(s.buckets[s.route(k)].groups, k, s.precision, e.cur, before, values)
    requires EpochHas(s.buckets[s.route(k)].prev, k, s.precision, e.prev, before, values)
    requires after ==> before && (op.key == k ==> op.values == values)
    ensures var b := Step(s, op).buckets[s.route(k)];
            && EpochHas(b.groups, k, s.precision, if op.key == k then e.cur + {op.fp} else e.cur, after, values)
            && EpochHas(b.prev, k, s.precision, e.prev, after, values)
  {
    var b := s.buckets[s.route(k)];
    if op.key == k && k !in b.groups {
      assert e.cur + {op.fp} == {} + {op.fp};
    }
  }

  /** One more operation, as one key sees it, unless it is an insert that is rejected. */
  lemma StepKeyHolds(s: State, ops: seq<Op>, k: Key, val: Key -> seq<string>)
    requires ops != [] && Shaped(s) && KeyHolds(s, ops[..|ops| - 1], k, val)
    requires var op := ops[|ops| - 1];
             op.Insert? ==> op.key in Tracked(s.buckets[s.route(op.key)]) || s.counters.size < s.counters.limit
    ensures KeyHolds(Step(s, ops[|ops| - 1]), ops, k, val)
  {
    var before, op := ops[..|ops| - 1], ops[|ops| - 1];
    if Functional(ops, val) {
      FunctionalPrefix(ops, val);
    }
    if op.Insert? {
      InsertKeyHolds(s, op, k, Epochs(NOTHING, before, s.route(k), k), Functional(before, val), Functional(ops, val),
                     val(k));
    }
  }

  /** At every point of the run the keys that are held fit under the limit. */
  ghost predicate Room(ops: seq<Op>, route: Key -> nat, limit: int) {
    ops == [] || (Room(ops[..|ops| - 1], route, limit) && |HeldKeys(ops, route)| <= limit)
  }

  /** An insert adds its own key to those that are held, and no other. */
  lemma InsertHeldKeys(ops: seq<Op>, route: Key -> nat)
    requires ops != [] && ops[|ops| - 1].Insert?
    ensures HeldKeys(ops, route) == HeldKeys(ops[..|ops| - 1], route) + {ops[|ops| - 1].key}
  {
    HeldKeysMean(ops, route);
    HeldKeysMean(ops[..|ops| - 1], route);
  }

  /** An insert is rejected exactly when the keys held with it exceed the limit. */
  lemma RejectedIff(s: State, ops: seq<Op>, val: Key -> seq<string>)
    requires ops != [] && ops[|ops| - 1].Insert? && Holds(s, ops[..|ops| - 1], val)
    requires |HeldKeys(ops[..|ops| - 1], s.route)| <= s.counters.limit
    ensures var key := ops[|ops| - 1].key;
            key !in Tracked(s.buckets[s.route(key)]) && s.counters.size >= s.counters.limit
            <==> |HeldKeys(ops, s.route)| > s.counters.limit
  {
    HoldsTracked(s, ops[..|ops| - 1], val);
    SizeIsNumberOfKeys(s);
    InsertHeldKeys(ops, s.route);
    AddKeySize(HeldKeys(ops[..|ops| - 1], s.route), ops[|ops| - 1].key);
  }

  lemma {:induction false} RoomNow(ops: seq<Op>, route: Key -> nat, limit: int)
    requires Room(ops, route, limit) && 0 <= limit
    ensures |HeldKeys(ops, route)| <= limit
  {
    if ops == [] {
      assert KeysOf(ops) == {};
    }
  }

  lemma {:induction false} RunHolds(precision: nat, limit: nat, buckets: nat, ops: seq<Op>, val: Key -> seq<string>)
    requires 0 < buckets && Room(ops, RouteBy(buckets), limit)
    ensures Holds(Run(Empty(precision, limit, buckets), ops), ops, val)
  {
    var s := Empty(precision, limit, buckets);
    if ops == [] {
      EmptyIsExact(precision, limit, buckets);
    } else {
      var n := |ops| - 1;
      var t := Run(s, ops[..n]);
      RunHolds(precision, limit, buckets, ops[..n], val);
      RoomNow(ops[..n], RouteBy(buckets), limit);
      StepKeepsExact(t, ops[n]);
      if ops[n].Insert? {
        RejectedIff(t, ops, val);
      }
      forall k: Key ensures KeyHolds(Run(s, ops), ops, k, val) {
        StepKeyHolds(t, ops, k, val);
      }
    }
  }

  /* Main results */

  /** What a snapshot shows, said without buckets and epochs. */
  ghost function Reference(precision: nat, ops: seq<Op>, route: Key -> nat, val: Key -> seq<string>): map<Key, Entry> {
    map k | k in HeldKeys(ops, route) :: Entry(val(k), SketchValue(precision, HeldHashes(ops, route, k)))
  }

  lemma EmittedEntry(s: State, ops: seq<Op>, val: Key -> seq<string>, k: Key)
    requires Shaped(s) && KeyHolds(s, ops, k, val) && k in Tracked(s.buckets[s.route(k)])
    ensures Emitted(s.buckets[s.route(k)], k).sketch == SketchValue(s.precision, HeldHashes(ops, s.route, k))
    ensures Functional(ops, val) ==> Emitted(s.buckets[s.route(k)], k).values == val(k)
  {
    HeldMeans(ops, s.route, k);
    var e := Epochs(NOTHING, ops, s.route(k), k);
    assert e.cur == {} ==> e.cur + e.prev == e.prev;
    assert e.prev == {} ==> e.cur + e.prev == e.cur;
  }

  /** Any number of buckets, any mix of inserts and of rotations and resets of single buckets, as long
      as no insert is rejected: a key is shown exactly if something inserted under it is still held,
      and with exactly those hashes. */
  lemma {:induction false} ShardingInvisible(precision: nat, limit: nat, buckets: nat, ops: seq<Op>)
    requires 0 < buckets && Room(ops, RouteBy(buckets), limit)
    ensures var shown, route := Content(Run(Empty(precision, limit, buckets), ops)), RouteBy(buckets);
            && shown.Keys == HeldKeys(ops, route)
            && forall k | k in shown :: shown[k].sketch == SketchValue(precision, HeldHashes(ops, route, k))
  {
    var val: Key -> seq<string> := k => [];
    var s := Empty(precision, limit, buckets);
    var t := Run(s, ops);
    RunHolds(precision, limit, buckets, ops, val);
    HoldsTracked(t, ops, val);
    ContentShowsAll(t);
    RunPrecision(s, ops);
    SizeIsNumberOfKeys(t);
    forall k | k in Content(t)
      ensures Content(t)[k].sketch == SketchValue(precision, HeldHashes(ops, RouteBy(buckets), k))
    {
      EmittedEntry(t, ops, val, k);
    }
  }

  /** When moreover a key stands for one combination of values, the snapshot is the reference. */
  lemma {:induction false} ContentIsReference(precision: nat, limit: nat, buckets: nat, ops: seq<Op>,
                                              val: Key -> seq<string>)
    requires 0 < buckets && Room(ops, RouteBy(buckets), limit) && Functional(ops, val)
    ensures Content(Run(Empty(precision, limit, buckets), ops)) == Reference(precision, ops, RouteBy(buckets), val)
  {
    var s := Empty(precision, limit, buckets);
    ShardingInvisible(precision, limit, buckets, ops);
    RunHolds(precision, limit, buckets, ops, val);
    ContentValues(Run(s, ops), ops, val);
    IsReference(Content(Run(s, ops)), precision, ops, RouteBy(buckets), val);
  }

  lemma ContentValues(t: State, ops: seq<Op>, val: Key -> seq<string>)
    requires Holds(t, ops, val) && Functional(ops, val)
    ensures forall k | k in Content(t) :: Content(t)[k].values == val(k)
  {
    forall k | k in Content(t) ensures Content(t)[k].values == val(k) {
      assert KeyHolds(t, ops, k, val);
      EmittedEntry(t, ops, val, k);
    }
  }

  lemma IsReference(shown: map<Key, Entry>, precision: nat, ops: seq<Op>, route: Key -> nat, val: Key -> seq<string>)
    requires shown.Keys == HeldKeys(ops, route)
    requires forall k | k in shown :: shown[k].sketch == SketchValue(precision, HeldHashes(ops, route, k))
    requires forall k | k in shown :: shown[k].values == val(k)
    ensures shown == Reference(precision, ops, route, val)
  {
  }

  /** Two instances show the same snapshot if they hold the same hashes of every key. Nothing else
      matters: not the bucket counts, the limits, the order of inserts, or how rotations of different
      buckets lie between them. */
  lemma {:induction false} SameHeldSameContent(precision: nat, limit: nat, buckets: nat, ops: seq<Op>, limit': nat,
                                               buckets': nat, ops': seq<Op>, val: Key -> seq<string>)
    requires 0 < buckets && Room(ops, RouteBy(buckets), limit) && Functional(ops, val)
    requires 0 < buckets' && Room(ops', RouteBy(buckets'), limit') && Functional(ops', val)
    requires forall k: Key :: HeldHashes(ops, RouteBy(buckets), k) == HeldHashes(ops', RouteBy(buckets'), k)
    ensures Content(Run(Empty(precision, limit, buckets), ops))
            == Content(Run(Empty(precision, limit', buckets'), ops'))
  {
    ContentIsReference(precision, limit, buckets, ops, val);
    ContentIsReference(precision, limit', buckets', ops', val);
    SameReference(precision, ops, RouteBy(buckets), ops', RouteBy(buckets'), val);
  }

  lemma SameReference(precision: nat, ops: seq<Op>, route: Key -> nat, ops': seq<Op>, route': Key -> nat,
                      val: Key -> seq<string>)
    requires forall k: Key :: HeldHashes(ops, route, k) == HeldHashes(ops', route', k)
    ensures Reference(precision, ops, route, val) == Reference(precision, ops', route', val)
  {
    SameHeldKeys(ops, route, ops', route');
  }

  lemma SameHeldKeys(ops: seq<Op>, route: Key -> nat, ops': seq<Op>, route': Key -> nat)
    requires forall k: Key :: HeldHashes(ops, route, k) == HeldHashes(ops', route', k)
    ensures HeldKeys(ops, route) == HeldKeys(ops', route')
  {
    HeldKeysMean(ops, route);
    HeldKeysMean(ops', route');
    forall k: Key ensures k in HeldKeys(ops, route) <==> k in HeldKeys(ops', route') {
      HeldMeans(ops, route, k);
      HeldMeans(ops', route', k);
    }
  }
}
