/** A group that is hit in every epoch of its bucket is never lost. */
module KeptGroups {
  import opened Base
  import opened Snapshots
  import opened EstimatorModel

  /** Whether key k was inserted since the last rotation of bucket i; atStart stands for what
      happened before the run. */
  ghost predicate HitSince(ops: seq<Op>, i: nat, k: Key, atStart: bool) {
    if ops == [] then atStart
    else match ops[|ops| - 1] {
      case Insert(key, _, _) => key == k || HitSince(ops[..|ops| - 1], i, k, atStart)
      case Rotate(j) => j != i && HitSince(ops[..|ops| - 1], i, k, atStart)
      case ResetBucket(_) => HitSince(ops[..|ops| - 1], i, k, atStart)
    }
  }

  /** Bucket i is never reset and every one of its rotations finds k hit in the epoch it ends. */
  ghost predicate HitInEveryEpoch(ops: seq<Op>, i: nat, k: Key, atStart: bool) {
    ops == [] ||
    (var before, op := ops[..|ops| - 1], ops[|ops| - 1];
     && HitInEveryEpoch(before, i, k, atStart)
     && op != ResetBucket(i)
     && (op == Rotate(i) ==> HitSince(before, i, k, atStart)))
  }

  /** The group-by values bucket b holds for a tracked key. */
  ghost function ValuesOf(b: Bucket, k: Key): seq<string>
    requires k in Tracked(b)
  {
    if k in b.groups then b.groups[k].values else b.prev[k].values
  }

  /** Key k is tracked by its bucket with the given values, in the current epoch if it was hit. */
  ghost predicate Kept(s: State, k: Key, values: seq<string>, hit: bool)
    requires Shaped(s)
  {
    var b := s.buckets[s.route(k)];
    k in Tracked(b) && ValuesOf(b, k) == values && (hit ==> k in b.groups)
  }

  lemma StepKeeps(s: State, op: Op, k: Key, values: seq<string>, hit: bool)
    requires Shaped(s) && Kept(s, k, values, hit)
    requires op != ResetBucket(s.route(k)) && (op == Rotate(s.route(k)) ==> hit)
    ensures op == Rotate(s.route(k)) ==> Kept(Step(s, op), k, values, false)
    ensures op != Rotate(s.route(k)) ==> Kept(Step(s, op), k, values, hit || (op.Insert? && op.key == k))
    ensures k in Step(s, op).counters.rejected[s.route(k)] ==> k in s.counters.rejected[s.route(k)]
    ensures op.Insert? && op.key == k ==>
              && k in Step(s, op).buckets[s.route(k)].groups
              && op.fp in Step(s, op).buckets[s.route(k)].groups[k].sketch.hashes
  {
  }

  /** Such a group stays tracked with the values it had, and its bucket never rejects its key,
      whatever the limit and whatever else the run inserts, rotates or resets. */
  lemma {:induction false} HitGroupsAreKept(s: State, ops: seq<Op>, k: Key, values: seq<string>, atStart: bool)
    requires Shaped(s) && Kept(s, k, values, atStart)
    requires HitInEveryEpoch(ops, s.route(k), k, atStart)
    ensures Kept(Run(s, ops), k, values, HitSince(ops, s.route(k), k, atStart))
    ensures k in Run(s, ops).counters.rejected[s.route(k)] ==> k in s.counters.rejected[s.route(k)]
  {
    if ops != [] {
      var n := |ops| - 1;
      HitGroupsAreKept(s, ops[..n], k, values, atStart);
      StepKeeps(Run(s, ops[..n]), ops[n], k, values, HitSince(ops[..n], s.route(k), k, atStart));
    }
  }

  /** One missed epoch is enough: after a rotation, an epoch without an insert of the key, whatever else
      is inserted and whichever buckets rotate or reset, and another rotation, the key is gone. */
  lemma {:induction false} MissedEpochEvicts(s: State, ops: seq<Op>, k: Key)
    requires Shaped(s) && k !in s.buckets[s.route(k)].groups
    requires forall op | op in ops :: !(op.Insert? && op.key == k)
    ensures k !in Tracked(Run(s, ops + [Rotate(s.route(k))]).buckets[s.route(k)])
  {
    NotInserted(s, ops, k);
    OneMore(s, ops, Rotate(s.route(k)));
    RotateEvicts(Run(s, ops), k);
  }

  lemma OneMore(s: State, ops: seq<Op>, op: Op)
    requires Shaped(s)
    ensures Run(s, ops + [op]) == Step(Run(s, ops), op)
  {
    assert (ops + [op])[..|ops|] == ops;
  }

  /** A rotation drops what the current epoch does not have. */
  lemma RotateEvicts(s: State, k: Key)
    requires Shaped(s) && k !in s.buckets[s.route(k)].groups
    ensures k !in Tracked(Step(s, Rotate(s.route(k))).buckets[s.route(k)])
  {
    assert Step(s, Rotate(s.route(k))) == Rotated(s, s.route(k));
  }

  lemma StepNotInserted(s: State, op: Op, k: Key)
    requires Shaped(s) && k !in s.buckets[s.route(k)].groups && !(op.Insert? && op.key == k)
    ensures k !in Step(s, op).buckets[s.route(k)].groups
  {
  }

  lemma {:induction false} NotInserted(s: State, ops: seq<Op>, k: Key)
    requires Shaped(s) && k !in s.buckets[s.route(k)].groups
    requires forall op | op in ops :: !(op.Insert? && op.key == k)
    ensures k !in Run(s, ops).buckets[s.route(k)].groups
  {
    if ops != [] {
      var n := |ops| - 1;
      NotInserted(s, ops[..n], k);
      assert ops[n] in ops;
      StepNotInserted(Run(s, ops[..n]), ops[n], k);
    }
  }
}
