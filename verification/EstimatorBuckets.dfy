/** The shared group counter and one shard of an estimator, as they are updated in place under
    their locks. Sketches are values here: the sets of hashes they were given. */
module EstimatorBuckets {
  import opened Base
  import opened Snapshots
  import opened EstimatorModel
  import opened GlobalModel

  function KeysIn(sketch: Option<set<Key>>): set<Key> {
    if sketch.Some? then sketch.value else {}
  }

  ghost function AllHeld(sketches: seq<Option<set<Key>>>): (r: seq<set<Key>>)
    ensures |r| == |sketches|
    ensures forall i | 0 <= i < |sketches| :: r[i] == KeysIn(sketches[i])
  {
    seq(|sketches|, i requires 0 <= i < |sketches| => KeysIn(sketches[i]))
  }

  class GroupSize {
    const limit: int
    var size: int
    const bucketSizes: array<int>
    const rejectSketches: array<Option<set<Key>>>

    ghost predicate SameLength() { bucketSizes.Length == rejectSketches.Length }

    ghost function View(): Counters
      reads this, bucketSizes, rejectSketches
    {
      Counters(limit, size, bucketSizes[..], AllHeld(rejectSketches[..]))
    }

    constructor (limit: int, buckets: nat)
      ensures SameLength() && bucketSizes.Length == buckets
      ensures fresh(bucketSizes) && fresh(rejectSketches)
      ensures View() == Counters(limit, 0, seq(buckets, i => 0), seq(buckets, i => {}))
    {
      this.limit, size := limit, 0;
      bucketSizes := new int[buckets](i => 0);
      rejectSketches := new Option<set<Key>>[buckets](i => None);
      new;
      assert bucketSizes[..] == seq(buckets, i => 0);
      assert AllHeld(rejectSketches[..]) == seq(buckets, i => {});
    }

    /** Counts a new group of the bucket, or remembers its key as rejected. */
    method AllowInsertLocked(bucketIdx: nat, groupValuesKey: Key) returns (ok: bool)
      requires SameLength() && bucketIdx < bucketSizes.Length
      modifies this, bucketSizes, rejectSketches
      ensures (View(), ok) == Allowed(old(View()), bucketIdx, groupValuesKey)
    {
      ghost var before := View();
      if size >= limit {
        var sk := rejectSketches[bucketIdx];
        rejectSketches[bucketIdx] := Some(KeysIn(sk) + {groupValuesKey});
        assert View().rejected == before.rejected[bucketIdx := before.rejected[bucketIdx] + {groupValuesKey}];
        return false;
      }
      bucketSizes[bucketIdx] := bucketSizes[bucketIdx] + 1;
      size := size + 1;
      return true;
    }

    /** Takes from the counters what the bucket no longer tracks, and drops its reject sketch. */
    method RotateLocked(bucketIdx: nat, kept: int)
      requires SameLength() && bucketIdx < bucketSizes.Length
      modifies this, bucketSizes, rejectSketches
      ensures View() == Lowered(old(View()), bucketIdx, kept)
    {
      ghost var before := View();
      var diff := bucketSizes[bucketIdx] - kept;
      if diff > 0 {
        bucketSizes[bucketIdx] := bucketSizes[bucketIdx] - diff;
        size := size - diff;
      }
      rejectSketches[bucketIdx] := None;
      assert View().rejected == before.rejected[bucketIdx := {}];
    }

    /** The rejected keys over all buckets, when reject sketches estimate exactly. */
    method TotalRejected() returns (rejectSize: int)
      requires SameLength()
      ensures rejectSize == Sum(Size, View().rejected)
    {
      rejectSize := 0;
      ghost var rejected := View().rejected;
      var i := 0;
      while i < rejectSketches.Length
        invariant 0 <= i <= |rejected| && rejected == View().rejected
        invariant rejectSize == Sum(Size, rejected[..i])
      {
        assert rejected[..i + 1][..i] == rejected[..i];
        SumSnoc(Size, rejected[..i + 1]);
        if rejectSketches[i].Some? {
          rejectSize := rejectSize + |rejectSketches[i].value|;
        }
        i := i + 1;
      }
      assert rejected[..i] == rejected;
    }

    /** The reported group size: rejected keys are added from the threshold on. */
    method TotalReported(threshold: int) returns (total: int)
      requires SameLength()
      ensures total == TotalSize(View(), threshold)
    {
      total := size;
      if total >= threshold {
        var rejectSize := TotalRejected();
        total := total + rejectSize;
      }
    }
  }

  class EstimatorBucket {
    const idx: nat
    const groupBy: seq<string>
    const precision: nat
    const groupSize: GroupSize

    var sketch: set<Uint64>
    var prevSketch: Option<set<Uint64>>
    var groups: map<Key, Entry>
    var prevGroups: map<Key, Entry>

    ghost function Contents(): Bucket
      reads this
    {
      Bucket(groups, prevGroups)
    }

    ghost function AsCell(): Cell
      reads this
    {
      Cell(sketch, prevSketch)
    }

    ghost predicate Fits() { groupSize.SameLength() && idx < groupSize.bucketSizes.Length }

    constructor (idx: nat, groupBy: seq<string>, precision: nat, groupSize: GroupSize)
      ensures this.idx == idx && this.groupBy == groupBy && this.precision == precision && this.groupSize == groupSize
      ensures Contents() == Bucket(map[], map[]) && AsCell() == Cell({}, None)
    {
      this.idx, this.groupBy, this.precision, this.groupSize := idx, groupBy, precision, groupSize;
      sketch, prevSketch := {}, None;
      groups, prevGroups := map[], map[];
    }

    /** Global mode: the sketch takes the hash. Group mode: a tracked group takes it in the current
        epoch, a new one only if the shared counter admits it. */
    method Insert(fp: Uint64, groupValuesKey: Key, groupValues: seq<string>)
      requires Fits()
      modifies this, groupSize, groupSize.bucketSizes, groupSize.rejectSketches
      ensures |groupBy| == 0 ==>
                && AsCell() == old(AsCell()).(sketch := old(sketch) + {fp})
                && Contents() == old(Contents()) && groupSize.View() == old(groupSize.View())
      ensures |groupBy| > 0 ==>
                && (groupSize.View(), Contents())
                   == InsertedIn(old(groupSize.View()), old(Contents()), idx, precision, groupValuesKey, fp,
                                 groupValues)
                && AsCell() == old(AsCell())
    {
      if |groupBy| == 0 {
        sketch := sketch + {fp};
        return;
      }
      if groupValuesKey !in groups {
        var values := groupValues;
        if groupValuesKey in prevGroups {
          values := prevGroups[groupValuesKey].values;
        } else {
          var ok := groupSize.AllowInsertLocked(idx, groupValuesKey);
          if !ok {
            return;
          }
        }
        groups := groups[groupValuesKey := Entry(values, SketchValue(precision, {}))];
      }
      groups := groups[groupValuesKey := Added(groups[groupValuesKey], fp)];
      assert groups == old(groups)[groupValuesKey := groups[groupValuesKey]];
    }

    /** The current epoch becomes the previous one. */
    method Rotate()
      requires Fits()
      modifies this, groupSize, groupSize.bucketSizes, groupSize.rejectSketches
      ensures |groupBy| == 0 ==>
                && AsCell() == Cell({}, Some(old(sketch)))
                && Contents() == old(Contents()) && groupSize.View() == old(groupSize.View())
      ensures |groupBy| > 0 ==>
                && Contents() == Bucket(map[], old(groups)) && AsCell() == old(AsCell())
                && groupSize.View() == Lowered(old(groupSize.View()), idx, |old(groups)|)
    {
      if |groupBy| == 0 {
        prevSketch := Some(sketch);
        sketch := {};
        return;
      }
      prevGroups := groups;
      groups := map[];
      groupSize.RotateLocked(idx, |prevGroups|);
    }

    /** Drops both epochs. Global mode needs a previous sketch, which exists from the first rotation
        on; without one the program dereferences nil, which is ok == false here. */
    method Reset() returns (ok: bool)
      requires Fits()
      modifies this, groupSize, groupSize.bucketSizes, groupSize.rejectSketches
      ensures ok <==> |groupBy| > 0 || old(prevSketch).Some?
      ensures |groupBy| == 0 ==>
                && AsCell() == (if ok then Cell({}, Some({})) else old(AsCell()))
                && Contents() == old(Contents()) && groupSize.View() == old(groupSize.View())
      ensures |groupBy| > 0 ==>
                && Contents() == Bucket(map[], map[]) && AsCell() == old(AsCell())
                && groupSize.View() == Lowered(old(groupSize.View()), idx, 0)
    {
      if |groupBy| == 0 {
        if prevSketch.None? {
          return false;
        }
        prevSketch := Some({});
        sketch := {};
        return true;
      }
      groups := map[];
      prevGroups := map[];
      groupSize.RotateLocked(idx, 0);
      return true;
    }
  }
}
