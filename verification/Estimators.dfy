/** The estimator: series in, bucket by bucket, and snapshots out, batch by batch. */
module Estimators {
  import opened Base
  import opened Series
  import opened Snapshots
  import opened EstimatorModel
  import opened GroupKeys
  import opened EstimatorBuckets
  import Global = GlobalModel

  ghost function ContentsOf(buckets: seq<EstimatorBucket>): (r: seq<Bucket>)
    reads buckets
    ensures |r| == |buckets|
    ensures forall i | 0 <= i < |r| :: r[i] == buckets[i].Contents()
  {
    seq(|buckets|, i requires 0 <= i < |buckets| reads buckets => buckets[i].Contents())
  }

  ghost function CellsOf(buckets: seq<EstimatorBucket>): (r: seq<Global.Cell>)
    reads buckets
    ensures |r| == |buckets|
    ensures forall i | 0 <= i < |r| :: r[i] == buckets[i].AsCell()
  {
    seq(|buckets|, i requires 0 <= i < |buckets| reads buckets => buckets[i].AsCell())
  }

  /** The explicit names of a group-by list; the label keyword can only be its last element. */
  function GroupingOf(groupBy: seq<string>): Grouping {
    if groupBy != [] && groupBy[|groupBy| - 1] == LABEL_KEYWORD
    then Grouping(groupBy[..|groupBy| - 1], true)
    else Grouping(groupBy, false)
  }

  /** The hashes a global stream takes from a batch, in the order its series are visited. */
  function GlobalOps(tss: seq<TimeSerie>, matches: seq<Label> -> bool): seq<Global.CellOp> {
    FlatMap(HashesOf(matches), tss)
  }

  function HashesOf(matches: seq<Label> -> bool): TimeSerie -> seq<Global.CellOp> {
    (ts: TimeSerie) => if matches(ts.labels) then [Global.InsertHash(ts.fingerprint)] else []
  }

  /** Offers taken one after the other are a run. */
  lemma HashedMore(a: seq<Offer>, b: seq<Offer>, hash: string -> Uint64)
    ensures Hashed(a + b, hash) == Hashed(a, hash) + Hashed(b, hash)
  {
  }

  lemma {:induction false} RunMore(s: State, a: seq<Offer>, b: seq<Offer>, hash: string -> Uint64)
    requires Shaped(s)
    ensures Run(s, Hashed(a + b, hash)) == Run(Run(s, Hashed(a, hash)), Hashed(b, hash))
  {
    HashedMore(a, b, hash);
    RunAppend(s, Hashed(a, hash), Hashed(b, hash));
  }

  lemma RunOne(s: State, o: Offer, hash: string -> Uint64)
    requires Shaped(s)
    ensures Run(s, Hashed([o], hash)) == Step(s, Insert(hash(o.text), o.fp, o.values))
    ensures Run(s, Hashed([], hash)) == s
  {
    var ops := Hashed([o], hash);
    assert ops[..0] == [] && Hashed([], hash) == [];
  }

  lemma HashMore(cells: Global.Cells, ops: seq<Global.CellOp>, ts: TimeSerie, matches: seq<Label> -> bool)
    ensures var now := HashesOf(matches)(ts);
            Global.Run(cells, ops + now) == Global.Run(Global.Run(cells, ops), now)
  {
    var more := ops + [Global.InsertHash(ts.fingerprint)];
    assert more[..|more| - 1] == ops;
    assert ops + [] == ops;
    HashOne(Global.Run(cells, ops), ts.fingerprint);
  }

  lemma HashOne(cells: Global.Cells, fp: Uint64)
    ensures Global.Run(cells, [Global.InsertHash(fp)]) == Global.Step(cells, Global.InsertHash(fp))
  {
    assert [Global.InsertHash(fp)][..0] == [];
  }

  /** The value of the first label with the name, by scanning the labels. */
  method FindLabel(labels: seq<Label>, name: string) returns (r: Option<string>)
    ensures r == Find(labels, name)
  {
    var k := 0;
    while k < |labels|
      invariant 0 <= k <= |labels|
      invariant Find(labels, name) == Find(labels[k..], name)
    {
      if labels[k].name == name {
        return Some(labels[k].value);
      }
      assert labels[k..][1..] == labels[k + 1..];
      k := k + 1;
    }
    return None;
  }

  /** The series visited in step j of the loop over a batch. */
  method VisitAt(tss: seq<TimeSerie>, start: nat, j: nat) returns (ts: TimeSerie)
    requires j < |Visited(tss, start)|
    ensures ts == Visited(tss, start)[j]
  {
    var tssLen := |tss| % TWO_TO_THE_32;
    var i := (start + j) % TWO_TO_THE_32 % tssLen;
    ts := tss[i];
  }

  lemma KeyTextSnoc(labels: seq<Label>, names: seq<string>, i: nat)
    requires i < |names|
    ensures KeyText(labels, names[..i + 1])
            == match Find(labels, names[i]) {
                 case None => KeyText(labels, names[..i])
                 case Some(v) => KeyText(labels, names[..i]) + "\0" + v
               }
  {
    assert names[..i + 1][..i] == names[..i];
  }

  /** What the scan has after the first i names. */
  ghost predicate Scanned(labels: seq<Label>, names: seq<string>, i: nat, digest: string, groupValues: seq<string>,
                          hasNames: bool)
    requires i <= |names|
  {
    && |groupValues| == |names| && digest == KeyText(labels, names[..i])
    && groupValues[..i] == Values(labels, names)[..i] && (forall j | i <= j < |names| :: groupValues[j] == "")
    && hasNames == (names == [] || exists j | 0 <= j < i :: Find(labels, names[j]).Some?)
  }

  /** One more name: if the series carries it, its value goes into the digest and the group values. */
  method ScanName(labels: seq<Label>, names: seq<string>, i: nat, digest0: string, groupValues0: seq<string>,
                  hasNames0: bool)
    returns (digest: string, groupValues: seq<string>, hasNames: bool)
    requires i < |names| && Scanned(labels, names, i, digest0, groupValues0, hasNames0)
    ensures Scanned(labels, names, i + 1, digest, groupValues, hasNames)
  {
    digest, groupValues, hasNames := digest0, groupValues0, hasNames0;
    var found := FindLabel(labels, names[i]);
    KeyTextSnoc(labels, names, i);
    if found.Some? {
      hasNames := true;
      digest := digest + "\0" + found.value;
      groupValues := groupValues[i := found.value];
    }
    assert groupValues[..i + 1] == groupValues0[..i] + [groupValues[i]];
    assert Values(labels, names)[..i + 1] == Values(labels, names)[..i] + [Values(labels, names)[i]];
  }

  /** Writes the present values to the digest, and collects them by position. */
  method BuildKey(labels: seq<Label>, names: seq<string>)
    returns (digest: string, groupValues: seq<string>, hasNames: bool)
    ensures digest == KeyText(labels, names) && groupValues == Values(labels, names)
    ensures hasNames == Contributes(labels, names)
  {
    digest, groupValues, hasNames := "", seq(|names|, i => ""), |names| == 0;
    var i := 0;
    while i < |names|
      invariant 0 <= i <= |names| && Scanned(labels, names, i, digest, groupValues, hasNames)
    {
      digest, groupValues, hasNames := ScanName(labels, names, i, digest, groupValues, hasNames);
      i := i + 1;
    }
    assert names[..i] == names && groupValues[..i] == groupValues;
    assert Values(labels, names)[..i] == Values(labels, names);
  }

  /** What a usable state keeps over a run. */
  lemma {:induction false} SoundRuns(s: State, ops: seq<Op>)
    requires Exact(s) && Uniform(s) && s.counters.size <= s.counters.limit
    ensures Exact(Run(s, ops)) && Uniform(Run(s, ops)) && Run(s, ops).counters.size <= s.counters.limit
    ensures |ops| == 1 ==> Run(s, ops) == Step(s, ops[0])
  {
    RunsAreExact(s, ops);
    RunKeepsUniform(s, ops);
    if |ops| == 1 {
      assert ops[..0] == [];
    }
  }

  ghost predicate Wired(buckets: seq<EstimatorBucket>, groupBy: seq<string>, precision: nat, groupSize: GroupSize) {
    && (forall i, j | 0 <= i < j < |buckets| :: buckets[i] != buckets[j])
    && forall i | 0 <= i < |buckets| ::
         && buckets[i].idx == i && buckets[i].groupBy == groupBy && buckets[i].precision == precision
         && buckets[i].groupSize == groupSize
  }

  method NewBuckets(bucketsNum: nat, groupBy: seq<string>, precision: nat, groupSize: GroupSize)
    returns (bs: seq<EstimatorBucket>)
    ensures |bs| == bucketsNum && fresh(bs) && Wired(bs, groupBy, precision, groupSize)
    ensures ContentsOf(bs) == seq(bucketsNum, i => Bucket(map[], map[]))
    ensures CellsOf(bs) == seq(bucketsNum, i => Global.Cell({}, None))
  {
    bs := [];
    var i := 0;
    while i < bucketsNum
      invariant 0 <= i == |bs| <= bucketsNum && fresh(bs) && Wired(bs, groupBy, precision, groupSize)
      invariant forall k | 0 <= k < i ::
                  bs[k].Contents() == Bucket(map[], map[]) && bs[k].AsCell() == Global.Cell({}, None)
    {
      var b := new EstimatorBucket(i, groupBy, precision, groupSize);
      bs := bs + [b];
      i := i + 1;
    }
  }

  ghost function Resets(n: nat): seq<Op> {
    seq(n, (i: nat) => ResetBucket(i))
  }

  lemma {:induction false} ResetsClear(s: State, n: nat)
    requires Exact(s) && n <= |s.buckets|
    ensures var t := Run(s, Resets(n));
            && Exact(t) && t.precision == s.precision
            && forall i | 0 <= i < n :: t.buckets[i] == Bucket(map[], map[]) && t.counters.rejected[i] == {}
  {
    if n > 0 {
      ResetsClear(s, n - 1);
      assert Resets(n)[..n - 1] == Resets(n - 1);
      ResetKeepsExact(Run(s, Resets(n - 1)), n - 1);
    }
  }

  lemma {:induction false} OneMoreReset(s: State, n: nat)
    requires Shaped(s)
    ensures Run(s, Resets(n + 1)) == Step(Run(s, Resets(n)), ResetBucket(n))
  {
    assert Resets(n + 1)[..n] == Resets(n);
  }

  /** Exact counters and nothing tracked: resetting every bucket leads back to the start. */
  lemma {:induction false} ResetsEmpty(s: State)
    requires Exact(s) && s.route == RouteBy(|s.buckets|) && 0 <= s.counters.limit
    ensures Run(s, Resets(|s.buckets|)) == Empty(s.precision, s.counters.limit, |s.buckets|)
    ensures var t := Run(s, Resets(|s.buckets|)); Exact(t) && Uniform(t) && t.counters.size <= t.counters.limit
  {
    var n := |s.buckets|;
    ResetsClear(s, n);
    ExactIsEmpty(Run(s, Resets(n)));
    EmptyIsSound(s.precision, s.counters.limit, n);
  }

  lemma EmptyIsSound(precision: nat, limit: int, n: nat)
    requires 0 < n && 0 <= limit
    ensures var t := Empty(precision, limit, n); Exact(t) && Uniform(t) && t.counters.size <= t.counters.limit
  {
    EmptyIsExact(precision, limit, n);
  }

  lemma ExactIsEmpty(t: State)
    requires Exact(t) && t.route == RouteBy(|t.buckets|)
    requires forall i | 0 <= i < |t.buckets| :: t.buckets[i] == Bucket(map[], map[]) && t.counters.rejected[i] == {}
    ensures t == Empty(t.precision, t.counters.limit, |t.buckets|)
  {
    var n := |t.buckets|;
    var empty := Empty(t.precision, t.counters.limit, n);
    assert t.buckets == empty.buckets;
    assert TrackedSets(t) == TrackedSets(empty);
    EmptyIsExact(t.precision, t.counters.limit, n);
    assert t.counters.rejected == empty.counters.rejected;
    assert t.counters.bucketSizes == empty.counters.bucketSizes;
  }

  /** The cells before the first one without a previous sketch are emptied, the others stay. */
  ghost predicate IsReset(before: seq<Global.Cell>, after: seq<Global.Cell>) {
    && |before| == |after|
    && forall i | 0 <= i < |before| ::
         after[i] == if forall k | 0 <= k <= i :: before[k].prev.Some? then Global.Cell({}, Some({})) else before[i]
  }

  /** The first n cells had a previous sketch and are emptied. */
  ghost predicate ResetUpTo(before: seq<Global.Cell>, after: seq<Global.Cell>, n: nat) {
    && |after| == |before| >= n
    && (forall i | 0 <= i < n :: before[i].prev.Some? && after[i] == Global.Cell({}, Some({})))
    && (forall i | n <= i < |before| :: after[i] == before[i])
  }

  /** The next cell either stops the reset or is emptied as well. */
  lemma ResetStops(before: seq<Global.Cell>, after: seq<Global.Cell>, n: nat)
    requires ResetUpTo(before, after, n) && n < |before|
    ensures var next := Global.Step(after, Global.ResetCell(n));
            && (before[n].prev.Some? ==> ResetUpTo(before, next, n + 1))
            && (before[n].prev.None? ==> IsReset(before, next) && !Global.Resettable(before))
    ensures after[n] == before[n]
  {
  }

  lemma ResetThrough(before: seq<Global.Cell>, after: seq<Global.Cell>)
    requires ResetUpTo(before, after, |before|)
    ensures IsReset(before, after) && Global.Resettable(before)
  {
  }

  class Estimator {
    const groupBy: seq<string>
    const matches: seq<Label> -> bool
    const hash: string -> Uint64
    const precision: nat
    const calculateChurn: bool
    const minCardinality: int
    const groupSize: GroupSize
    const buckets: seq<EstimatorBucket>

    /** How the objects hang together; it never changes. */
    ghost predicate Structure() {
      && |buckets| > 0 && groupSize.limit >= 0
      && groupSize.SameLength() && groupSize.bucketSizes.Length == |buckets|
      && Wired(buckets, groupBy, precision, groupSize)
    }

    ghost function View(): State
      requires Structure()
      reads this, buckets, groupSize, groupSize.bucketSizes, groupSize.rejectSketches
    {
      State(precision, RouteBy(|buckets|), groupSize.View(), ContentsOf(buckets))
    }

    ghost predicate Valid()
      reads this, buckets, groupSize, groupSize.bucketSizes, groupSize.rejectSketches
    {
      Structure() && Exact(View()) && Uniform(View()) && View().counters.size <= groupSize.limit
    }

    constructor (groupBy: seq<string>, matches: seq<Label> -> bool, hash: string -> Uint64, precision: nat,
                 calculateChurn: bool, minCardinality: int, limit: nat, bucketsNum: nat)
      requires bucketsNum > 0
      ensures Valid() && fresh(buckets) && fresh(groupSize)
      ensures fresh(groupSize.bucketSizes) && fresh(groupSize.rejectSketches)
      ensures View() == Empty(precision, limit, bucketsNum)
      ensures CellsOf(buckets) == Global.Fresh(bucketsNum)
      ensures this.groupBy == groupBy && this.matches == matches && this.hash == hash
      ensures this.calculateChurn == calculateChurn && this.minCardinality == minCardinality
    {
      this.groupBy, this.matches, this.hash, this.precision := groupBy, matches, hash, precision;
      this.calculateChurn, this.minCardinality := calculateChurn, minCardinality;
      var gs := new GroupSize(limit, bucketsNum);
      var bs := NewBuckets(bucketsNum, groupBy, precision, gs);
      groupSize, buckets := gs, bs;
      new;
      assert View() == Empty(precision, limit, bucketsNum);
      EmptyIsExact(precision, limit, bucketsNum);
    }

    /** Inserts into the bucket the key hashes to. */
    method InsertGroup(fp: Uint64, key: Key, groupValues: seq<string>)
      requires Structure() && groupBy != []
      modifies buckets, groupSize, groupSize.bucketSizes, groupSize.rejectSketches
      ensures View() == Step(old(View()), Insert(key, fp, groupValues))
    {
      var bi := key % |buckets|;
      ghost var before := ContentsOf(buckets);
      buckets[bi].Insert(fp, key, groupValues);
      assert ContentsOf(buckets) == before[bi := buckets[bi].Contents()];
    }

    /** Labels parsed before fingerprints were enabled have none and are skipped. */
    method InsertLabel(l: Label, digest: string, groupValues: seq<string>) returns (cnt: nat)
      requires Structure() && groupBy != []
      modifies buckets, groupSize, groupSize.bucketSizes, groupSize.rejectSketches
      ensures var offers := LabelOffer(digest, groupValues)(l);
              View() == Run(old(View()), Hashed(offers, hash)) && cnt == |offers|
    {
      RunOne(View(), Offer(digest + l.name, l.fingerprint, groupValues + [l.name]), hash);
      if l.fingerprint == 0 {
        return 0;
      }
      InsertGroup(l.fingerprint, hash(digest + l.name), groupValues + [l.name]);
      cnt := 1;
    }

    /** One insert per fingerprinted label of the series. */
    method InsertLabels(labels: seq<Label>, digest: string, groupValues: seq<string>) returns (cnt: nat)
      requires Structure() && groupBy != []
      modifies buckets, groupSize, groupSize.bucketSizes, groupSize.rejectSketches
      ensures var offers := FlatMap(LabelOffer(digest, groupValues), labels);
              View() == Run(old(View()), Hashed(offers, hash)) && cnt == |offers|
    {
      cnt := 0;
      ghost var before, f := View(), LabelOffer(digest, groupValues);
      ghost var offers: seq<Offer> := [];
      RunOne(before, Offer(digest, 0, groupValues), hash);
      var i := 0;
      while i < |labels|
        invariant 0 <= i <= |labels| && offers == FlatMap(f, labels[..i])
        invariant View() == Run(before, Hashed(offers, hash)) && cnt == |offers|
      {
        var n := InsertLabel(labels[i], digest, groupValues);
        RunMore(before, offers, f(labels[i]), hash);
        FlatMapTake(f, labels, i);
        offers := offers + f(labels[i]);
        cnt := cnt + n;
        i := i + 1;
      }
      assert labels[..i] == labels;
    }

    /** Filters one series, builds its key, and inserts it or its labels. */
    method InsertSeries(ts: TimeSerie) returns (cnt: nat)
      requires Structure() && groupBy != []
      modifies buckets, groupSize, groupSize.bucketSizes, groupSize.rejectSketches
      ensures View() == Run(old(View()), Hashed(Offers(ts, GroupingOf(groupBy), matches), hash))
      ensures cnt == |Offers(ts, GroupingOf(groupBy), matches)|
    {
      cnt := 0;
      var g := GroupingOf(groupBy);
      RunOne(View(), Offer(KeyText(ts.labels, g.explicit), ts.fingerprint, Values(ts.labels, g.explicit)), hash);
      if !matches(ts.labels) {
        return;
      }
      var digest, groupValues, hasNames := BuildKey(ts.labels, g.explicit);
      if !hasNames {
        return;
      }
      if !g.perLabel {
        InsertGroup(ts.fingerprint, hash(digest), groupValues);
        return 1;
      }
      if |g.explicit| > 0 {
        digest := digest + "\0";
      }
      cnt := InsertLabels(ts.labels, digest, groupValues);
    }

    /** A batch into a grouped stream: from a start offset on, wrapping around. */
    method InsertManyGroups(tss: seq<TimeSerie>, start: nat) returns (cnt: nat)
      requires Structure() && groupBy != []
      modifies buckets, groupSize, groupSize.bucketSizes, groupSize.rejectSketches
      ensures var offers := BatchOffers(Visited(tss, start), GroupingOf(groupBy), matches);
              View() == Run(old(View()), Hashed(offers, hash)) && cnt == |offers|
    {
      cnt := 0;
      ghost var before, visited, f := View(), Visited(tss, start), OffersOf(GroupingOf(groupBy), matches);
      ghost var offers: seq<Offer> := [];
      RunOne(before, Offer("", 0, []), hash);
      var tssLen := |tss| % TWO_TO_THE_32;
      var j := 0;
      while j < tssLen
        invariant 0 <= j <= tssLen == |visited| && offers == FlatMap(f, visited[..j])
        invariant View() == Run(before, Hashed(offers, hash)) && cnt == |offers|
      {
        var ts := VisitAt(tss, start, j);
        var n := InsertSeries(ts);
        RunMore(before, offers, f(ts), hash);
        FlatMapTake(f, visited, j);
        offers := offers + f(ts);
        cnt := cnt + n;
        j := j + 1;
      }
      assert visited[..j] == visited;
    }

    /** A batch into a global stream. */
    method InsertManyGlobal(tss: seq<TimeSerie>, start: nat) returns (cnt: nat)
      requires Structure() && groupBy == []
      modifies buckets, groupSize, groupSize.bucketSizes, groupSize.rejectSketches
      ensures View() == old(View())
      ensures var ops := GlobalOps(Visited(tss, start), matches);
              CellsOf(buckets) == Global.Run(old(CellsOf(buckets)), ops) && cnt == |ops|
    {
      cnt := 0;
      ghost var cells, view, visited, f := CellsOf(buckets), View(), Visited(tss, start), HashesOf(matches);
      ghost var ops: seq<Global.CellOp> := [];
      var tssLen := |tss| % TWO_TO_THE_32;
      var j := 0;
      while j < tssLen
        invariant 0 <= j <= tssLen == |visited| && View() == view && ops == FlatMap(f, visited[..j])
        invariant CellsOf(buckets) == Global.Run(cells, ops) && cnt == |ops|
      {
        var ts := VisitAt(tss, start, j);
        var n := InsertFingerprint(ts);
        HashMore(cells, ops, ts, matches);
        FlatMapTake(f, visited, j);
        ops := ops + f(ts);
        cnt := cnt + n;
        j := j + 1;
      }
      assert visited[..j] == visited;
    }

    /** Filters one series and inserts its fingerprint. */
    method InsertFingerprint(ts: TimeSerie) returns (cnt: nat)
      requires Structure() && groupBy == []
      modifies buckets, groupSize, groupSize.bucketSizes, groupSize.rejectSketches
      ensures View() == old(View()) && cnt == |HashesOf(matches)(ts)|
      ensures CellsOf(buckets) == Global.Run(old(CellsOf(buckets)), HashesOf(matches)(ts))
    {
      ghost var now, contents := CellsOf(buckets), ContentsOf(buckets);
      if !matches(ts.labels) {
        return 0;
      }
      var bi := ts.fingerprint % |buckets|;
      buckets[bi].Insert(ts.fingerprint, 0, []);
      assert CellsOf(buckets) == now[bi := buckets[bi].AsCell()];
      assert ContentsOf(buckets) == contents;
      HashOne(now, ts.fingerprint);
      cnt := 1;
    }

    /** A batch into the estimator, from any start offset. It counts what passed the filter. */
    method InsertMany(tss: seq<TimeSerie>, start: nat) returns (cnt: nat)
      requires Valid()
      modifies buckets, groupSize, groupSize.bucketSizes, groupSize.rejectSketches
      ensures Valid()
      ensures var offers :=
                if groupBy == [] then [] else BatchOffers(Visited(tss, start), GroupingOf(groupBy), matches);
              View() == Run(old(View()), Hashed(offers, hash)) && (groupBy != [] ==> cnt == |offers|)
      ensures groupBy == [] ==>
                var ops := GlobalOps(Visited(tss, start), matches);
                CellsOf(buckets) == Global.Run(old(CellsOf(buckets)), ops) && cnt == |ops|
    {
      ghost var before := View();
      if |groupBy| == 0 {
        cnt := InsertManyGlobal(tss, start);
      } else {
        cnt := InsertManyGroups(tss, start);
        SoundRuns(before, Hashed(BatchOffers(Visited(tss, start), GroupingOf(groupBy), matches), hash));
      }
    }

    method RotateOne(i: nat)
      requires Structure() && i < |buckets|
      modifies buckets, groupSize, groupSize.bucketSizes, groupSize.rejectSketches
      ensures groupBy != [] ==> View() == Rotated(old(View()), i) && CellsOf(buckets) == old(CellsOf(buckets))
      ensures groupBy == [] ==>
                && CellsOf(buckets) == Global.Step(old(CellsOf(buckets)), Global.RotateCell(i))
                && View() == old(View())
    {
      ghost var contents, cells := ContentsOf(buckets), CellsOf(buckets);
      buckets[i].Rotate();
      assert ContentsOf(buckets) == contents[i := buckets[i].Contents()];
      assert CellsOf(buckets) == cells[i := buckets[i].AsCell()];
      assert groupBy == [] ==> ContentsOf(buckets) == contents;
      assert groupBy != [] ==> CellsOf(buckets) == cells;
    }

    /** One tick of the rotation loop for one bucket. */
    method RotateBucket(i: nat)
      requires Valid() && i < |buckets|
      modifies buckets, groupSize, groupSize.bucketSizes, groupSize.rejectSketches
      ensures Valid()
      ensures groupBy != [] ==> View() == Rotated(old(View()), i) && CellsOf(buckets) == old(CellsOf(buckets))
      ensures groupBy == [] ==>
                && CellsOf(buckets) == Global.Step(old(CellsOf(buckets)), Global.RotateCell(i))
                && View() == old(View())
    {
      SoundRuns(View(), [Rotate(i)]);
      RotateOne(i);
    }

    method ResetGroup(i: nat)
      requires Structure() && groupBy != [] && i < |buckets|
      modifies buckets, groupSize, groupSize.bucketSizes, groupSize.rejectSketches
      ensures View() == Step(old(View()), ResetBucket(i)) && CellsOf(buckets) == old(CellsOf(buckets))
    {
      ghost var contents, cells := ContentsOf(buckets), CellsOf(buckets);
      var ok := buckets[i].Reset();
      assert ContentsOf(buckets) == contents[i := buckets[i].Contents()];
      assert CellsOf(buckets) == cells;
    }

    method ResetGroups()
      requires Structure() && groupBy != []
      modifies buckets, groupSize, groupSize.bucketSizes, groupSize.rejectSketches
      ensures View() == Run(old(View()), Resets(|buckets|)) && CellsOf(buckets) == old(CellsOf(buckets))
    {
      ghost var before, cells := View(), CellsOf(buckets);
      var i := 0;
      while i < |buckets|
        invariant 0 <= i <= |buckets|
        invariant View() == Run(before, Resets(i)) && CellsOf(buckets) == cells
      {
        ResetGroup(i);
        OneMoreReset(before, i);
        i := i + 1;
      }
    }

    method ResetOne(i: nat) returns (ok: bool)
      requires Structure() && groupBy == [] && i < |buckets|
      modifies buckets, groupSize, groupSize.bucketSizes, groupSize.rejectSketches
      ensures View() == old(View()) && CellsOf(buckets) == Global.Step(old(CellsOf(buckets)), Global.ResetCell(i))
      ensures ok <==> old(CellsOf(buckets))[i].prev.Some?
    {
      ghost var contents, cells := ContentsOf(buckets), CellsOf(buckets);
      ok := buckets[i].Reset();
      assert ContentsOf(buckets) == contents;
      assert CellsOf(buckets) == cells[i := buckets[i].AsCell()];
    }

    method ResetGlobal() returns (ok: bool)
      requires Structure() && groupBy == []
      modifies buckets, groupSize, groupSize.bucketSizes, groupSize.rejectSketches
      ensures View() == old(View()) && IsReset(old(CellsOf(buckets)), CellsOf(buckets))
      ensures ok <==> Global.Resettable(old(CellsOf(buckets)))
    {
      ghost var before, cells := View(), CellsOf(buckets);
      var i := 0;
      while i < |buckets|
        invariant 0 <= i <= |buckets| && View() == before && ResetUpTo(cells, CellsOf(buckets), i)
      {
        ResetStops(cells, CellsOf(buckets), i);
        ok := ResetOne(i);
        if !ok {
          return;
        }
        i := i + 1;
      }
      ResetThrough(cells, CellsOf(buckets));
      ok := true;
    }

    /** Drops everything: a grouped estimator is as good as new. A global one only gets there if
        every bucket has rotated before; otherwise it stops at the first that has not. */
    method Reset() returns (ok: bool)
      requires Valid()
      modifies buckets, groupSize, groupSize.bucketSizes, groupSize.rejectSketches
      ensures Valid()
      ensures groupBy != [] ==>
                && ok && View() == Empty(precision, groupSize.limit, |buckets|)
                && CellsOf(buckets) == old(CellsOf(buckets))
      ensures groupBy == [] ==>
                && View() == old(View()) && IsReset(old(CellsOf(buckets)), CellsOf(buckets))
                && (ok <==> Global.Resettable(old(CellsOf(buckets))))
    {
      if groupBy == [] {
        ok := ResetGlobal();
      } else {
        ghost var before := View();
        ResetsEmpty(before);
        ResetGroups();
        ok := true;
      }
    }
  }
}
