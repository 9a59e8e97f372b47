/** How long a series stays visible: an estimator and the deduplicator in front of it, over time.

    The loops serve successive boundaries, each of them anywhere between the boundary itself and a
    bounded time later; in between, rotations and deliveries happen in any order. Deliveries are
    decided one at a time. */
module Retention {
  import opened Base
  import RotationLoops

  /** The two epochs of one bucket. */
  datatype Bucket = Bucket(cur: set<Uint64>, prev: set<Uint64>)

  /** period: between two ticks of the estimator; clearing: between two clears of the deduplicator;
      late: how long after its boundary a rotation may come; strict: whether the estimator's loop always
      reads the clock after the boundary it has served; live: series that keep arriving at least every
      delta and are never a false positive. */
  datatype Setup = Setup(period: nat, clearing: nat, late: nat, strict: bool, live: set<Uint64>, delta: nat)

  /** Loops that are never late by a full period serve every boundary. */
  ghost predicate Timely(s: Setup) { s.late < s.period && s.late < s.clearing }

  /** arrived and passed: when each series last arrived, and last passed the deduplicator; wiped: those
      whose bucket was reset since they last passed. */
  datatype World = World(
    now: nat,
    nextTick: nat, bucketIdx: nat, buckets: seq<Bucket>,
    nextClear: nat, slotIdx: nat, filters: seq<set<Uint64>>,
    arrived: map<Uint64, nat>, passed: map<Uint64, nat>, wiped: set<Uint64>)

  ghost predicate Init(s: Setup, w: World) {
    && Timely(s)
    && w.buckets != [] && (forall b | b in w.buckets :: b == Bucket({}, {}))
    && w.bucketIdx == 0 && w.now <= w.nextTick < w.now + s.period
    && |w.filters| == SLOTS && (forall f | f in w.filters :: f == {})
    && w.slotIdx < SLOTS && w.now < w.nextClear <= w.now + s.clearing
    && w.arrived == map[] && w.passed == map[] && w.wiped == {}
  }

  /** Time passes, but no rotation is overdue for longer than late, and no live series for arrival. */
  ghost predicate Wait(s: Setup, v: World, w: World) {
    && v.now <= w.now <= v.nextTick + s.late && w.now <= v.nextClear + s.late
    && (forall h | h in s.live && h in v.arrived :: w.now <= v.arrived[h] + s.delta)
    && w == v.(now := w.now)
  }

  /** The estimator's loop rotates the bucket whose turn it is. If it then reads the clock while that
      still shows the boundary, the next bucket is due at the same boundary. */
  ghost predicate Tick(s: Setup, v: World, w: World) {
    && v.nextTick <= v.now && v.bucketIdx < |v.buckets|
    && w == v.(buckets := v.buckets[v.bucketIdx := Bucket({}, v.buckets[v.bucketIdx].cur)],
               bucketIdx := (v.bucketIdx + 1) % |v.buckets|,
               nextTick := w.nextTick)
    && (w.nextTick == v.nextTick + s.period || (!s.strict && w.nextTick == v.nextTick == v.now))
  }

  /** The deduplicator's loop clears the filter whose turn it is. */
  ghost predicate Clear(s: Setup, v: World, w: World) {
    && v.nextClear <= v.now && v.slotIdx < |v.filters|
    && w == v.(filters := v.filters[v.slotIdx := {}],
               slotIdx := (v.slotIdx + 1) % SLOTS,
               nextClear := v.nextClear + s.clearing)
  }

  /** A reload resets the deduplicator. */
  ghost predicate ResetFilters(v: World, w: World) {
    w == v.(filters := seq(SLOTS, i => {}))
  }

  /** A reset of the estimator drops both epochs of its buckets, one after the other; it leaves the
      deduplicator alone. */
  ghost predicate ResetBucket(v: World, w: World, i: nat) {
    && i < |v.buckets|
    && w == v.(buckets := v.buckets[i := Bucket({}, {})],
               wiped := v.wiped + set h | h in v.passed && h % |v.buckets| == i)
  }

  /** The filter reports the series as seen. */
  ghost predicate Suppressed(s: Setup, v: World, h: Uint64, falsePositive: bool)
    requires |v.filters| == SLOTS
  {
    h in v.filters[h % SLOTS] || (falsePositive && h !in s.live)
  }

  /** A series arrives; unless suppressed it is inserted, and recorded if its filter has room. */
  ghost predicate Deliver(s: Setup, v: World, w: World, h: Uint64, falsePositive: bool, room: bool) {
    && |v.filters| == SLOTS && v.buckets != []
    && if Suppressed(s, v, h, falsePositive)
       then w == v.(arrived := v.arrived[h := v.now])
       else
         var b := h % |v.buckets|;
         var bucket := v.buckets[b];
         w == v.(arrived := v.arrived[h := v.now], passed := v.passed[h := v.now], wiped := v.wiped - {h},
                 buckets := v.buckets[b := bucket.(cur := bucket.cur + {h})],
                 filters := if room then v.filters[h % SLOTS := v.filters[h % SLOTS] + {h}] else v.filters)
  }

  ghost predicate Next(s: Setup, v: World, w: World) {
    || Wait(s, v, w) || Tick(s, v, w) || Clear(s, v, w) || ResetFilters(v, w)
    || (exists i :: ResetBucket(v, w, i))
    || exists h, falsePositive, room :: Deliver(s, v, w, h, falsePositive, room)
  }

  ghost predicate IsRun(s: Setup, run: seq<World>) {
    && run != [] && Init(s, run[0])
    && forall i | 0 <= i < |run| - 1 :: Next(s, run[i], run[i + 1])
  }

  ghost predicate Visible(w: World, h: Uint64)
    requires w.buckets != []
  {
    h in w.buckets[h % |w.buckets|].cur + w.buckets[h % |w.buckets|].prev
  }

  /* When the next rotation of a given bucket or slot is due */

  /** How many turns of a ring of n are left before turn i comes up, the present one being at. */
  ghost function Ahead(at: nat, i: nat, n: nat): (r: nat)
    requires at < n && i < n
    ensures r < n
  {
    if at <= i then i - at else i - at + n
  }

  ghost function Due(next: nat, at: nat, i: nat, n: nat, step: nat): int
    requires at < n && i < n
  {
    next + Ahead(at, i, n) * step
  }

  lemma TurnSuccessor(at: nat, n: nat)
    requires at < n
    ensures (at + 1) % n == if at + 1 == n then 0 else at + 1
  {
  }

  lemma AheadAdvances(at: nat, i: nat, n: nat)
    requires at < n && i < n
    ensures (at + 1) % n < n
    ensures Ahead((at + 1) % n, i, n) == if i == at then n - 1 else Ahead(at, i, n) - 1
  {
    TurnSuccessor(at, n);
  }

  /** Serving a turn leaves every other due time alone and puts its own off by a full round. */
  lemma DueAdvances(next: nat, at: nat, i: nat, n: nat, step: nat)
    requires at < n && i < n
    ensures (at + 1) % n < n
    ensures Due(next + step, (at + 1) % n, i, n, step) == Due(next, at, i, n, step) + if i == at then n * step else 0
  {
    AheadAdvances(at, i, n);
    var a := Ahead(at, i, n);
    assert i == at ==> (n - 1) * step + step == n * step && a * step == 0;
    assert i != at ==> (a - 1) * step + step == a * step;
  }

  lemma DueBounds(next: nat, at: nat, i: nat, n: nat, step: nat)
    requires at < n && i < n
    ensures next <= Due(next, at, i, n, step) <= next + n * step - step
    ensures i == at ==> Due(next, at, i, n, step) == next
  {
    var a := Ahead(at, i, n);
    Distribute(a, n - 1 - a, step);
    Distribute(n - 1, 1, step);
    assert (n - 1 - a) * step >= 0;
  }

  /* The invariant */

  /** The time between two rotations of one bucket, and between two clears of one filter. */
  ghost function Round(s: Setup, w: World): nat { |w.buckets| * s.period }

  ghost function Suppression(s: Setup): nat { SLOTS * s.clearing }

  ghost function BucketDue(s: Setup, w: World, h: Uint64): int
    requires w.bucketIdx < |w.buckets|
  {
    Due(w.nextTick, w.bucketIdx, h % |w.buckets|, |w.buckets|, s.period)
  }

  ghost function ClearDue(s: Setup, w: World, h: Uint64): int
    requires w.slotIdx < SLOTS
  {
    Due(w.nextClear, w.slotIdx, h % SLOTS, SLOTS, s.clearing)
  }

  ghost predicate Clocked(s: Setup, w: World) {
    && Timely(s) && |w.filters| == SLOTS
    && w.bucketIdx < |w.buckets| && w.slotIdx < SLOTS
    && w.now <= w.nextTick + s.late && w.nextTick <= w.now + s.period
    && w.now <= w.nextClear + s.late && w.nextClear <= w.now + s.clearing
  }

  /** A bucket holds exactly what passed since its last two rotations, as far as times tell. */
  ghost predicate EpochsOk(s: Setup, w: World, h: Uint64)
    requires Clocked(s, w)
  {
    var b := w.buckets[h % |w.buckets|];
    var due, round := BucketDue(s, w, h), Round(s, w);
    && w.now - s.late <= due <= w.now + round
    && (h in w.passed ==>
          && w.passed[h] <= w.now
          && (s.strict && h !in w.wiped && w.passed[h] > due - round + s.late ==> h in b.cur)
          && (s.strict && h !in w.wiped && w.passed[h] > due - 2 * round + s.late ==> h in b.cur || h in b.prev))
    && (h in b.cur ==> h in w.passed && h !in w.wiped && w.passed[h] >= due - round)
    && (h in b.prev ==> h in w.passed && h !in w.wiped && w.passed[h] >= due - 2 * round)
  }

  /** A recorded fingerprint passed less than a full round of clears ago. */
  ghost predicate FilterOk(s: Setup, w: World, h: Uint64)
    requires Clocked(s, w)
  {
    var due := ClearDue(s, w, h);
    && w.now - s.late <= due <= w.now + Suppression(s)
    && (h in w.filters[h % SLOTS] ==> h in w.passed && due <= w.passed[h] + Suppression(s))
  }

  /** A live series passed recently enough, counting from its last arrival. */
  ghost predicate LiveOk(s: Setup, w: World, h: Uint64)
    requires Clocked(s, w)
  {
    h in s.live ==>
      && (h in w.arrived <==> h in w.passed)
      && (h in w.arrived ==>
            && w.arrived[h] <= w.now <= w.arrived[h] + s.delta
            && (h in w.filters[h % SLOTS] || w.arrived[h] <= w.passed[h] + Suppression(s) + s.late))
  }

  ghost predicate Inv(s: Setup, w: World) {
    Clocked(s, w) && forall h: Uint64 :: EpochsOk(s, w, h) && FilterOk(s, w, h) && LiveOk(s, w, h)
  }

  lemma InitInv(s: Setup, w: World)
    requires Init(s, w)
    ensures Inv(s, w)
  {
    assert Clocked(s, w);
    forall h: Uint64 ensures EpochsOk(s, w, h) && FilterOk(s, w, h) && LiveOk(s, w, h) {
      assert w.buckets[h % |w.buckets|] in w.buckets && w.filters[h % SLOTS] in w.filters;
      DueBounds(w.nextTick, w.bucketIdx, h % |w.buckets|, |w.buckets|, s.period);
      DueBounds(w.nextClear, w.slotIdx, h % SLOTS, SLOTS, s.clearing);
    }
  }

  lemma WaitKeepsInv(s: Setup, v: World, w: World)
    requires Inv(s, v) && Wait(s, v, w)
    ensures Inv(s, w)
  {
    forall h: Uint64 ensures EpochsOk(s, w, h) && FilterOk(s, w, h) && LiveOk(s, w, h) {
      assert EpochsOk(s, v, h) && FilterOk(s, v, h) && LiveOk(s, v, h);
      DueBounds(w.nextTick, w.bucketIdx, h % |w.buckets|, |w.buckets|, s.period);
      DueBounds(w.nextClear, w.slotIdx, h % SLOTS, SLOTS, s.clearing);
    }
  }

  lemma TickKeeps(s: Setup, v: World, w: World, h: Uint64)
    requires Inv(s, v) && Tick(s, v, w)
    ensures Clocked(s, w) && EpochsOk(s, w, h) && FilterOk(s, w, h) && LiveOk(s, w, h)
  {
    assert EpochsOk(s, v, h) && FilterOk(s, v, h) && LiveOk(s, v, h);
    var i, n := h % |v.buckets|, |v.buckets|;
    DueAdvances(v.nextTick, v.bucketIdx, i, n, s.period);
    DueBounds(v.nextTick, v.bucketIdx, i, n, s.period);
    DueBounds(w.nextTick, w.bucketIdx, i, n, s.period);
    assert BucketDue(s, w, h) == BucketDue(s, v, h) + (if i == v.bucketIdx then n * s.period else 0)
                                 - if w.nextTick == v.nextTick then s.period else 0;
  }

  lemma ClearKeeps(s: Setup, v: World, w: World, h: Uint64)
    requires Inv(s, v) && Clear(s, v, w)
    ensures Clocked(s, w) && EpochsOk(s, w, h) && FilterOk(s, w, h) && LiveOk(s, w, h)
  {
    assert EpochsOk(s, v, h) && FilterOk(s, v, h) && LiveOk(s, v, h);
    DueAdvances(v.nextClear, v.slotIdx, h % SLOTS, SLOTS, s.clearing);
    DueBounds(v.nextClear, v.slotIdx, h % SLOTS, SLOTS, s.clearing);
    DueBounds(w.nextClear, w.slotIdx, h % SLOTS, SLOTS, s.clearing);
  }

  lemma ResetKeeps(s: Setup, v: World, w: World, h: Uint64)
    requires Inv(s, v) && ResetFilters(v, w)
    ensures Clocked(s, w) && EpochsOk(s, w, h) && FilterOk(s, w, h) && LiveOk(s, w, h)
  {
    assert EpochsOk(s, v, h) && FilterOk(s, v, h) && LiveOk(s, v, h);
  }

  lemma ResetBucketKeeps(s: Setup, v: World, w: World, i: nat, h: Uint64)
    requires Inv(s, v) && ResetBucket(v, w, i)
    ensures Clocked(s, w) && EpochsOk(s, w, h) && FilterOk(s, w, h) && LiveOk(s, w, h)
  {
    assert EpochsOk(s, v, h) && FilterOk(s, v, h) && LiveOk(s, v, h);
  }

  lemma DeliverKeepsEpochs(s: Setup, v: World, w: World, d: Uint64, falsePositive: bool, room: bool, h: Uint64)
    requires Clocked(s, v) && Deliver(s, v, w, d, falsePositive, room) && EpochsOk(s, v, h)
    ensures Clocked(s, w) && EpochsOk(s, w, h)
  {
  }

  lemma DeliverKeepsFilter(s: Setup, v: World, w: World, d: Uint64, falsePositive: bool, room: bool, h: Uint64)
    requires Clocked(s, v) && Deliver(s, v, w, d, falsePositive, room) && FilterOk(s, v, h)
    ensures Clocked(s, w) && FilterOk(s, w, h)
  {
  }

  lemma DeliverKeepsLive(s: Setup, v: World, w: World, d: Uint64, falsePositive: bool, room: bool, h: Uint64)
    requires Clocked(s, v) && Deliver(s, v, w, d, falsePositive, room)
    requires EpochsOk(s, v, h) && FilterOk(s, v, h) && LiveOk(s, v, h)
    ensures Clocked(s, w) && LiveOk(s, w, h)
  {
  }

  lemma DeliverKeeps(s: Setup, v: World, w: World, d: Uint64, falsePositive: bool, room: bool, h: Uint64)
    requires Inv(s, v) && Deliver(s, v, w, d, falsePositive, room)
    ensures Clocked(s, w) && EpochsOk(s, w, h) && FilterOk(s, w, h) && LiveOk(s, w, h)
  {
    assert EpochsOk(s, v, h) && FilterOk(s, v, h) && LiveOk(s, v, h);
    DeliverKeepsEpochs(s, v, w, d, falsePositive, room, h);
    DeliverKeepsFilter(s, v, w, d, falsePositive, room, h);
    DeliverKeepsLive(s, v, w, d, falsePositive, room, h);
  }

  lemma {:induction false} RunKeepsInv(s: Setup, run: seq<World>)
    requires IsRun(s, run)
    ensures Inv(s, run[|run| - 1])
    ensures |run[|run| - 1].buckets| == |run[0].buckets|
  {
    var n := |run| - 1;
    if n == 0 {
      InitInv(s, run[0]);
    } else {
      RunKeepsInv(s, run[..n]);
      var v, w := run[n - 1], run[n];
      assert Next(s, v, w);
      if Wait(s, v, w) {
        WaitKeepsInv(s, v, w);
      } else if Tick(s, v, w) {
        forall h: Uint64 { TickKeeps(s, v, w, h); }
      } else if Clear(s, v, w) {
        forall h: Uint64 { ClearKeeps(s, v, w, h); }
      } else if ResetFilters(v, w) {
        forall h: Uint64 { ResetKeeps(s, v, w, h); }
      } else if i :| ResetBucket(v, w, i) {
        forall h: Uint64 { ResetBucketKeeps(s, v, w, i, h); }
      } else {
        var d, falsePositive, room :| Deliver(s, v, w, d, falsePositive, room);
        forall h: Uint64 { DeliverKeeps(s, v, w, d, falsePositive, room, h); }
      }
    }
  }

  /* Main results */

  /** A hash is visible for no more than two rounds after it last passed, up to how late a rotation can
      be. If no boundary is served twice, it stays visible for a full one, unless its bucket is reset. */
  lemma TimedRetention(s: Setup, run: seq<World>, h: Uint64)
    requires IsRun(s, run)
    ensures var w := run[|run| - 1];
            && w.buckets != []
            && (s.strict && h in w.passed && h !in w.wiped && w.now < w.passed[h] + Round(s, w) - s.late ==>
                  Visible(w, h))
            && (Visible(w, h) ==> h in w.passed && h !in w.wiped && w.now <= w.passed[h] + 2 * Round(s, w) + s.late)
  {
    RunKeepsInv(s, run);
    var w := run[|run| - 1];
    assert EpochsOk(s, w, h);
  }

  /** With the period the estimator derives from its interval, that is at most the interval, and as
      late as a rotation can be. */
  lemma VisibleAtMostInterval(s: Setup, run: seq<World>, h: Uint64, interval: int)
    requires IsRun(s, run) && s.period == RotationLoops.Period(interval, |run[0].buckets|)
    ensures var w := run[|run| - 1];
            && w.buckets != []
            && (Visible(w, h) ==> h in w.passed && w.now <= w.passed[h] + interval + s.late)
  {
    TimedRetention(s, run, h);
    RunKeepsInv(s, run);
    RotationLoops.BucketPeriod(interval, |run[0].buckets|, 0, 0);
    RotationLoops.PeriodSign(interval, |run[0].buckets|);
  }

  /** And it is at least half the interval, less a nanosecond for each bucket and as long as a rotation
      can be late, unless the bucket is reset. */
  lemma VisibleAtLeastHalfInterval(s: Setup, run: seq<World>, h: Uint64, interval: int)
    requires IsRun(s, run) && s.period == RotationLoops.Period(interval, |run[0].buckets|)
    ensures var w := run[|run| - 1];
            && w.buckets != []
            && (s.strict && h in w.passed && h !in w.wiped ==>
                  2 * (w.now - w.passed[h] + s.late + |run[0].buckets|) <= interval ==> Visible(w, h))
  {
    TimedRetention(s, run, h);
    RunKeepsInv(s, run);
    RotationLoops.BucketPeriod(interval, |run[0].buckets|, 0, 0);
    RotationLoops.PeriodSign(interval, |run[0].buckets|);
  }

  /** A fingerprint is suppressed for at most one round of clears after it last passed, and as late as
      a clear can be. */
  lemma TimedSuppression(s: Setup, run: seq<World>, h: Uint64)
    requires IsRun(s, run)
    ensures var w := run[|run| - 1];
            && |w.filters| == SLOTS
            && (h in w.filters[h % SLOTS] ==> h in w.passed && w.now <= w.passed[h] + Suppression(s) + s.late)
  {
    RunKeepsInv(s, run);
    var w := run[|run| - 1];
    assert FilterOk(s, w, h);
  }

  /** With the period the deduplicator derives from its interval, that is the interval itself. */
  lemma SuppressedAtMostInterval(s: Setup, run: seq<World>, h: Uint64, interval: nat)
    requires IsRun(s, run) && s.clearing == interval / 10
    ensures var w := run[|run| - 1];
            && |w.filters| == SLOTS
            && (h in w.filters[h % 10] ==> h in w.passed && w.now <= w.passed[h] + interval + s.late)
  {
    TimedSuppression(s, run, h);
  }

  /** A live series passes again no later than a round of clears, their lateness and the longest gap
      after it last passed, so that is also how long a reset of the estimator can hide it. */
  lemma LiveSeriesPassesAgain(s: Setup, run: seq<World>, h: Uint64)
    requires IsRun(s, run) && h in s.live
    ensures var w := run[|run| - 1];
            h in w.arrived ==> h in w.passed && w.now <= w.passed[h] + Suppression(s) + s.late + s.delta
  {
    RunKeepsInv(s, run);
    var w := run[|run| - 1];
    assert FilterOk(s, w, h) && LiveOk(s, w, h);
  }

  /** When no boundary is served twice, and a round of clears, the longest gap between two arrivals, one
      late clear and one late rotation fit strictly into the time between two rotations of a bucket, a
      live series is visible from its first delivery on, except between a reset of its bucket and the
      next time it passes. */
  lemma LiveSeriesNeverLost(s: Setup, run: seq<World>, h: Uint64)
    requires IsRun(s, run) && s.strict && h in s.live
    requires Suppression(s) + s.delta + 2 * s.late < |run[0].buckets| * s.period
    requires h in run[|run| - 1].arrived
    ensures var w := run[|run| - 1]; w.buckets != [] && (Visible(w, h) <==> h !in w.wiped)
  {
    RunKeepsInv(s, run);
    TimedRetention(s, run, h);
    LiveSeriesPassesAgain(s, run, h);
  }
}
