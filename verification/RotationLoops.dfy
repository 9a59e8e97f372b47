/** The two background loops: when the estimator's and the deduplicator's rotations fire.

    Times are nanoseconds. A loop reads the clock, sleeps until its next boundary, acts, and reads
    the clock again some delay after the boundary; the delays are the scheduler's choice. */
module RotationLoops {
  import opened Base

  /* The estimator's loop */

  /** The quotient rounded toward zero. */
  function Quotient(a: int, b: nat): int
    requires 0 < b
  {
    if a >= 0 then a / b else -(-a / b)
  }

  /** The time between two ticks: half the interval, divided among the buckets. */
  function Period(interval: int, buckets: nat): int
    requires 0 < buckets
  {
    Quotient(Quotient(interval, 2), buckets)
  }

  /** How long the loop wants to sleep when the clock reads now; a period of zero divides by zero,
      and the remainder is never negative. */
  function WaitNs(now: nat, period: int): int
    requires period != 0
  {
    var wait := period - now % period;
    if wait == period then 0 else wait
  }

  /** When it acts: a timer for less than nothing fires at once. */
  function NextTick(now: nat, period: int): (tick: nat)
    requires period != 0
    ensures tick >= now
  {
    var wait := WaitNs(now, period);
    if wait > 0 then now + wait else now
  }

  lemma QuotientPositive(a: nat, b: nat)
    requires 0 < b
    ensures a / b >= 1 <==> a >= b
  {
    if a < b {
      ModOfSum(a, 0, a, b);
    } else {
      assert a == (a / b) * b + a % b;
    }
  }

  lemma PeriodOfNegative(interval: int, buckets: nat)
    requires 0 < buckets && 0 <= interval
    ensures Period(-interval, buckets) == -Period(interval, buckets)
  {
    assert Quotient(-interval, 2) == -(interval / 2);
    if interval / 2 == 0 {
      ModOfSum(0, 0, 0, buckets);
    }
  }

  lemma PeriodOfPositive(interval: nat, buckets: nat)
    requires 0 < buckets
    ensures 0 <= Period(interval, buckets) && (0 < Period(interval, buckets) <==> 2 * buckets <= interval)
  {
    QuotientPositive(interval / 2, buckets);
  }

  /** The period is positive exactly if every bucket gets two nanoseconds of the interval. Below
      that it is zero, on which the loop panics, and for negative intervals it is negative. */
  lemma PeriodSign(interval: int, buckets: nat)
    requires 0 < buckets
    ensures 0 < Period(interval, buckets) <==> 2 * buckets <= interval
    ensures Period(interval, buckets) == 0 <==> -2 * buckets < interval < 2 * buckets
    ensures Period(interval, buckets) < 0 <==> interval <= -2 * buckets
  {
    if interval >= 0 {
      PeriodOfPositive(interval, buckets);
    } else {
      PeriodOfPositive(-interval, buckets);
      PeriodOfNegative(-interval, buckets);
    }
  }

  lemma PeriodBoundsOfPositive(interval: nat, buckets: nat)
    requires 0 < buckets
    ensures 0 <= Period(interval, buckets)
    ensures var round := buckets * Period(interval, buckets); 2 * round <= interval < 2 * round + 2 * buckets
  {
    var half := interval / 2;
    assert half == (half / buckets) * buckets + half % buckets;
    assert Period(interval, buckets) == half / buckets;
  }

  /** The period times twice the buckets is the interval, rounded toward zero: that is all there is to
      say about it. */
  lemma PeriodBounds(interval: int, buckets: nat)
    requires 0 < buckets
    ensures var p := Period(interval, buckets);
            && (0 <= interval ==> 2 * buckets * p <= interval < 2 * buckets * (p + 1))
            && (interval <= 0 ==> 2 * buckets * (p - 1) < interval <= 2 * buckets * p)
  {
    var p := Period(interval, buckets);
    TwiceTimes(buckets, p);
    if 0 <= interval {
      PeriodBoundsOfPositive(interval, buckets);
    }
    if interval <= 0 {
      PeriodBoundsOfPositive(-interval, buckets);
      PeriodOfNegative(-interval, buckets);
      TimesNegative(buckets, p);
    }
  }

  lemma TwiceTimes(n: nat, p: int)
    ensures 2 * n * p == 2 * (n * p)
    ensures 2 * n * (p + 1) == 2 * (n * p) + 2 * n
    ensures 2 * n * (p - 1) == 2 * (n * p) - 2 * n
  {
  }

  lemma TimesNegative(n: nat, p: int)
    ensures n * -p == -(n * p)
  {
  }

  /** With a negative period the loop never waits: it rotates as fast as it can. */
  lemma NegativeNeverWaits(now: nat, period: int)
    requires period < 0
    ensures NextTick(now, period) == now
  {
  }

  lemma MulMonotone(a: int, b: int, d: nat)
    requires a <= b
    ensures a * d <= b * d
  {
    assert b * d - a * d == (b - a) * d;
  }

  /** The quotient and the remainder of q * d + r, for r below d. */
  lemma ModOfSum(x: nat, q: nat, r: nat, d: nat)
    requires 0 < d && r < d && x == q * d + r
    ensures x / d == q && x % d == r
  {
    var p, s := x / d, x % d;
    assert x == p * d + s && s < d;
    if p < q {
      MulMonotone(p + 1, q, d);
    } else if p > q {
      MulMonotone(q + 1, p, d);
    }
  }

  /** A tick is on the grid: on the boundary itself when the clock reads one, else on the next. */
  lemma NextTickShape(now: nat, period: nat, q: nat, r: nat)
    requires 0 < period && r < period && now == q * period + r
    ensures NextTick(now, period) == if r == 0 then now else (q + 1) * period
    ensures now <= NextTick(now, period) < now + period
    ensures NextTick(now, period) % period == 0
  {
    ModOfSum(now, q, r, period);
    if r != 0 {
      assert (q + 1) * period == now - r + period;
      ModOfSum((q + 1) * period, q + 1, 0, period);
    }
  }

  /** A tick falls on the first multiple of the period at or after now. */
  lemma NextTickIsFirstBoundary(now: nat, period: nat, m: nat)
    requires 0 < period
    ensures now <= NextTick(now, period) < now + period
    ensures NextTick(now, period) % period == 0
    ensures now <= m && m % period == 0 ==> NextTick(now, period) <= m
  {
    var q, r := now / period, now % period;
    NextTickShape(now, period, q, r);
    if now <= m && m % period == 0 {
      var k := m / period;
      assert m == k * period;
      if r != 0 {
        if k <= q {
          MulMonotone(k, q, period);
        }
        MulMonotone(q + 1, k, period);
      }
    }
  }

  /** The next tick is the next boundary exactly when the loop gets around to reading the clock
      after the boundary it served and no later than the next one. Reading it at the very boundary
      serves that boundary twice; reading it later skips one. */
  lemma NextTickOnSchedule(boundary: nat, delay: nat, period: nat)
    requires 0 < period && boundary % period == 0
    ensures NextTick(boundary + delay, period) == boundary + period <==> 0 < delay <= period
    ensures NextTick(boundary + delay, period) == boundary <==> delay == 0
    ensures NextTick(boundary + delay, period) > boundary + period <==> delay > period
  {
    var k := boundary / period;
    assert boundary == k * period && (k + 1) * period == boundary + period;
    if delay < period {
      NextTickShape(boundary + delay, period, k, delay);
    } else if delay == period {
      NextTickShape(boundary + delay, period, k + 1, 0);
    } else {
      NextTickIsFirstBoundary(boundary + delay, period, boundary);
    }
  }

  /** One turn of the estimator's loop: at this boundary, this bucket rotates. */
  datatype Tick = Tick(boundary: nat, bucket: nat)

  /** The loop over as many turns as there are delays, for an interval divided among the buckets. */
  method RunRotation(interval: int, buckets: nat, start: nat, delays: seq<nat>)
    returns (panicked: bool, ticks: seq<Tick>)
    requires 0 < buckets
    ensures panicked <==> delays != [] && -2 * buckets < interval < 2 * buckets
    ensures !panicked ==> |ticks| == |delays| && forall k | 0 <= k < |ticks| :: ticks[k].bucket == k % buckets
    ensures var period := Period(interval, buckets);
            !panicked && (forall d | d in delays :: 0 < d <= period) ==>
              forall k | 0 <= k < |ticks| :: period > 0 && ticks[k].boundary == NextTick(start, period) + k * period
    ensures (forall d | d in delays :: 0 < d && 2 * buckets * d <= interval) ==> InRounds(ticks, interval, buckets)
    ensures !panicked && interval < 0 ==>
              forall k | 0 <= k < |ticks| ::
                ticks[k].boundary == if k == 0 then start else ticks[k - 1].boundary + delays[k - 1]
  {
    PeriodSign(interval, buckets);
    FitsPeriod(delays, interval, buckets);
    var period := Period(interval, buckets);
    var bucketIdx, now := 0, start;
    ticks := [];
    ghost var onSchedule := forall d | d in delays :: 0 < d <= period;
    for i := 0 to |delays|
      invariant |ticks| == i && bucketIdx == i % buckets && (i > 0 ==> period != 0)
      invariant forall k | 0 <= k < i :: ticks[k].bucket == k % buckets
      invariant onSchedule && period > 0 ==> NextTick(now, period) == NextTick(start, period) + i * period
      invariant onSchedule && period > 0 ==>
                  forall k | 0 <= k < i :: ticks[k].boundary == NextTick(start, period) + k * period
      invariant now == if i == 0 then start else ticks[i - 1].boundary + delays[i - 1]
      invariant period < 0 ==>
                  forall k | 0 <= k < i ::
                    ticks[k].boundary == if k == 0 then start else ticks[k - 1].boundary + delays[k - 1]
    {
      assert delays[i] in delays;
      if period == 0 {
        return true, ticks;
      }
      var boundary := NextTick(now, period);
      ticks := ticks + [Tick(boundary, bucketIdx)];
      bucketIdx := (bucketIdx + 1) % buckets;
      RemainderSuccessor(i, buckets);
      if onSchedule {
        AdvancesOnePeriod(now, delays[i], period, NextTick(start, period), i);
      }
      now := boundary + delays[i];
    }
    assert onSchedule && delays != [] ==> delays[0] in delays;
    panicked := false;
    if onSchedule && period > 0 {
      EvenlySpaced(ticks, interval, buckets, NextTick(start, period));
    }
  }

  /** Delays that fit so often into the interval fit into the period. */
  lemma FitsPeriod(delays: seq<nat>, interval: int, buckets: nat)
    requires 0 < buckets
    ensures (forall d | d in delays :: 0 < d && 2 * buckets * d <= interval) ==>
              forall d | d in delays :: 0 < d <= Period(interval, buckets)
  {
    forall d | d in delays && 0 < d && 2 * buckets * d <= interval ensures d <= Period(interval, buckets) {
      PeriodBounds(interval, buckets);
      if Period(interval, buckets) + 1 <= d {
        MulMonotone(Period(interval, buckets) + 1, d, 2 * buckets);
      }
    }
  }

  /** Against the interval itself: the ticks are as far apart as the interval, in halves, allows for each
      bucket, and every bucket has its turn again after half the interval, but for less than a
      nanosecond for each bucket. */
  ghost predicate InRounds(ticks: seq<Tick>, interval: int, buckets: nat) {
    && (forall k | 0 <= k < |ticks| - 1 ::
          var apart := ticks[k + 1].boundary - ticks[k].boundary;
          2 * buckets * apart <= interval < 2 * buckets * (apart + 1))
    && forall j, k | 0 <= j < |ticks| && k == j + buckets < |ticks| ::
         && ticks[k].bucket == ticks[j].bucket
         && interval - 2 * buckets < 2 * (ticks[k].boundary - ticks[j].boundary) <= interval
  }

  lemma EvenlySpaced(ticks: seq<Tick>, interval: int, buckets: nat, first: nat)
    requires 0 < buckets && 0 < Period(interval, buckets)
    requires forall k | 0 <= k < |ticks| ::
               ticks[k].bucket == k % buckets && ticks[k].boundary == first + k * Period(interval, buckets)
    ensures InRounds(ticks, interval, buckets)
  {
    PeriodSign(interval, buckets);
    PeriodBounds(interval, buckets);
    forall k | 0 <= k < |ticks| - 1
      ensures ticks[k + 1].boundary - ticks[k].boundary == Period(interval, buckets)
    {
      Distribute(k, 1, Period(interval, buckets));
    }
    forall j, k | 0 <= j < |ticks| && k == j + buckets < |ticks|
      ensures ticks[k].bucket == ticks[j].bucket
      ensures interval - 2 * buckets < 2 * (ticks[k].boundary - ticks[j].boundary) <= interval
    {
      BucketPeriod(interval, buckets, first, j);
    }
  }

  lemma AdvancesOnePeriod(now: nat, delay: nat, period: nat, first: nat, i: nat)
    requires 0 < period
    ensures NextTick(now, period) == first + i * period && 0 < delay <= period ==>
              NextTick(NextTick(now, period) + delay, period) == first + (i + 1) * period
  {
    NextTickIsFirstBoundary(now, period, now);
    NextTickOnSchedule(NextTick(now, period), delay, period);
    assert (i + 1) * period == i * period + period;
  }

  lemma RemainderSuccessor(i: nat, n: nat)
    requires 0 < n
    ensures (i % n + 1) % n == (i + 1) % n
  {
    var q, r := i / n, i % n;
    assert i + 1 == q * n + (r + 1);
    if r + 1 < n {
      ModOfSum(i + 1, q, r + 1, n);
      ModOfSum(r + 1, 0, r + 1, n);
    } else {
      assert i + 1 == (q + 1) * n;
      ModOfSum(i + 1, q + 1, 0, n);
      ModOfSum(r + 1, 1, 0, n);
    }
  }

  /** On schedule, a bucket rotates every full round, and two rounds fit into the interval. */
  lemma BucketPeriod(interval: int, buckets: nat, first: nat, k: nat)
    requires 0 < buckets
    ensures var period := Period(interval, buckets);
            && (k + buckets) % buckets == k % buckets
            && (first + (k + buckets) * period) - (first + k * period) == buckets * period
            && (0 <= interval ==> 2 * (buckets * period) <= interval < 2 * (buckets * period) + 2 * buckets)
  {
    var period := Period(interval, buckets);
    Distribute(k, buckets, period);
    var q, r := k / buckets, k % buckets;
    Distribute(q, 1, buckets);
    assert k + buckets == (q + 1) * buckets + r;
    ModOfSum(k + buckets, q + 1, r, buckets);
    if 0 <= interval {
      PeriodBoundsOfPositive(interval, buckets);
    }
  }

  /* The deduplicator's loop */

  /** Nanoseconds between the zero time, from which Truncate counts, and the Unix epoch. */
  const UNIX_EPOCH: nat := 62_135_596_800_000_000_000

  /** The first boundary strictly after now; both count from the zero time. */
  function NextBoundary(now: nat, d: nat): nat
    requires 0 < d
  {
    now - now % d + d
  }

  /** It is the least multiple of the period after now. */
  lemma NextBoundaryIsFirst(now: nat, d: nat, m: nat)
    requires 0 < d
    ensures now < NextBoundary(now, d) && NextBoundary(now, d) % d == 0
    ensures now < m && m % d == 0 ==> NextBoundary(now, d) <= m
  {
    var q, r := now / d, now % d;
    assert now == q * d + r;
    assert NextBoundary(now, d) == (q + 1) * d;
    ModOfSum(NextBoundary(now, d), q + 1, 0, d);
    if now < m && m % d == 0 {
      assert m == (m / d) * d;
      if m / d <= q {
        MulMonotone(m / d, q, d);
      }
      MulMonotone(q + 1, m / d, d);
    }
  }

  /** The slot a boundary clears, from its distance to the Unix epoch. */
  function SlotOf(boundary: nat, d: nat): (slot: nat)
    requires 0 < d && UNIX_EPOCH <= boundary
    ensures slot < SLOTS
  {
    (boundary - UNIX_EPOCH) / d % SLOTS
  }

  /** The loop serves consecutive boundaries as long as it is woken within one period. */
  lemma NextBoundaryOnSchedule(now: nat, delay: nat, d: nat)
    requires 0 < d
    ensures var b := NextBoundary(now, d);
            && now < b <= now + d && b % d == 0
            && (NextBoundary(b + delay, d) == b + d <==> delay < d)
  {
    var q, r := now / d, now % d;
    assert now == q * d + r;
    var b := NextBoundary(now, d);
    assert b == (q + 1) * d;
    ModOfSum(b, q + 1, 0, d);
    var j, s := (b + delay) / d, (b + delay) % d;
    if delay < d {
      ModOfSum(b + delay, q + 1, delay, d);
    } else {
      assert b + delay == j * d + s && s < d;
      if j <= q + 1 {
        MulMonotone(j, q + 1, d);
      }
      MulMonotone(q + 2, j, d);
    }
  }

  /** Whatever the phase of the grid against the epoch, successive boundaries clear successive slots. */
  lemma {:induction false} SlotAdvances(boundary: nat, d: nat, k: nat)
    requires 0 < d && UNIX_EPOCH <= boundary
    ensures SlotOf(boundary + k * d, d) == (SlotOf(boundary, d) + k) % SLOTS
  {
    var x := boundary - UNIX_EPOCH;
    var q, r := x / d, x % d;
    Distribute(q, k, d);
    assert x + k * d == (q + k) * d + r;
    ModOfSum(x + k * d, q + k, r, d);
    assert (boundary + k * d - UNIX_EPOCH) / d == q + k;
    SlotShift(q, k);
  }

  /** The slot is the number of the period since the Unix epoch, counted in tens. */
  lemma SlotMeans(boundary: nat, d: nat) returns (tens: nat)
    requires 0 < d && UNIX_EPOCH <= boundary
    ensures var n := 10 * tens + SlotOf(boundary, d);
            SlotOf(boundary, d) < 10 && n * d <= boundary - UNIX_EPOCH < (n + 1) * d
  {
    var x := boundary - UNIX_EPOCH;
    tens := x / d / 10;
    var q := x / d;
    assert q == 10 * tens + SlotOf(boundary, d);
    assert x == q * d + x % d;
    assert (q + 1) * d == q * d + d;
  }

  lemma SlotShift(q: nat, k: nat)
    ensures (q + k) % SLOTS == (q % SLOTS + k) % SLOTS
  {
  }

  ghost function Shifted(first: nat, k: nat): nat { (first + k) % SLOTS }

  lemma RingDistance(first: nat, slot: nat) returns (k: nat)
    requires first < SLOTS && slot < SLOTS
    ensures k < SLOTS && Shifted(first, k) == slot
    ensures forall j: nat | j < SLOTS && j != k :: Shifted(first, j) != slot
  {
    k := if first <= slot then slot - first else slot - first + SLOTS;
  }

  /** Any ten consecutive boundaries clear every slot exactly once. */
  lemma TenBoundariesClearEachSlotOnce(boundary: nat, d: nat, slot: nat) returns (k: nat)
    requires 0 < d && UNIX_EPOCH <= boundary && slot < SLOTS
    ensures k < SLOTS && SlotOf(boundary + k * d, d) == slot
    ensures forall j: nat | j < SLOTS && j != k :: SlotOf(boundary + j * d, d) != slot
  {
    k := RingDistance(SlotOf(boundary, d), slot);
    SlotAdvances(boundary, d, k);
    forall j: nat | j < SLOTS && j != k ensures SlotOf(boundary + j * d, d) != slot {
      SlotAdvances(boundary, d, j);
      assert Shifted(SlotOf(boundary, d), j) != slot;
    }
  }

  lemma ServesNext(now: nat, delay: nat, d: nat, first: nat, i: nat)
    requires 0 < d && UNIX_EPOCH <= now && UNIX_EPOCH <= first
    ensures UNIX_EPOCH <= NextBoundary(now, d)
    ensures NextBoundary(now, d) == first + i * d ==>
              && SlotOf(NextBoundary(now, d), d) == (SlotOf(first, d) + i) % SLOTS
              && (delay < d ==> NextBoundary(NextBoundary(now, d) + delay, d) == first + (i + 1) * d)
  {
    NextBoundaryOnSchedule(now, delay, d);
    SlotAdvances(first, d, i);
    assert (i + 1) * d == i * d + d;
  }

  datatype Clear = Clear(boundary: nat, slot: nat)

  /** The deduplicator's loop over as many turns as there are delays. */
  method RunClearing(interval: nat, start: nat, delays: seq<nat>) returns (clears: seq<Clear>)
    requires 0 < interval / SLOTS && UNIX_EPOCH <= start
    ensures |clears| == |delays|
    ensures var d := interval / SLOTS;
            (forall w | w in delays :: w < d) ==>
              forall k | 0 <= k < |clears| ::
                clears[k] == Clear(NextBoundary(start, d) + k * d, (SlotOf(NextBoundary(start, d), d) + k) % SLOTS)
    ensures (forall w | w in delays :: 10 * (w + 1) <= interval) ==> TenInInterval(clears, interval)
  {
    var d := interval / SLOTS;
    var now := start;
    clears := [];
    ghost var onSchedule := forall w | w in delays :: w < d;
    NextBoundaryOnSchedule(start, 0, d);
    ghost var first := NextBoundary(start, d);
    assert forall w | w in delays && 10 * (w + 1) <= interval :: w < d;
    for i := 0 to |delays|
      invariant |clears| == i && UNIX_EPOCH <= now
      invariant onSchedule ==> NextBoundary(now, d) == first + i * d
      invariant onSchedule ==>
                  forall k | 0 <= k < i :: clears[k] == Clear(first + k * d, (SlotOf(first, d) + k) % SLOTS)
    {
      ServesNext(now, delays[i], d, first, i);
      var boundary := NextBoundary(now, d);
      clears := clears + [Clear(boundary, SlotOf(boundary, d))];
      assert delays[i] in delays;
      now := boundary + delays[i];
    }
    if onSchedule {
      ClearsInTens(clears, interval, first);
    }
  }

  /** Against the interval itself: every slot has its turn again after ten clears, which take the
      interval but for less than ten nanoseconds. */
  ghost predicate TenInInterval(clears: seq<Clear>, interval: nat) {
    forall j, k | 0 <= j < |clears| && k == j + 10 < |clears| ::
      && clears[k].slot == clears[j].slot
      && interval - 10 < clears[k].boundary - clears[j].boundary <= interval
  }

  lemma ClearsInTens(clears: seq<Clear>, interval: nat, first: nat)
    requires 0 < interval / SLOTS && UNIX_EPOCH <= first
    requires forall k | 0 <= k < |clears| ::
               var d := interval / SLOTS; clears[k] == Clear(first + k * d, (SlotOf(first, d) + k) % SLOTS)
    ensures TenInInterval(clears, interval)
  {
    var d := interval / SLOTS;
    forall j, k | 0 <= j < |clears| && k == j + 10 < |clears|
      ensures clears[k].slot == clears[j].slot
      ensures interval - 10 < clears[k].boundary - clears[j].boundary <= interval
    {
      Distribute(j, 10, d);
      assert clears[k].boundary - clears[j].boundary == 10 * d;
    }
  }
}
