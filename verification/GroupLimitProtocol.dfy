/** The group limit shared by the buckets of one estimator, under concurrency.

    Each bucket has its own lock; a thread holding it runs one insert or one rotation. The check
    against the limit, the increment of the bucket's counter and the increment of the shared
    counter are separate steps, and steps of different buckets interleave freely. */
module GroupLimitProtocol {
  import opened Base

  type Key = Uint64

  /** Where the thread holding the bucket's lock is; Free means nobody holds it. */
  datatype Phase =
    | Free
    | Passed(key: Key)      // the shared counter was below the limit
    | Counted(key: Key)     // the bucket's counter is incremented
    | Admitted(key: Key)    // the shared counter is incremented
    | Swapped(kept: nat)    // a rotation or reset replaced the group maps
    | Releasing(diff: nat)  // the bucket's counter is lowered by diff

  datatype Bucket = Bucket(groups: set<Key>, prev: set<Key>, counted: int, phase: Phase)

  datatype State = State(size: int, buckets: seq<Bucket>)

  ghost predicate Init(s: State) {
    s.size == 0 && s.buckets != [] && forall b | b in s.buckets :: b == Bucket({}, {}, 0, Free)
  }

  ghost function Tracked(b: Bucket): set<Key> { b.groups + b.prev }

  ghost predicate Step(limit: nat, s: State, t: State, i: nat)
    requires i < |s.buckets|
  {
    || (exists k :: InsertTracked(s, t, i, k) || Pass(limit, s, t, i, k))
    || Count(s, t, i) || Publish(s, t, i) || Store(s, t, i)
    || Rotate(s, t, i) || Reset(s, t, i) || Lower(s, t, i) || Release(s, t, i)
  }

  /** A rejected key changes nothing here: only its reject sketch. */
  ghost predicate InsertTracked(s: State, t: State, i: nat, k: Key)
    requires i < |s.buckets|
  {
    var b := s.buckets[i];
    b.phase == Free && k in Tracked(b)
    && t == s.(buckets := s.buckets[i := b.(groups := b.groups + {k})])
  }

  ghost predicate Pass(limit: nat, s: State, t: State, i: nat, k: Key)
    requires i < |s.buckets|
  {
    var b := s.buckets[i];
    b.phase == Free && k !in Tracked(b) && k % |s.buckets| == i && s.size < limit
    && t == s.(buckets := s.buckets[i := b.(phase := Passed(k))])
  }

  ghost predicate Count(s: State, t: State, i: nat)
    requires i < |s.buckets|
  {
    var b := s.buckets[i];
    b.phase.Passed?
    && t == s.(buckets := s.buckets[i := b.(counted := b.counted + 1, phase := Counted(b.phase.key))])
  }

  ghost predicate Publish(s: State, t: State, i: nat)
    requires i < |s.buckets|
  {
    var b := s.buckets[i];
    b.phase.Counted?
    && t == State(s.size + 1, s.buckets[i := b.(phase := Admitted(b.phase.key))])
  }

  ghost predicate Store(s: State, t: State, i: nat)
    requires i < |s.buckets|
  {
    var b := s.buckets[i];
    b.phase.Admitted?
    && t == s.(buckets := s.buckets[i := b.(groups := b.groups + {b.phase.key}, phase := Free)])
  }

  ghost predicate Rotate(s: State, t: State, i: nat)
    requires i < |s.buckets|
  {
    var b := s.buckets[i];
    b.phase == Free
    && t == s.(buckets := s.buckets[i := b.(groups := {}, prev := b.groups, phase := Swapped(|b.groups|))])
  }

  ghost predicate Reset(s: State, t: State, i: nat)
    requires i < |s.buckets|
  {
    var b := s.buckets[i];
    b.phase == Free
    && t == s.(buckets := s.buckets[i := b.(groups := {}, prev := {}, phase := Swapped(0))])
  }

  /** Lowers the bucket's counter to the number of keys kept, if it is above. */
  ghost predicate Lower(s: State, t: State, i: nat)
    requires i < |s.buckets|
  {
    var b := s.buckets[i];
    b.phase.Swapped?
    && var diff := b.counted - b.phase.kept;
       t == s.(buckets := s.buckets[i := if diff > 0 then b.(counted := b.counted - diff, phase := Releasing(diff))
                                                     else b.(phase := Free)])
  }

  ghost predicate Release(s: State, t: State, i: nat)
    requires i < |s.buckets|
  {
    var b := s.buckets[i];
    b.phase.Releasing? && t == State(s.size - b.phase.diff, s.buckets[i := b.(phase := Free)])
  }

  ghost predicate Next(limit: nat, s: State, t: State) {
    exists i | 0 <= i < |s.buckets| :: Step(limit, s, t, i)
  }

  ghost predicate IsRun(limit: nat, run: seq<State>) {
    && run != [] && Init(run[0])
    && forall i | 0 <= i < |run| - 1 :: Next(limit, run[i], run[i + 1])
  }

  /* The invariant */

  /** One while an insert of this bucket passed the check and has not raised the shared counter. */
  ghost function Pending(b: Bucket): int {
    if b.phase.Passed? || b.phase.Counted? then 1 else 0
  }

  /** The bucket's part of the shared counter. */
  ghost function Share(b: Bucket): int {
    match b.phase
    case Counted(_) => b.counted - 1
    case Releasing(diff) => b.counted + diff
    case _ => b.counted
  }

  ghost function InFlight(s: State): int { Sum(Pending, s.buckets) }

  ghost predicate BucketOk(b: Bucket) {
    match b.phase
    case Free => b.counted == |Tracked(b)|
    case Passed(k) => b.counted == |Tracked(b)| && k !in Tracked(b)
    case Counted(k) => b.counted == |Tracked(b)| + 1 && k !in Tracked(b)
    case Admitted(k) => b.counted == |Tracked(b)| + 1 && k !in Tracked(b)
    case Swapped(kept) => kept == |Tracked(b)| <= b.counted
    case Releasing(_) => b.counted == |Tracked(b)|
  }

  /** At most k inserts are ever between check and increment; the size pays for each of them. */
  ghost predicate Inv(limit: nat, k: nat, s: State) {
    && (forall b | b in s.buckets :: BucketOk(b))
    && s.size == Sum(Share, s.buckets)
    && s.size + InFlight(s) <= limit + k - 1
  }

  /** A step of bucket i keeps its counter right and moves the shared size by its share. */
  ghost predicate Kept(limit: nat, s: State, t: State, i: nat) {
    && i < |s.buckets| == |t.buckets| && t.buckets == s.buckets[i := t.buckets[i]]
    && BucketOk(t.buckets[i])
    && t.size - s.size == Share(t.buckets[i]) - Share(s.buckets[i])
    && (|| t.size + Pending(t.buckets[i]) <= s.size + Pending(s.buckets[i])
        || (s.size < limit && t.size == s.size))
  }

  lemma InsertTrackedKept(limit: nat, s: State, t: State, i: nat, k: Key)
    requires i < |s.buckets| && InsertTracked(s, t, i, k) && BucketOk(s.buckets[i])
    ensures Kept(limit, s, t, i)
  {
    assert Tracked(t.buckets[i]) == Tracked(s.buckets[i]);
  }

  lemma StoreKept(limit: nat, s: State, t: State, i: nat)
    requires i < |s.buckets| && Store(s, t, i) && BucketOk(s.buckets[i])
    ensures Kept(limit, s, t, i)
  {
    assert Tracked(t.buckets[i]) == Tracked(s.buckets[i]) + {s.buckets[i].phase.key};
  }

  lemma RotateKept(limit: nat, s: State, t: State, i: nat)
    requires i < |s.buckets| && (Rotate(s, t, i) || Reset(s, t, i)) && BucketOk(s.buckets[i])
    ensures Kept(limit, s, t, i)
  {
    assert Tracked(t.buckets[i]) == t.buckets[i].prev;
    SubsetSize(t.buckets[i].prev, Tracked(s.buckets[i]));
  }

  lemma BucketStepKept(limit: nat, s: State, t: State, i: nat)
    requires i < |s.buckets| && Step(limit, s, t, i) && BucketOk(s.buckets[i])
    ensures Kept(limit, s, t, i)
  {
    if k :| InsertTracked(s, t, i, k) {
      InsertTrackedKept(limit, s, t, i, k);
    } else if Store(s, t, i) {
      StoreKept(limit, s, t, i);
    } else if Rotate(s, t, i) || Reset(s, t, i) {
      RotateKept(limit, s, t, i);
    }
  }

  lemma StepKeepsInv(limit: nat, k: nat, s: State, t: State)
    requires Inv(limit, k, s) && Next(limit, s, t) && InFlight(t) <= k
    ensures Inv(limit, k, t) && |t.buckets| == |s.buckets|
  {
    var i :| 0 <= i < |s.buckets| && Step(limit, s, t, i);
    BucketStepKept(limit, s, t, i);
    SumUpdate(Share, s.buckets, i, t.buckets[i]);
    SumUpdate(Pending, s.buckets, i, t.buckets[i]);
    forall b | b in t.buckets ensures BucketOk(b) {
      var j :| 0 <= j < |t.buckets| && t.buckets[j] == b;
      assert j != i ==> b == s.buckets[j];
    }
  }

  lemma InitInv(limit: nat, k: nat, s: State)
    requires Init(s) && 1 <= k
    ensures Inv(limit, k, s)
  {
    SumBounds(Share, s.buckets, 0, 0);
    SumBounds(Pending, s.buckets, 0, 0);
  }

  lemma {:induction false} RunKeepsInv(limit: nat, k: nat, run: seq<State>)
    requires IsRun(limit, run) && 1 <= k
    requires forall s | s in run :: InFlight(s) <= k
    ensures Inv(limit, k, run[|run| - 1])
    ensures |run[|run| - 1].buckets| == |run[0].buckets|
  {
    var n := |run| - 1;
    if n == 0 {
      InitInv(limit, k, run[0]);
    } else {
      RunKeepsInv(limit, k, run[..n]);
      assert run[n] in run && Next(limit, run[n - 1], run[n]);
      StepKeepsInv(limit, k, run[n - 1], run[n]);
    }
  }

  lemma BucketCountConstant(limit: nat, run: seq<State>, j: nat)
    requires IsRun(limit, run) && j < |run|
    ensures |run[j].buckets| == |run[0].buckets|
  {
    if j > 0 {
      BucketCountConstant(limit, run, j - 1);
      assert Next(limit, run[j - 1], run[j]);
    }
  }

  /* Main results */

  /** In a run where at most k inserts are ever in flight at once, the shared counter stays
      between 0 and limit + k - 1. */
  lemma OvershootBoundedByInFlight(limit: nat, k: nat, run: seq<State>)
    requires IsRun(limit, run) && 1 <= k
    requires forall s | s in run :: InFlight(s) <= k
    ensures 0 <= run[|run| - 1].size <= limit + k - 1
  {
    RunKeepsInv(limit, k, run);
    var s := run[|run| - 1];
    SumBounds(Pending, s.buckets, 0, 1);
    SharesNonNegative(s.buckets);
  }

  lemma {:induction false} SharesNonNegative(bs: seq<Bucket>)
    requires forall b | b in bs :: BucketOk(b)
    ensures Sum(Share, bs) >= 0
  {
    if bs != [] {
      assert BucketOk(bs[0]);
      SharesNonNegative(bs[1..]);
    }
  }

  /** Whatever the interleaving, the limit is exceeded by less than the number of buckets. */
  lemma OvershootBoundedByBuckets(limit: nat, run: seq<State>)
    requires IsRun(limit, run)
    ensures 0 <= run[|run| - 1].size <= limit + |run[0].buckets| - 1
  {
    forall s | s in run ensures InFlight(s) <= |run[0].buckets| {
      var j :| 0 <= j < |run| && run[j] == s;
      BucketCountConstant(limit, run, j);
      SumBounds(Pending, s.buckets, 0, 1);
    }
    OvershootBoundedByInFlight(limit, |run[0].buckets|, run);
  }

  /** Whenever nobody holds a lock, every counter counts exactly what it stands for. */
  lemma QuiescentCountersExact(limit: nat, run: seq<State>, i: nat)
    requires IsRun(limit, run) && i < |run[0].buckets|
    requires forall b | b in run[|run| - 1].buckets :: b.phase == Free
    ensures var s := run[|run| - 1];
            && |s.buckets| == |run[0].buckets|
            && s.buckets[i].counted == |s.buckets[i].groups + s.buckets[i].prev|
            && s.size == Sum((b: Bucket) => |b.groups + b.prev|, s.buckets)
  {
    forall s | s in run ensures InFlight(s) <= |run[0].buckets| {
      var j :| 0 <= j < |run| && run[j] == s;
      BucketCountConstant(limit, run, j);
      SumBounds(Pending, s.buckets, 0, 1);
    }
    RunKeepsInv(limit, |run[0].buckets|, run);
    var s := run[|run| - 1];
    assert BucketOk(s.buckets[i]);
    SumOfFree(s.buckets);
  }

  lemma {:induction false} SumOfFree(bs: seq<Bucket>)
    requires forall b | b in bs :: b.phase == Free && BucketOk(b)
    ensures Sum(Share, bs) == Sum((b: Bucket) => |b.groups + b.prev|, bs)
  {
    if bs != [] {
      assert bs[0] in bs;
      SumOfFree(bs[1..]);
    }
  }

  /* The bound is attained */

  ghost predicate Reachable(limit: nat, buckets: nat, s: State) {
    exists run: seq<State> :: IsRun(limit, run) && |run[0].buckets| == buckets && run[|run| - 1] == s
  }

  lemma Extend(limit: nat, buckets: nat, s: State, t: State, i: nat)
    requires Reachable(limit, buckets, s) && i < |s.buckets| && Step(limit, s, t, i)
    ensures Reachable(limit, buckets, t)
  {
    var run: seq<State> :| IsRun(limit, run) && |run[0].buckets| == buckets && run[|run| - 1] == s;
    var longer := run + [t];
    assert Next(limit, s, t);
    assert IsRun(limit, longer) by {
      forall j | 0 <= j < |longer| - 1 ensures Next(limit, longer[j], longer[j + 1]) {
        assert j < |run| - 1 ==> Next(limit, run[j], run[j + 1]);
      }
    }
  }

  /** A pending insert raises both counters. */
  lemma Publishes(limit: nat, buckets: nat, s: State, i: nat) returns (t: State)
    requires Reachable(limit, buckets, s) && i < |s.buckets| && s.buckets[i].phase.Passed?
    ensures Reachable(limit, buckets, t)
    ensures var b := s.buckets[i];
            t == State(s.size + 1, s.buckets[i := b.(counted := b.counted + 1, phase := Admitted(b.phase.key))])
  {
    var b := s.buckets[i];
    var u := s.(buckets := s.buckets[i := b.(counted := b.counted + 1, phase := Counted(b.phase.key))]);
    Extend(limit, buckets, s, u, i);
    t := State(s.size + 1, s.buckets[i := b.(counted := b.counted + 1, phase := Admitted(b.phase.key))]);
    assert t.buckets == u.buckets[i := u.buckets[i].(phase := Admitted(b.phase.key))];
    Extend(limit, buckets, u, t, i);
  }

  ghost predicate HoldsKeysBelow(s: State, buckets: nat, n: nat) {
    && |s.buckets| == buckets
    && forall b, k | b in s.buckets && k in Tracked(b) :: k < n
  }

  lemma Passes(limit: nat, buckets: nat, s: State, n: nat) returns (t: State)
    requires 0 < buckets && n < TWO_TO_THE_64 && s.size < limit
    requires Reachable(limit, buckets, s) && HoldsKeysBelow(s, buckets, n)
    requires s.buckets[n % buckets].phase == Free
    ensures Reachable(limit, buckets, t) && HoldsKeysBelow(t, buckets, n)
    ensures t == s.(buckets := s.buckets[n % buckets := s.buckets[n % buckets].(phase := Passed(n))])
  {
    var i := n % buckets;
    t := s.(buckets := s.buckets[i := s.buckets[i].(phase := Passed(n))]);
    assert s.buckets[i] in s.buckets;
    assert Pass(limit, s, t, i, n);
    Extend(limit, buckets, s, t, i);
    forall b, k | b in t.buckets && k in Tracked(b) ensures k < n {
      var j :| 0 <= j < |t.buckets| && t.buckets[j] == b;
      assert Tracked(s.buckets[j]) == Tracked(b) && s.buckets[j] in s.buckets;
    }
  }

  /** The keys below n can be admitted one after the other. */
  lemma {:induction false} FillsTo(limit: nat, buckets: nat, n: nat) returns (s: State)
    requires 0 < buckets && n <= limit && n <= TWO_TO_THE_64
    ensures Reachable(limit, buckets, s) && HoldsKeysBelow(s, buckets, n) && s.size == n
    ensures forall b | b in s.buckets :: b.phase == Free
  {
    if n == 0 {
      s := State(0, seq(buckets, i => Bucket({}, {}, 0, Free)));
      assert IsRun(limit, [s]);
    } else {
      var a := FillsTo(limit, buckets, n - 1);
      var i := (n - 1) % buckets;
      assert a.buckets[i] in a.buckets;
      var b := Passes(limit, buckets, a, n - 1);
      var c := Publishes(limit, buckets, b, i);
      s := c.(buckets := c.buckets[i := c.buckets[i].(groups := c.buckets[i].groups + {n - 1}, phase := Free)]);
      assert Store(c, s, i);
      Extend(limit, buckets, c, s, i);
      forall b, k | b in s.buckets && k in Tracked(b) ensures k < n {
        var j :| 0 <= j < |s.buckets| && s.buckets[j] == b;
        assert a.buckets[j] in a.buckets;
        assert Tracked(b) <= Tracked(a.buckets[j]) + {n - 1};
      }
      forall b | b in s.buckets ensures b.phase == Free {
        var j :| 0 <= j < |s.buckets| && s.buckets[j] == b;
        assert a.buckets[j] in a.buckets;
      }
    }
  }

  lemma SameResidueFarApart(a: nat, b: nat, m: nat)
    requires 0 < m && a < b
    ensures a % m == b % m ==> a + m <= b
  {
    if a % m == b % m {
      var p, q := a / m, b / m;
      assert b - a == (q - p) * m;
      assert q - p <= 0 ==> (q - p) * m <= 0;
      assert q - p >= 1 ==> (q - p) * m >= m;
    }
  }

  /** The bucket a key is routed to. */
  ghost function Home(s: State, k: nat): Bucket
    requires s.buckets != []
  {
    s.buckets[k % |s.buckets|]
  }

  /** From just below the limit, the inserts of j buckets can all pass the check. */
  lemma {:induction false} AllPass(limit: nat, buckets: nat, j: nat) returns (s: State)
    requires 0 < limit && j <= buckets && 0 < buckets && limit - 1 + buckets <= TWO_TO_THE_64
    ensures Reachable(limit, buckets, s) && HoldsKeysBelow(s, buckets, limit - 1 + j)
    ensures s.size == limit - 1 && InFlight(s) == j
    ensures forall k: nat | limit - 1 + j <= k < limit - 1 + buckets :: Home(s, k).phase == Free
    ensures forall b | b in s.buckets :: b.phase.Free? || b.phase.Passed?
  {
    if j == 0 {
      s := FillsTo(limit, buckets, limit - 1);
      SumBounds(Pending, s.buckets, 0, 0);
      forall k: nat ensures Home(s, k).phase == Free {
        assert Home(s, k) in s.buckets;
      }
    } else {
      var a := AllPass(limit, buckets, j - 1);
      var n := limit - 1 + (j - 1);
      assert Home(a, n).phase == Free;
      s := Passes(limit, buckets, a, n);
      SumUpdate(Pending, a.buckets, n % buckets, s.buckets[n % buckets]);
      forall k: nat | n < k < limit - 1 + buckets ensures Home(s, k).phase == Free {
        SameResidueFarApart(n, k, buckets);
        assert Home(a, k).phase == Free;
      }
      forall b | b in s.buckets ensures b.phase.Free? || b.phase.Passed? {
        var i :| 0 <= i < |s.buckets| && s.buckets[i] == b;
        assert a.buckets[i] in a.buckets;
      }
    }
  }

  /** Inserts in flight can all be published. */
  lemma {:induction false} AllPublish(limit: nat, buckets: nat, s: State) returns (t: State)
    requires Reachable(limit, buckets, s)
    requires forall b | b in s.buckets :: b.phase.Free? || b.phase.Passed? || b.phase.Admitted?
    ensures Reachable(limit, buckets, t) && t.size == s.size + InFlight(s)
    decreases InFlight(s)
  {
    if i :| 0 <= i < |s.buckets| && s.buckets[i].phase.Passed? {
      var u := Publishes(limit, buckets, s, i);
      SumUpdate(Pending, s.buckets, i, u.buckets[i]);
      SumBounds(Pending, u.buckets, 0, 1);
      forall b | b in u.buckets ensures b.phase.Free? || b.phase.Passed? || b.phase.Admitted? {
        var j :| 0 <= j < |u.buckets| && u.buckets[j] == b;
        assert s.buckets[j] in s.buckets;
      }
      t := AllPublish(limit, buckets, u);
    } else {
      forall b | b in s.buckets ensures Pending(b) == 0 {
        var j :| 0 <= j < |s.buckets| && s.buckets[j] == b;
      }
      SumBounds(Pending, s.buckets, 0, 0);
      t := s;
    }
  }

  /** The bound is attained for every limit and bucket count that 64-bit keys can fill. */
  lemma OvershootAttained(limit: nat, buckets: nat) returns (s: State)
    requires 0 < limit && 0 < buckets && limit - 1 + buckets <= TWO_TO_THE_64
    ensures Reachable(limit, buckets, s) && s.size == limit + buckets - 1
  {
    var a := AllPass(limit, buckets, buckets);
    s := AllPublish(limit, buckets, a);
  }
}
