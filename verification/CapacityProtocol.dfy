/** The capacity of one Bloom filter that many writers use at once.

    A writer looks its fingerprint up, then reads the size of the filter, and then adds. The check
    against the capacity and the add are separate steps, and an add counts itself only when it is
    done, so writers that pass the check together can fill the filter beyond its capacity. */
module CapacityProtocol {
  import opened Base
  import Bloom
  import RotationLoops
  import Shared = BloomProtocol

  /** Where a writer is; Free means it does not use this filter. */
  datatype Stage =
    | Free
    | Seeking(h: Uint64)   // inside contains
    | Absent(h: Uint64)    // contains returned false; about to read the size
    | Admitted(h: Uint64)  // the size was below the capacity; about to add, or inside add

  datatype State = State(filter: Shared.State, stages: seq<Stage>)

  ghost predicate Init(capacity: Uint64, s: State) {
    && Shared.Init(s.filter) && |s.filter.words| == Bloom.WordCount(capacity)
    && |s.stages| == |s.filter.threads| && forall k | 0 <= k < |s.stages| :: s.stages[k] == Free
  }

  /** Writer k can take steps. */
  ghost predicate CanMove(s: State, k: nat) {
    Shared.PlacesInRange(s.filter) && k < |s.stages| == |s.filter.threads|
  }

  /** Only fingerprints of its slot come to the filter. */
  ghost predicate LookUp(slot: nat, s: State, t: State, k: nat, h: Uint64)
    requires CanMove(s, k)
  {
    && s.stages[k] == Free && h % SLOTS == slot
    && Shared.BeginContains(s.filter, t.filter, k, h) && t.stages == s.stages[k := Seeking(h)]
  }

  ghost predicate Seek(s: State, t: State, k: nat)
    requires CanMove(s, k)
  {
    && s.stages[k].Seeking?
    && (|| (Shared.SeesSet(s.filter, t.filter, k) && t.stages == s.stages)
        || (Shared.ReportsPresent(s.filter, t.filter, k) && t.stages == s.stages[k := Free])
        || (Shared.ReportsAbsent(s.filter, t.filter, k) && t.stages == s.stages[k := Absent(s.stages[k].h)]))
  }

  ghost predicate Check(capacity: nat, s: State, t: State, k: nat)
    requires CanMove(s, k)
  {
    && s.stages[k].Absent? && t.filter == s.filter
    && t.stages == s.stages[k := if s.filter.size < capacity then Admitted(s.stages[k].h) else Free]
  }

  ghost predicate Add(s: State, t: State, k: nat)
    requires CanMove(s, k)
  {
    && s.stages[k].Admitted? && t.stages == s.stages
    && (|| Shared.BeginAdd(s.filter, t.filter, k, s.stages[k].h) || Shared.Load(s.filter, t.filter, k)
        || Shared.Skip(s.filter, t.filter, k) || Shared.Swap(s.filter, t.filter, k)
        || Shared.SwapFails(s.filter, t.filter, k))
  }

  ghost predicate Finish(s: State, t: State, k: nat)
    requires CanMove(s, k)
  {
    s.stages[k].Admitted? && Shared.EndAdd(s.filter, t.filter, k) && t.stages == s.stages[k := Free]
  }

  ghost predicate Step(capacity: nat, slot: nat, s: State, t: State, k: nat)
    requires CanMove(s, k)
  {
    || (exists h :: LookUp(slot, s, t, k, h)) || Seek(s, t, k) || Check(capacity, s, t, k)
    || Add(s, t, k) || Finish(s, t, k)
  }

  ghost predicate Next(capacity: nat, slot: nat, s: State, t: State) {
    exists k: nat :: CanMove(s, k) && Step(capacity, slot, s, t, k)
  }

  ghost predicate IsRun(capacity: Uint64, slot: nat, run: seq<State>) {
    && run != []
    && if |run| == 1 then Init(capacity, run[0])
       else IsRun(capacity, slot, run[..|run| - 1]) && Next(capacity, slot, run[|run| - 2], run[|run| - 1])
  }

  /* The filter takes the steps of the lock-free one */

  lemma FilterSteps(capacity: nat, slot: nat, s: State, t: State, k: nat)
    requires CanMove(s, k) && Step(capacity, slot, s, t, k)
    ensures t.filter == s.filter || Shared.Step(s.filter, t.filter, k)
  {
  }

  /** So what holds of the lock-free filter holds of this one. */
  lemma {:induction false} FilterRun(capacity: Uint64, slot: nat, run: seq<State>) returns (r: seq<Shared.State>)
    requires IsRun(capacity, slot, run)
    ensures Shared.IsRun(r) && r[|r| - 1] == run[|run| - 1].filter && r[0] == run[0].filter
  {
    var n := |run| - 1;
    if n == 0 {
      r := [run[0].filter];
    } else {
      r := FilterRun(capacity, slot, run[..n]);
      var k: nat :| CanMove(run[n - 1], k) && Step(capacity, slot, run[n - 1], run[n], k);
      FilterSteps(capacity, slot, run[n - 1], run[n], k);
      if run[n].filter != run[n - 1].filter {
        assert Shared.Next(r[|r| - 1], run[n].filter);
        r := LongerRun(r, run[n].filter);
      }
    }
  }

  lemma LongerRun(r: seq<Shared.State>, f: Shared.State) returns (longer: seq<Shared.State>)
    requires Shared.IsRun(r) && Shared.Next(r[|r| - 1], f)
    ensures Shared.IsRun(longer) && longer[|longer| - 1] == f && longer[0] == r[0]
  {
    longer := r + [f];
    forall j | 0 <= j < |longer| - 1 ensures Shared.Next(longer[j], longer[j + 1]) {
      assert j < |r| - 1 ==> Shared.Next(r[j], r[j + 1]);
    }
  }

  /* The invariant */

  /** One while a writer has passed the check and its add is not over. */
  ghost function Pending(stage: Stage): int { if stage.Admitted? then 1 else 0 }

  ghost function InFlight(s: State): int { Sum(Pending, s.stages) }

  /** Whoever is inside add has passed the check, and the size pays for each of them. */
  ghost predicate Inv(capacity: nat, writers: nat, s: State) {
    && |s.stages| == |s.filter.threads|
    && (forall k | 0 <= k < |s.stages| :: Shared.Adding(s.filter.threads[k]) ==> s.stages[k].Admitted?)
    && s.filter.size + InFlight(s) <= capacity + writers - 1
  }

  /** What a step of writer k does to the size. */
  ghost predicate Paid(capacity: nat, s: State, t: State, k: nat)
    requires CanMove(s, k)
  {
    && |t.stages| == |t.filter.threads| == |s.stages|
    && t.stages == s.stages[k := t.stages[k]] && t.filter.threads == s.filter.threads[k := t.filter.threads[k]]
    && (Shared.Adding(t.filter.threads[k]) ==> t.stages[k].Admitted?)
    && (|| t.filter.size + Pending(t.stages[k]) <= s.filter.size + Pending(s.stages[k])
        || t.filter.size == s.filter.size < capacity)
  }

  lemma StepPays(capacity: nat, slot: nat, s: State, t: State, k: nat)
    requires CanMove(s, k) && Step(capacity, slot, s, t, k)
    requires Shared.Adding(s.filter.threads[k]) ==> s.stages[k].Admitted?
    ensures Paid(capacity, s, t, k)
  {
  }

  lemma PaidKeepsInv(capacity: nat, writers: nat, s: State, t: State, k: nat)
    requires CanMove(s, k) && Inv(capacity, writers, s) && Paid(capacity, s, t, k) && InFlight(t) <= writers
    ensures Inv(capacity, writers, t)
  {
    SumUpdate(Pending, s.stages, k, t.stages[k]);
  }

  lemma StepKeepsInv(capacity: nat, slot: nat, writers: nat, s: State, t: State)
    requires Inv(capacity, writers, s) && Next(capacity, slot, s, t) && InFlight(t) <= writers
    ensures Inv(capacity, writers, t) && |t.stages| == |s.stages|
  {
    var k: nat :| CanMove(s, k) && Step(capacity, slot, s, t, k);
    StepPays(capacity, slot, s, t, k);
    PaidKeepsInv(capacity, writers, s, t, k);
  }

  lemma {:induction false} RunKeepsInv(capacity: Uint64, slot: nat, writers: nat, run: seq<State>)
    requires IsRun(capacity, slot, run) && 1 <= writers
    requires forall s | s in run :: InFlight(s) <= writers
    ensures Inv(capacity, writers, run[|run| - 1])
    ensures |run[|run| - 1].stages| == |run[0].stages|
  {
    var n := |run| - 1;
    if n == 0 {
      SumBounds(Pending, run[0].stages, 0, 0);
    } else {
      RunKeepsInv(capacity, slot, writers, run[..n]);
      assert run[n] in run;
      StepKeepsInv(capacity, slot, writers, run[n - 1], run[n]);
    }
  }

  lemma NextKeepsShape(capacity: nat, slot: nat, s: State, t: State)
    requires Next(capacity, slot, s, t)
    ensures |t.stages| == |s.stages| && |t.filter.words| == |s.filter.words|
  {
    var k: nat :| CanMove(s, k) && Step(capacity, slot, s, t, k);
  }

  lemma FewInFlight(s: State)
    ensures InFlight(s) <= |s.stages|
  {
    SumBounds(Pending, s.stages, 0, 1);
  }

  lemma {:induction false} WritersConstant(capacity: Uint64, slot: nat, run: seq<State>)
    requires IsRun(capacity, slot, run)
    ensures |run[|run| - 1].stages| == |run[0].stages|
    ensures |run[|run| - 1].filter.words| == Bloom.WordCount(capacity)
    ensures forall s | s in run :: InFlight(s) <= |run[0].stages|
  {
    var n := |run| - 1;
    if n > 0 {
      WritersConstant(capacity, slot, run[..n]);
      NextKeepsShape(capacity, slot, run[n - 1], run[n]);
      assert run == run[..n] + [run[n]];
    }
    FewInFlight(run[n]);
  }

  /* Main results */

  /** If at most so many writers are ever between their check and the end of their add, the filter
      counts less than that many series beyond its capacity, and so few bits are set. */
  lemma OvershootBoundedByInFlight(capacity: Uint64, slot: nat, writers: nat, run: seq<State>)
    requires IsRun(capacity, slot, run) && 1 <= writers
    requires forall s | s in run :: InFlight(s) <= writers
    ensures var f := run[|run| - 1].filter;
            && f.size <= capacity + writers - 1
            && |Bloom.SetBits(f.words)| <= Bloom.HASHES_COUNT * (capacity + writers - 1)
  {
    RunKeepsInv(capacity, slot, writers, run);
    var r := FilterRun(capacity, slot, run);
    Shared.RunKeepsInv(r);
    InvBounds(capacity, writers, run[|run| - 1]);
  }

  lemma InvBounds(capacity: nat, writers: nat, s: State)
    requires Inv(capacity, writers, s) && Shared.Inv(s.filter)
    ensures s.filter.size <= capacity + writers - 1
    ensures |Bloom.SetBits(s.filter.words)| <= Bloom.HASHES_COUNT * (capacity + writers - 1)
  {
    SumBounds(Pending, s.stages, 0, 1);
    forall k | 0 <= k < |s.stages|
      ensures Shared.Flips(s.filter.threads[k]) <= Bloom.HASHES_COUNT * Pending(s.stages[k])
    {
      assert Shared.ThreadOk(s.filter, s.filter.threads[k]);
    }
    FlipsArePending(s.filter.threads, s.stages);
  }

  /** Each add that has flipped bits belongs to a writer that passed the check. */
  lemma {:induction false} FlipsArePending(threads: seq<Shared.Thread>, stages: seq<Stage>)
    requires |threads| == |stages|
    requires forall k | 0 <= k < |stages| :: Shared.Flips(threads[k]) <= Bloom.HASHES_COUNT * Pending(stages[k])
    ensures Sum(Shared.Flips, threads) <= Bloom.HASHES_COUNT * Sum(Pending, stages)
  {
    if stages != [] {
      FlipsArePending(threads[1..], stages[1..]);
    }
  }

  /** So with that many writers at all. A filter as large as its capacity asks for has at most a quarter
      of its bits set, and four more for each writer but one. */
  lemma OvershootBoundedByWriters(capacity: Uint64, slot: nat, run: seq<State>)
    requires IsRun(capacity, slot, run) && run[0].stages != []
    ensures var f := run[|run| - 1].filter;
            && f.size <= capacity + |run[0].stages| - 1
            && (capacity <= TWO_TO_THE_64 / Bloom.BITS_PER_ITEM - 4 ==>
                  4 * (|Bloom.SetBits(f.words)| - Bloom.HASHES_COUNT * (|run[0].stages| - 1)) <= Shared.MaxBits(f))
  {
    WritersConstant(capacity, slot, run);
    OvershootBoundedByInFlight(capacity, slot, |run[0].stages|, run);
    if 0 < capacity {
      Bloom.WordCountSuffices(capacity);
    }
  }

  /* The bound is attained */

  /** What holds of the states that runs with so many writers come to. */
  type Reach = State -> bool

  ghost predicate Follows(capacity: Uint64, slot: nat, writers: nat, reach: Reach) {
    && (forall s | Init(capacity, s) && |s.stages| == writers :: reach(s))
    && (forall s, t | reach(s) && Next(capacity, slot, s, t) :: reach(t))
  }

  ghost predicate Reachable(capacity: Uint64, slot: nat, writers: nat, s: State) {
    exists run: seq<State> ::
      IsRun(capacity, slot, run) && |run[0].stages| == writers && run[|run| - 1] == s
  }

  ghost function Reached(capacity: Uint64, slot: nat, writers: nat): Reach {
    s => Reachable(capacity, slot, writers, s)
  }

  lemma RunsFollow(capacity: Uint64, slot: nat, writers: nat)
    ensures Follows(capacity, slot, writers, Reached(capacity, slot, writers))
  {
    forall s | Init(capacity, s) && |s.stages| == writers ensures Reachable(capacity, slot, writers, s) {
      assert IsRun(capacity, slot, [s]);
    }
    forall s, t | Reachable(capacity, slot, writers, s) && Next(capacity, slot, s, t)
      ensures Reachable(capacity, slot, writers, t)
    {
      var run: seq<State> :|
        IsRun(capacity, slot, run) && |run[0].stages| == writers && run[|run| - 1] == s;
      assert (run + [t])[..|run|] == run;
      assert IsRun(capacity, slot, run + [t]);
    }
  }

  lemma Moves(capacity: Uint64, slot: nat, writers: nat, reach: Reach, s: State, t: State, k: nat)
    requires Follows(capacity, slot, writers, reach)
    requires reach(s) && CanMove(s, k) && Step(capacity, slot, s, t, k)
    ensures reach(t)
  {
  }

  /** All rounds of h come to the same bit, number h. */
  ghost predicate Plain(f: Shared.State, h: Uint64) { forall i: nat :: f.place(h, i) == h }

  /** The writer has come to this stage, inside or outside add and contains. */
  ghost predicate Moved(s: State, t: State, k: nat, th: Shared.Thread, stage: Stage) {
    && k < |s.stages| == |s.filter.threads|
    && t.stages == s.stages[k := stage] && t.filter.threads == s.filter.threads[k := th]
    && t.filter.place == s.filter.place && |t.filter.words| == |s.filter.words|
  }

  lemma Looks(capacity: Uint64, slot: nat, writers: nat, reach: Reach, s: State, k: nat, h: Uint64)
    returns (t: State)
    requires Follows(capacity, slot, writers, reach)
    requires reach(s) && CanMove(s, k) && h % SLOTS == slot && Plain(s.filter, h)
    requires s.stages[k] == Free && s.filter.threads[k] == Shared.Idle && h !in Bloom.SetBits(s.filter.words)
    ensures reach(t) && Moved(s, t, k, Shared.Idle, Absent(h))
    ensures t.filter.words == s.filter.words && t.filter.size == s.filter.size
  {
    var u := State(Shared.With(s.filter, k, Shared.Checking(h, 0)), s.stages[k := Seeking(h)]);
    assert LookUp(slot, s, u, k, h);
    Moves(capacity, slot, writers, reach, s, u, k);
    t := State(Shared.With(u.filter, k, Shared.Idle), u.stages[k := Absent(h)]);
    assert s.filter.place(h, 0) == h;
    assert Shared.ReportsAbsent(u.filter, t.filter, k);
    assert Seek(u, t, k);
    Moves(capacity, slot, writers, reach, u, t, k);
  }

  /** A fingerprint whose bit is clear passes the check below the capacity. */
  lemma Passes(capacity: Uint64, slot: nat, writers: nat, reach: Reach, s: State, k: nat, h: Uint64)
    returns (t: State)
    requires Follows(capacity, slot, writers, reach)
    requires reach(s) && CanMove(s, k) && h % SLOTS == slot && Plain(s.filter, h) && s.filter.size < capacity
    requires s.stages[k] == Free && s.filter.threads[k] == Shared.Idle && h !in Bloom.SetBits(s.filter.words)
    ensures reach(t) && Moved(s, t, k, Shared.Idle, Admitted(h))
    ensures t.filter.words == s.filter.words && t.filter.size == s.filter.size
  {
    var u := Looks(capacity, slot, writers, reach, s, k, h);
    t := u.(stages := u.stages[k := Admitted(h)]);
    assert Check(capacity, u, t, k);
    Moves(capacity, slot, writers, reach, u, t, k);
  }

  /** Its add flips its bit in the first round. */
  lemma Flips(capacity: Uint64, slot: nat, writers: nat, reach: Reach, s: State, k: nat, h: Uint64)
    returns (t: State)
    requires Follows(capacity, slot, writers, reach)
    requires reach(s) && CanMove(s, k) && Plain(s.filter, h)
    requires s.stages[k] == Admitted(h) && s.filter.threads[k] == Shared.Idle && h !in Bloom.SetBits(s.filter.words)
    ensures reach(t) && Moved(s, t, k, Shared.Loading(h, 1, true, 0), Admitted(h)) && t.filter.size == s.filter.size
    ensures Bloom.SetBits(t.filter.words) == Bloom.SetBits(s.filter.words) + {h}
  {
    var words := s.filter.words;
    assert s.filter.place(h, 0) == h;
    var u := s.(filter := Shared.With(s.filter, k, Shared.Loading(h, 0, false, 0))
                                .(started := s.filter.started + {h}));
    assert Shared.BeginAdd(s.filter, u.filter, k, h);
    Moves(capacity, slot, writers, reach, s, u, k);
    var v := u.(filter := Shared.With(u.filter, k, Shared.Loaded(h, 0, false, 0, words[h / 64])));
    assert Shared.Load(u.filter, v.filter, k);
    Moves(capacity, slot, writers, reach, u, v, k);
    t := v.(filter := Shared.With(v.filter, k, Shared.Loading(h, 1, true, 0))
                            .(words := words[h / 64 := words[h / 64] + {h % 64}]));
    assert Shared.Swap(v.filter, t.filter, k);
    Moves(capacity, slot, writers, reach, v, t, k);
    Bloom.SetBitAdds(words, h);
  }

  /** And finds it set in the others. */
  lemma {:induction false} SkipsRest(capacity: Uint64, slot: nat, writers: nat, reach: Reach, s: State, k: nat,
                                     h: Uint64, i: nat)
    returns (t: State)
    requires Follows(capacity, slot, writers, reach)
    requires reach(s) && CanMove(s, k) && Plain(s.filter, h) && i <= Bloom.HASHES_COUNT
    requires s.stages[k] == Admitted(h) && s.filter.threads[k] == Shared.Loading(h, i, true, 0)
    requires h in Bloom.SetBits(s.filter.words)
    ensures reach(t) && Moved(s, t, k, Shared.Loading(h, Bloom.HASHES_COUNT, true, 0), Admitted(h))
    ensures t.filter.words == s.filter.words && t.filter.size == s.filter.size
    decreases Bloom.HASHES_COUNT - i
  {
    if i == Bloom.HASHES_COUNT {
      t := s;
    } else {
      assert s.filter.place(h, i) == h;
      var u := s.(filter := Shared.With(s.filter, k, Shared.Loaded(h, i, true, 0, s.filter.words[h / 64])));
      assert Shared.Load(s.filter, u.filter, k);
      Moves(capacity, slot, writers, reach, s, u, k);
      var v := u.(filter := Shared.With(u.filter, k, Shared.Loading(h, i + 1, true, 0)));
      assert Shared.Skip(u.filter, v.filter, k);
      Moves(capacity, slot, writers, reach, u, v, k);
      t := SkipsRest(capacity, slot, writers, reach, v, k, h, i + 1);
    }
  }

  /** So the add counts one more series. */
  lemma Adds(capacity: Uint64, slot: nat, writers: nat, reach: Reach, s: State, k: nat, h: Uint64)
    returns (t: State)
    requires Follows(capacity, slot, writers, reach)
    requires reach(s) && CanMove(s, k) && Plain(s.filter, h)
    requires s.stages[k] == Admitted(h) && s.filter.threads[k] == Shared.Idle && h !in Bloom.SetBits(s.filter.words)
    ensures reach(t) && Moved(s, t, k, Shared.Idle, Free) && t.filter.size == s.filter.size + 1
    ensures Bloom.SetBits(t.filter.words) == Bloom.SetBits(s.filter.words) + {h}
  {
    var u := Flips(capacity, slot, writers, reach, s, k, h);
    var v := SkipsRest(capacity, slot, writers, reach, u, k, h, 1);
    t := State(Shared.With(v.filter, k, Shared.Idle).(size := v.filter.size + 1, returned := v.filter.returned + {h}),
               v.stages[k := Free]);
    assert Shared.EndAdd(v.filter, t.filter, k) && Finish(v, t, k);
    Moves(capacity, slot, writers, reach, v, t, k);
  }

  /** The n-th fingerprint of the slot. */
  function Nth(slot: nat, n: nat): nat { slot + SLOTS * n }

  /** The filter has room for the first `room` fingerprints of the slot, each in a bit of its own, and
      holds none from the n-th on. */
  ghost predicate Holds(s: State, slot: nat, writers: nat, room: nat, n: nat) {
    && |s.stages| == |s.filter.threads| == writers && Shared.PlacesInRange(s.filter)
    && (forall m: nat | m < room :: Nth(slot, m) < TWO_TO_THE_64 && Plain(s.filter, Nth(slot, m)))
    && (forall p | p in Bloom.SetBits(s.filter.words) :: p < Nth(slot, n))
  }

  ghost predicate Resting(s: State, k: nat)
    requires k < |s.stages| == |s.filter.threads|
  {
    s.stages[k] == Free && s.filter.threads[k] == Shared.Idle
  }

  /** A hash without a high half comes to one bit in every round. */
  lemma PositionOfSmall(h: Uint64, i: nat, maxBits: nat)
    requires h < TWO_TO_THE_32 && h < maxBits
    ensures Bloom.Position(h, i, maxBits) == h
  {
    assert h / TWO_TO_THE_32 == 0 && h % TWO_TO_THE_32 == h;
    assert i * (h / TWO_TO_THE_32) == 0;
    RotationLoops.ModOfSum(h, 0, h, maxBits);
  }

  lemma PlainPlaces(f: Shared.State, slot: nat, room: nat, m: nat)
    requires Shared.PlacesArePositions(f) && slot < SLOTS && m < room
    requires SLOTS * room <= Shared.MaxBits(f) && SLOTS * room <= TWO_TO_THE_32
    ensures Nth(slot, m) < TWO_TO_THE_64 && Plain(f, Nth(slot, m))
  {
    var h: Uint64 := Nth(slot, m);
    forall i: nat ensures f.place(h, i) == h {
      PositionOfSmall(h, i, Shared.MaxBits(f));
    }
  }

  lemma StartsEmpty(capacity: Uint64, slot: nat, writers: nat, reach: Reach, room: nat) returns (s: State)
    requires Follows(capacity, slot, writers, reach) && slot < SLOTS && 0 < room
    requires SLOTS * room <= 64 * Bloom.WordCount(capacity) && SLOTS * room <= TWO_TO_THE_32
    ensures reach(s) && Holds(s, slot, writers, room, 0) && s.filter.size == 0
    ensures forall k | 0 <= k < writers :: Resting(s, k)
  {
    var n := Bloom.WordCount(capacity);
    var place := (h: Uint64, i: nat) => if 0 < n then Bloom.Position(h, i, 64 * n) else 0;
    var f := Shared.State(place, seq(n, _ => {}), 0, seq(writers, _ => Shared.Idle), {}, {});
    s := State(f, seq(writers, _ => Free));
    assert Init(capacity, s);
    Shared.InitInv(f);
    forall m: nat | m < room ensures Nth(slot, m) < TWO_TO_THE_64 && Plain(f, Nth(slot, m)) {
      PlainPlaces(f, slot, room, m);
    }
  }

  /** One writer fills the filter up to below its capacity. */
  lemma {:induction false} FillsTo(capacity: Uint64, slot: nat, writers: nat, reach: Reach, room: nat, n: nat)
    returns (s: State)
    requires Follows(capacity, slot, writers, reach) && slot < SLOTS && 0 < writers && 0 < room
    requires SLOTS * room <= 64 * Bloom.WordCount(capacity) && SLOTS * room <= TWO_TO_THE_32
    requires n <= capacity && n <= room
    ensures reach(s) && Holds(s, slot, writers, room, n) && s.filter.size == n
    ensures forall k | 0 <= k < writers :: Resting(s, k)
  {
    if n == 0 {
      s := StartsEmpty(capacity, slot, writers, reach, room);
    } else {
      var a := FillsTo(capacity, slot, writers, reach, room, n - 1);
      var h: Uint64 := Nth(slot, n - 1);
      assert Resting(a, 0) && CanMove(a, 0);
      var b := Passes(capacity, slot, writers, reach, a, 0, h);
      s := Adds(capacity, slot, writers, reach, b, 0, h);
      forall k | 0 <= k < writers ensures Resting(s, k) {
        assert Resting(a, k);
      }
    }
  }

  /** These writers have passed the check, each with a fingerprint of its own from the n-th on. */
  ghost predicate HavePassed(s: State, slot: nat, n: nat, lo: nat, hi: nat)
    requires hi <= |s.stages| == |s.filter.threads|
  {
    forall k | lo <= k < hi ::
      s.filter.threads[k] == Shared.Idle && Nth(slot, n + k) < TWO_TO_THE_64
      && s.stages[k] == Admitted(Nth(slot, n + k))
  }

  /** One more writer passes the check. */
  lemma OnePasses(capacity: Uint64, slot: nat, writers: nat, reach: Reach, room: nat, n: nat, s: State, j: nat)
    returns (t: State)
    requires Follows(capacity, slot, writers, reach) && slot < SLOTS
    requires reach(s) && Holds(s, slot, writers, room, n) && j < writers && n + j < room && s.filter.size < capacity
    requires HavePassed(s, slot, n, 0, j) && forall k | j <= k < writers :: Resting(s, k)
    ensures reach(t) && Holds(t, slot, writers, room, n) && t.filter.size == s.filter.size
    ensures HavePassed(t, slot, n, 0, j + 1) && forall k | j < k < writers :: Resting(t, k)
  {
    assert Resting(s, j) && CanMove(s, j);
    t := Passes(capacity, slot, writers, reach, s, j, Nth(slot, n + j));
    forall k | j < k < writers ensures Resting(t, k) {
      assert Resting(s, k);
    }
  }

  /** Then all of them pass the check. */
  lemma {:induction false} AllPass(capacity: Uint64, slot: nat, writers: nat, reach: Reach, j: nat)
    returns (s: State)
    requires Follows(capacity, slot, writers, reach) && slot < SLOTS && 0 < capacity && j <= writers && 0 < writers
    requires var room := capacity - 1 + writers;
             SLOTS * room <= 64 * Bloom.WordCount(capacity) && SLOTS * room <= TWO_TO_THE_32
    ensures reach(s) && Holds(s, slot, writers, capacity - 1 + writers, capacity - 1)
    ensures s.filter.size == capacity - 1
    ensures HavePassed(s, slot, capacity - 1, 0, j) && forall k | j <= k < writers :: Resting(s, k)
  {
    if j == 0 {
      s := FillsTo(capacity, slot, writers, reach, capacity - 1 + writers, capacity - 1);
    } else {
      var a := AllPass(capacity, slot, writers, reach, j - 1);
      s := OnePasses(capacity, slot, writers, reach, capacity - 1 + writers, capacity - 1, a, j - 1);
    }
  }

  /** And then they all add. */
  lemma {:induction false} AllAdd(capacity: Uint64, slot: nat, writers: nat, reach: Reach, j: nat)
    returns (s: State)
    requires Follows(capacity, slot, writers, reach) && slot < SLOTS && 0 < capacity && j <= writers && 0 < writers
    requires var room := capacity - 1 + writers;
             SLOTS * room <= 64 * Bloom.WordCount(capacity) && SLOTS * room <= TWO_TO_THE_32
    ensures reach(s) && Holds(s, slot, writers, capacity - 1 + writers, capacity - 1 + j)
    ensures s.filter.size == capacity - 1 + j
    ensures HavePassed(s, slot, capacity - 1, j, writers)
  {
    if j == 0 {
      s := AllPass(capacity, slot, writers, reach, writers);
    } else {
      var a := AllAdd(capacity, slot, writers, reach, j - 1);
      assert CanMove(a, j - 1);
      s := Adds(capacity, slot, writers, reach, a, j - 1, Nth(slot, capacity - 1 + (j - 1)));
    }
  }

  /** The bound is attained for every slot, capacity and number of writers for which the filter has
      enough bits that fingerprints of the slot can set one by one. */
  lemma OvershootAttained(capacity: Uint64, slot: nat, writers: nat) returns (s: State)
    requires 0 < capacity && slot < SLOTS && 0 < writers
    requires SLOTS * (capacity - 1 + writers) <= 64 * Bloom.WordCount(capacity)
    requires SLOTS * (capacity - 1 + writers) <= TWO_TO_THE_32
    ensures Reachable(capacity, slot, writers, s) && s.filter.size == capacity + writers - 1
  {
    RunsFollow(capacity, slot, writers);
    s := AllAdd(capacity, slot, writers, Reached(capacity, slot, writers), writers);
  }
}
