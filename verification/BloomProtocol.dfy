/** One Bloom filter shared by many threads: the lock-free add and the concurrent contains.

    A thread loads a word, and while the bit it needs is clear there it tries to swap in the word
    with the bit set; when the swap fails it loads again. Loads, swaps and the final increment of
    the size are single steps, and steps of different threads interleave freely. */
module BloomProtocol {
  import opened Base
  import opened Bloom

  datatype Thread =
    | Idle
    | Loading(h: Uint64, i: nat, isNew: bool, fails: nat)           // about to load the word of position i
    | Loaded(h: Uint64, i: nat, isNew: bool, fails: nat, w: Word)   // holds that word
    | Checking(h: Uint64, i: nat)                                   // contains, at position i

  /** `place` gives the bit index of each hash and round, which is Bloom.Position.
      `returned` has the hashes whose add returned, `started` those whose add began. */
  datatype State = State(
    place: (Uint64, nat) -> nat,
    words: seq<Word>, size: nat, threads: seq<Thread>, started: set<Uint64>, returned: set<Uint64>)

  ghost predicate Init(s: State) {
    && s.words != [] && (forall k | 0 <= k < |s.words| :: s.words[k] == {})
    && (forall h: Uint64, i: nat :: s.place(h, i) == Position(h, i, MaxBits(s)))
    && s.size == 0 && s.started == {} && s.returned == {}
    && forall k | 0 <= k < |s.threads| :: s.threads[k] == Idle
  }

  ghost function MaxBits(s: State): nat { 64 * |s.words| }

  ghost function Places(s: State, h: Uint64): set<nat> {
    set i: nat | i < HASHES_COUNT :: s.place(h, i)
  }

  ghost predicate PlacesInRange(s: State) {
    s.words != [] && forall h: Uint64, i: nat :: s.place(h, i) < MaxBits(s)
  }

  ghost function With(s: State, k: nat, th: Thread): State
    requires k < |s.threads|
  {
    s.(threads := s.threads[k := th])
  }

  ghost predicate BeginAdd(s: State, t: State, k: nat, h: Uint64)
    requires k < |s.threads| && PlacesInRange(s)
  {
    s.threads[k] == Idle && t == With(s, k, Loading(h, 0, false, 0)).(started := s.started + {h})
  }

  ghost predicate Load(s: State, t: State, k: nat)
    requires k < |s.threads| && PlacesInRange(s)
  {
    && s.threads[k].Loading? && s.threads[k].i < HASHES_COUNT
    && var Loading(h, i, isNew, fails) := s.threads[k];
       t == With(s, k, Loaded(h, i, isNew, fails, s.words[s.place(h, i) / 64]))
  }

  /** The bit is set already in the loaded word. */
  ghost predicate Skip(s: State, t: State, k: nat)
    requires k < |s.threads| && PlacesInRange(s)
  {
    && s.threads[k].Loaded?
    && var Loaded(h, i, isNew, fails, w) := s.threads[k];
       && s.place(h, i) % 64 in w
       && t == With(s, k, Loading(h, i + 1, isNew, 0))
  }

  ghost predicate Swap(s: State, t: State, k: nat)
    requires k < |s.threads| && PlacesInRange(s)
  {
    && s.threads[k].Loaded?
    && var Loaded(h, i, isNew, fails, w) := s.threads[k];
       var p := s.place(h, i);
       && p % 64 !in w && s.words[p / 64] == w
       && t == With(s, k, Loading(h, i + 1, true, 0)).(words := s.words[p / 64 := w + {p % 64}])
  }

  ghost predicate SwapFails(s: State, t: State, k: nat)
    requires k < |s.threads| && PlacesInRange(s)
  {
    && s.threads[k].Loaded?
    && var Loaded(h, i, isNew, fails, w) := s.threads[k];
       var p := s.place(h, i);
       && p % 64 !in w && s.words[p / 64] != w
       && t == With(s, k, Loading(h, i, isNew, fails + 1))
  }

  ghost predicate EndAdd(s: State, t: State, k: nat)
    requires k < |s.threads| && PlacesInRange(s)
  {
    && s.threads[k].Loading? && s.threads[k].i >= HASHES_COUNT
    && var Loading(h, i, isNew, fails) := s.threads[k];
       t == With(s, k, Idle).(size := s.size + (if isNew then 1 else 0), returned := s.returned + {h})
  }

  ghost predicate BeginContains(s: State, t: State, k: nat, h: Uint64)
    requires k < |s.threads| && PlacesInRange(s)
  {
    s.threads[k] == Idle && t == With(s, k, Checking(h, 0))
  }

  ghost predicate SeesSet(s: State, t: State, k: nat)
    requires k < |s.threads| && PlacesInRange(s)
  {
    && s.threads[k].Checking? && s.threads[k].i < HASHES_COUNT
    && var Checking(h, i) := s.threads[k];
       s.place(h, i) in SetBits(s.words) && t == With(s, k, Checking(h, i + 1))
  }

  ghost predicate ReportsAbsent(s: State, t: State, k: nat)
    requires k < |s.threads| && PlacesInRange(s)
  {
    && s.threads[k].Checking? && s.threads[k].i < HASHES_COUNT
    && var Checking(h, i) := s.threads[k];
       s.place(h, i) !in SetBits(s.words) && t == With(s, k, Idle)
  }

  ghost predicate ReportsPresent(s: State, t: State, k: nat)
    requires k < |s.threads| && PlacesInRange(s)
  {
    && s.threads[k].Checking? && s.threads[k].i >= HASHES_COUNT && t == With(s, k, Idle)
  }

  ghost predicate Step(s: State, t: State, k: nat)
    requires k < |s.threads| && PlacesInRange(s)
  {
    || (exists h :: BeginAdd(s, t, k, h)) || Load(s, t, k) || Skip(s, t, k)
    || Swap(s, t, k) || SwapFails(s, t, k) || EndAdd(s, t, k)
    || (exists h :: BeginContains(s, t, k, h))
    || SeesSet(s, t, k) || ReportsAbsent(s, t, k) || ReportsPresent(s, t, k)
  }

  ghost predicate Next(s: State, t: State) {
    PlacesInRange(s) && exists k | 0 <= k < |s.threads| :: Step(s, t, k)
  }

  ghost predicate IsRun(run: seq<State>) {
    && run != [] && Init(run[0])
    && forall i | 0 <= i < |run| - 1 :: Next(run[i], run[i + 1])
  }

  /* The invariant */

  /** One while an add has flipped a bit and not been counted yet. */
  ghost function Uncounted(th: Thread): int {
    if (th.Loading? || th.Loaded?) && th.isNew then 1 else 0
  }

  /** How many bits an add that is not counted yet may have flipped: one for each round behind it. */
  ghost function Flips(th: Thread): int {
    if (th.Loading? || th.Loaded?) && th.isNew then th.i else 0
  }

  /** The word of position i of h. */
  ghost function WordAt(s: State, h: Uint64, i: nat): Word
    requires PlacesInRange(s)
  {
    s.words[s.place(h, i) / 64]
  }

  /** Positions below i are set; a loaded word is still there, or bits have been added to it; and
      each failed swap of the present position is paid for by a bit set in its word. */
  ghost predicate ThreadOk(s: State, th: Thread)
    requires PlacesInRange(s)
  {
    match th
    case Idle => true
    case Loading(h, i, _, fails) =>
      && h in s.started && i <= HASHES_COUNT
      && (forall j: nat | j < i :: s.place(h, j) in SetBits(s.words))
      && fails <= |WordAt(s, h, i)|
    case Loaded(h, i, _, fails, w) =>
      && h in s.started && i < HASHES_COUNT
      && (forall j: nat | j < i :: s.place(h, j) in SetBits(s.words))
      && fails <= |w|
      && (w == WordAt(s, h, i) || w < WordAt(s, h, i))
    case Checking(h, i) =>
      && i <= HASHES_COUNT
      && (forall j: nat | j < i :: s.place(h, j) in SetBits(s.words))
  }

  /** The positions of every hash in hs. */
  ghost function AllPlaces(s: State, hs: set<Uint64>): set<nat> {
    set h, p | h in hs && p in Places(s, h) :: p
  }

  ghost predicate Inv(s: State) {
    && PlacesInRange(s)
    && (forall k | 0 <= k < |s.threads| :: ThreadOk(s, s.threads[k]))
    && (forall h | h in s.returned :: Places(s, h) <= SetBits(s.words))
    && SetBits(s.words) <= AllPlaces(s, s.started)
    && s.size + Sum(Uncounted, s.threads) <= |SetBits(s.words)|
    && |SetBits(s.words)| <= HASHES_COUNT * s.size + Sum(Flips, s.threads)
  }

  /** Bits are only ever added to words. */
  ghost predicate Grows(s: State, t: State) {
    && |t.words| == |s.words| && t.place == s.place && s.started <= t.started
    && SetBits(s.words) <= SetBits(t.words)
    && forall j | 0 <= j < |s.words| :: s.words[j] == t.words[j] || s.words[j] < t.words[j]
  }

  lemma ThreadStaysOk(s: State, t: State, th: Thread)
    requires PlacesInRange(s) && Grows(s, t) && ThreadOk(s, th)
    ensures ThreadOk(t, th)
  {
    if th.Loading? {
      SubsetSize(WordAt(s, th.h, th.i), WordAt(t, th.h, th.i));
    }
  }

  lemma SwapAddsBit(s: State, t: State, k: nat)
    requires k < |s.threads| && PlacesInRange(s) && Swap(s, t, k)
    ensures Grows(s, t)
    ensures SetBits(t.words) == SetBits(s.words) + {s.place(s.threads[k].h, s.threads[k].i)}
    ensures s.place(s.threads[k].h, s.threads[k].i) !in SetBits(s.words)
  {
    var p := s.place(s.threads[k].h, s.threads[k].i);
    forall q: nat ensures q in SetBits(t.words) <==> q in SetBits(s.words) || q == p {
      if q / 64 == p / 64 && q % 64 == p % 64 {
        assert q == p;
      }
    }
  }

  lemma StepGrows(s: State, t: State, k: nat)
    requires k < |s.threads| && PlacesInRange(s) && Step(s, t, k)
    ensures Grows(s, t)
    ensures |t.threads| == |s.threads| && t.threads == s.threads[k := t.threads[k]]
  {
    if Swap(s, t, k) {
      SwapAddsBit(s, t, k);
    }
  }

  /** After its round at position i a thread has all positions up to i set. */
  lemma RoundDone(s: State, t: State, h: Uint64, i: nat, isNew: bool)
    requires PlacesInRange(s) && Grows(s, t) && h in s.started && i < HASHES_COUNT
    requires forall j: nat | j < i :: s.place(h, j) in SetBits(s.words)
    requires s.place(h, i) in SetBits(t.words)
    ensures ThreadOk(t, Loading(h, i + 1, isNew, 0))
  {
  }

  lemma SkippedBitIsSet(s: State, th: Thread)
    requires PlacesInRange(s) && th.Loaded? && ThreadOk(s, th) && s.place(th.h, th.i) % 64 in th.w
    ensures s.place(th.h, th.i) in SetBits(s.words)
  {
  }

  lemma SwappedThreadOk(s: State, t: State, k: nat)
    requires Inv(s) && k < |s.threads| && (Skip(s, t, k) || Swap(s, t, k))
    ensures ThreadOk(t, t.threads[k])
  {
    StepGrows(s, t, k);
    var th := s.threads[k];
    assert ThreadOk(s, th);
    if Skip(s, t, k) {
      SkippedBitIsSet(s, th);
    } else {
      SwapAddsBit(s, t, k);
    }
    RoundDone(s, t, th.h, th.i, t.threads[k].isNew);
  }

  lemma FailedThreadOk(s: State, t: State, k: nat)
    requires Inv(s) && k < |s.threads| && SwapFails(s, t, k)
    ensures ThreadOk(t, t.threads[k])
  {
    var th := s.threads[k];
    assert ThreadOk(s, th);
    var full := WordAt(s, th.h, th.i);
    assert th.w < full;
    SubsetSize(th.w, full);
  }

  /** The thread that moved is still in order. */
  lemma MovedThreadOk(s: State, t: State, k: nat)
    requires Inv(s) && k < |s.threads| && Step(s, t, k)
    ensures ThreadOk(t, t.threads[k])
  {
    assert ThreadOk(s, s.threads[k]);
    if Skip(s, t, k) || Swap(s, t, k) {
      SwappedThreadOk(s, t, k);
    } else if SwapFails(s, t, k) {
      FailedThreadOk(s, t, k);
    }
  }

  lemma ThreadsStayOk(s: State, t: State, k: nat)
    requires Inv(s) && k < |s.threads| && Step(s, t, k)
    ensures forall j | 0 <= j < |t.threads| :: ThreadOk(t, t.threads[j])
  {
    StepGrows(s, t, k);
    MovedThreadOk(s, t, k);
    forall j | 0 <= j < |t.threads| ensures ThreadOk(t, t.threads[j]) {
      if j != k {
        ThreadStaysOk(s, t, s.threads[j]);
      }
    }
  }

  lemma AllPlacesGrow(s: State, t: State)
    requires t.place == s.place && s.started <= t.started
    ensures AllPlaces(s, s.started) <= AllPlaces(t, t.started)
  {
    forall h: Uint64 ensures Places(s, h) == Places(t, h) {
    }
  }

  /** Only a started add sets bits, and only its own positions. */
  lemma BitsStayAccountedFor(s: State, t: State, k: nat)
    requires Inv(s) && k < |s.threads| && Step(s, t, k)
    ensures SetBits(t.words) <= AllPlaces(t, t.started)
  {
    var th := s.threads[k];
    assert ThreadOk(s, th);
    StepGrows(s, t, k);
    AllPlacesGrow(s, t);
    if Swap(s, t, k) {
      SwapAddsBit(s, t, k);
      assert s.place(th.h, th.i) in Places(s, th.h);
      assert s.place(th.h, th.i) in AllPlaces(s, s.started);
    } else {
      assert t.words == s.words;
    }
  }

  lemma ReturnedStaySet(s: State, t: State, k: nat)
    requires Inv(s) && k < |s.threads| && Step(s, t, k)
    ensures forall h | h in t.returned :: Places(t, h) <= SetBits(t.words)
  {
    StepGrows(s, t, k);
    assert ThreadOk(s, s.threads[k]);
    forall h | h in t.returned ensures Places(t, h) <= SetBits(t.words) {
      if h !in s.returned {
        assert EndAdd(s, t, k) && h == s.threads[k].h;
        assert forall j: nat | j < HASHES_COUNT :: s.place(h, j) in SetBits(s.words);
      }
    }
  }

  lemma SizeStaysPaid(s: State, t: State, k: nat)
    requires Inv(s) && k < |s.threads| && Step(s, t, k)
    ensures t.size + Sum(Uncounted, t.threads) <= |SetBits(t.words)|
  {
    StepGrows(s, t, k);
    SumUpdate(Uncounted, s.threads, k, t.threads[k]);
    if Swap(s, t, k) {
      SwapAddsBit(s, t, k);
      OneMore(SetBits(s.words), s.place(s.threads[k].h, s.threads[k].i));
    }
  }

  lemma OneMore(bits: set<nat>, p: nat)
    requires p !in bits
    ensures |bits + {p}| == |bits| + 1
  {
  }

  lemma BitsStayCounted(s: State, t: State, k: nat)
    requires Inv(s) && k < |s.threads| && Step(s, t, k)
    ensures |SetBits(t.words)| <= HASHES_COUNT * t.size + Sum(Flips, t.threads)
  {
    StepGrows(s, t, k);
    SumUpdate(Flips, s.threads, k, t.threads[k]);
    assert ThreadOk(s, s.threads[k]);
    if Swap(s, t, k) {
      SwapAddsBit(s, t, k);
      OneMore(SetBits(s.words), s.place(s.threads[k].h, s.threads[k].i));
    } else {
      assert t.words == s.words;
    }
  }

  lemma InitInv(s: State)
    requires Init(s)
    ensures Inv(s)
  {
    forall h: Uint64, i: nat ensures s.place(h, i) < MaxBits(s) {
      assert s.place(h, i) == Position(h, i, MaxBits(s));
    }
    assert SetBits(s.words) == {};
    SumBounds(Uncounted, s.threads, 0, 0);
    SumBounds(Flips, s.threads, 0, 0);
  }

  lemma {:induction false} RunKeepsInv(run: seq<State>)
    requires IsRun(run)
    ensures Inv(run[|run| - 1])
  {
    var n := |run| - 1;
    if n == 0 {
      InitInv(run[0]);
    } else {
      RunKeepsInv(run[..n]);
      var s, t := run[n - 1], run[n];
      assert Next(s, t);
      var k :| 0 <= k < |s.threads| && Step(s, t, k);
      StepGrows(s, t, k);
      ThreadsStayOk(s, t, k);
      BitsStayAccountedFor(s, t, k);
      ReturnedStaySet(s, t, k);
      SizeStaysPaid(s, t, k);
      BitsStayCounted(s, t, k);
    }
  }

  /* Main results */

  /** No interleaving clears a bit: from any point of a run to any later one, bits only appear. */
  lemma {:induction false} BitsNeverCleared(run: seq<State>, i: nat, j: nat)
    requires IsRun(run) && i <= j < |run|
    ensures SetBits(run[i].words) <= SetBits(run[j].words)
  {
    if i < j {
      BitsNeverCleared(run, i, j - 1);
      assert Next(run[j - 1], run[j]);
      var k :| 0 <= k < |run[j - 1].threads| && Step(run[j - 1], run[j], k);
      StepGrows(run[j - 1], run[j], k);
    }
  }

  /** Once add(h) has returned, no contains(h) reports h absent. */
  lemma ContainsAfterAdd(run: seq<State>, t: State, k: nat)
    requires IsRun(run)
    requires var s := run[|run| - 1];
             PlacesInRange(s) && k < |s.threads| && s.threads[k].Checking? && s.threads[k].h in s.returned
    ensures !ReportsAbsent(run[|run| - 1], t, k)
  {
    RunKeepsInv(run);
    var s := run[|run| - 1];
    var h, i := s.threads[k].h, s.threads[k].i;
    if i < HASHES_COUNT {
      assert s.place(h, i) in Places(s, h);
    }
  }

  /** A contains that reports h present has seen all four bits, each set by some started add. */
  lemma PresentMeansCovered(run: seq<State>, t: State, k: nat)
    requires IsRun(run)
    requires var s := run[|run| - 1];
             PlacesInRange(s) && k < |s.threads| && ReportsPresent(s, t, k)
    ensures var s := run[|run| - 1];
            var h := s.threads[k].h;
            && Places(s, h) <= SetBits(s.words)
            && Places(s, h) <= AllPlaces(s, s.started)
  {
    RunKeepsInv(run);
    var s := run[|run| - 1];
    assert ThreadOk(s, s.threads[k]);
    assert forall j: nat | j < HASHES_COUNT :: s.place(s.threads[k].h, j) in SetBits(s.words);
  }

  /** Every add that counted itself flipped a bit nobody else did: the size never exceeds the
      number of set bits, even with the adds still to be counted. */
  lemma SizeBoundedBySetBits(run: seq<State>)
    requires IsRun(run)
    ensures var s := run[|run| - 1];
            s.size <= s.size + Sum(Uncounted, s.threads) <= |SetBits(s.words)|
  {
    RunKeepsInv(run);
    SumBounds(Uncounted, run[|run| - 1].threads, 0, 1);
  }

  ghost predicate Adding(th: Thread) { th.Loading? || th.Loaded? }

  /** The other way round, every set bit is accounted for: the size counts at least a quarter of
      them, but for the rounds of adds that are not counted yet; with no add in flight, all of them. */
  lemma SetBitsBoundedBySize(run: seq<State>)
    requires IsRun(run)
    ensures var s := run[|run| - 1];
            && |SetBits(s.words)| <= HASHES_COUNT * s.size + Sum(Flips, s.threads)
            && ((forall th | th in s.threads :: !Adding(th)) ==> s.size <= |SetBits(s.words)| <= HASHES_COUNT * s.size)
  {
    RunKeepsInv(run);
    var s := run[|run| - 1];
    SizeBoundedBySetBits(run);
    if forall th | th in s.threads :: !Adding(th) {
      SumBounds(Flips, s.threads, 0, 0);
    }
  }

  /** When nobody is inside an add, the bits are exactly the positions of the added hashes. */
  lemma QuiescentBitsExact(run: seq<State>)
    requires IsRun(run)
    requires run[|run| - 1].started == run[|run| - 1].returned
    ensures var s := run[|run| - 1];
            s.words != [] && SetBits(s.words) == AllPositions(s.returned, MaxBits(s))
  {
    RunKeepsInv(run);
    PlacesAreConstant(run);
    var s := run[|run| - 1];
    forall h: Uint64 ensures Places(s, h) == Positions(h, MaxBits(s)) {
      assert forall i: nat :: s.place(h, i) == Position(h, i, MaxBits(s));
    }
  }

  ghost predicate PlacesArePositions(s: State) {
    s.words != [] && forall h: Uint64, i: nat :: s.place(h, i) == Position(h, i, MaxBits(s))
  }

  lemma {:induction false} PlacesAreConstant(run: seq<State>)
    requires IsRun(run)
    ensures PlacesArePositions(run[|run| - 1])
  {
    var n := |run| - 1;
    if n > 0 {
      PlacesAreConstant(run[..n]);
      assert Next(run[n - 1], run[n]);
      NextKeepsPlaces(run[n - 1], run[n]);
    }
  }

  lemma NextKeepsPlaces(s: State, t: State)
    requires Next(s, t)
    ensures t.place == s.place && |t.words| == |s.words|
  {
    var k :| 0 <= k < |s.threads| && Step(s, t, k);
  }

  /** A failed swap means other threads set bits of the word since it was loaded: the next load
      finds strictly fewer zero bits, and bit by bit the retries are paid for. */
  lemma FailedSwapLosesZeros(run: seq<State>, t: State, k: nat)
    requires IsRun(run)
    requires PlacesInRange(run[|run| - 1]) && k < |run[|run| - 1].threads| && SwapFails(run[|run| - 1], t, k)
    ensures var s := run[|run| - 1];
            var th := s.threads[k];
            th.w < WordAt(s, th.h, th.i) && t.words == s.words && t.threads[k].fails <= |WordAt(s, th.h, th.i)|
  {
    RunKeepsInv(run);
    var s := run[|run| - 1];
    var th := s.threads[k];
    assert ThreadOk(s, th);
    SubsetSize(th.w, WordAt(s, th.h, th.i));
  }

  /** So no retry loop fails more often than the 64 bits of its word. */
  lemma RetriesBounded(run: seq<State>, k: nat)
    requires IsRun(run) && k < |run[|run| - 1].threads|
    requires run[|run| - 1].threads[k].Loading? || run[|run| - 1].threads[k].Loaded?
    ensures run[|run| - 1].threads[k].fails <= 64
  {
    RunKeepsInv(run);
    WordsStayWords(run);
    FailuresFit(run[|run| - 1], run[|run| - 1].threads[k]);
  }

  lemma FailuresFit(s: State, th: Thread)
    requires PlacesInRange(s) && ThreadOk(s, th) && WordsAreWords(s) && (th.Loading? || th.Loaded?)
    ensures th.fails <= 64
  {
    var full := WordAt(s, th.h, th.i);
    assert full in s.words && full <= Below(64);
    SubsetSize(full, Below(64));
    if th.Loaded? {
      SubsetSize(th.w, full);
    }
  }

  /** Bit numbers stay below 64. */
  ghost predicate WordsAreWords(s: State) {
    forall w, b | w in s.words && b in w :: b < 64
  }

  lemma {:induction false} WordsStayWords(run: seq<State>)
    requires IsRun(run)
    ensures WordsAreWords(run[|run| - 1])
  {
    var n := |run| - 1;
    if n > 0 {
      WordsStayWords(run[..n]);
      assert Next(run[n - 1], run[n]);
      var k :| 0 <= k < |run[n - 1].threads| && Step(run[n - 1], run[n], k);
    }
  }
}
