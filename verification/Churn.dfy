/** Churn baselines: for each group a current sketch and the one it is compared with. */
module Churn {
  import opened Base
  import opened Snapshots

  datatype ChurnKey = ChurnKey(snapshotID: string, groupKey: Key)

  /** The baseline has no sketch until the first rotation. */
  datatype Baseline = Baseline(addedAt: int, sketch: Option<SketchValue>)

  datatype Sample = Sample(addedAt: int, sketch: SketchValue)

  datatype ChurnEntry = ChurnEntry(interval: int, values: seq<string>, prev: Baseline, curr: Sample)

  datatype ChurnInput = ChurnInput(id: string, interval: int, sketches: map<Key, Entry>)

  /** The clock starts with the first sample; a baseline older than the interval gives way to the
      sample before the present one. */
  function Updated(e: Option<ChurnEntry>, interval: int, values: seq<string>, s: Sample): ChurnEntry {
    match e
    case None => ChurnEntry(interval, values, Baseline(s.addedAt, None), s)
    case Some(e) =>
      if e.prev.addedAt < s.addedAt - interval
      then e.(prev := Baseline(s.addedAt, Some(e.curr.sketch)), curr := s)
      else e.(curr := s)
  }

  predicate Expired(e: ChurnEntry, now: int) { e.curr.addedAt < now - 2 * e.interval }

  function Lookup(entries: map<ChurnKey, ChurnEntry>, k: ChurnKey): Option<ChurnEntry> {
    if k in entries then Some(entries[k]) else None
  }

  /* Whole runs, one key at a time */

  /** A snapshot has the group: its sketch at that time, with the interval and the group values it came with. */
  datatype Given = Given(interval: int, values: seq<string>, s: Sample)

  datatype Event = Sampled(g: Given) | CleanedUp(now: int)

  function AfterEvents(events: seq<Event>): Option<ChurnEntry> {
    if events == [] then None
    else
      var e := AfterEvents(events[..|events| - 1]);
      match events[|events| - 1]
      case Sampled(g) => Some(Updated(e, g.interval, g.values, g.s))
      case CleanedUp(now) => if e.Some? && Expired(e.value, now) then None else e
  }

  /** A call on the churn baselines, and what it means for one key: a sample if the snapshot is of that
      id and has the group. */
  datatype Call = Updating(s: ChurnInput, now: int) | Cleaning(now: int)

  function EventOf(k: ChurnKey): Call -> seq<Event> {
    (c: Call) => match c
      case Cleaning(now) => [CleanedUp(now)]
      case Updating(s, now) =>
        if k.snapshotID != s.id || k.groupKey !in s.sketches then []
        else [Sampled(Given(s.interval, s.sketches[k.groupKey].values, Sample(now, s.sketches[k.groupKey].sketch)))]
  }

  function EventsFor(calls: seq<Call>, k: ChurnKey): seq<Event> { FlatMap(EventOf(k), calls) }

  /** What an update makes of the entry of one key. */
  function AfterUpdate(entries: map<ChurnKey, ChurnEntry>, s: ChurnInput, now: int, k: ChurnKey): Option<ChurnEntry> {
    if k.snapshotID == s.id && k.groupKey in s.sketches then
      var ssk := s.sketches[k.groupKey];
      Some(Updated(Lookup(entries, k), s.interval, ssk.values, Sample(now, ssk.sketch)))
    else Lookup(entries, k)
  }

  lemma OneMoreCall(calls: seq<Call>, c: Call, k: ChurnKey)
    ensures var before, events := AfterEvents(EventsFor(calls, k)), EventOf(k)(c);
            AfterEvents(EventsFor(calls + [c], k))
            == if events == [] then before
               else match events[0]
                 case Sampled(g) => Some(Updated(before, g.interval, g.values, g.s))
                 case CleanedUp(now) => if before.Some? && Expired(before.value, now) then None else before
  {
    var before, events := EventsFor(calls, k), EventOf(k)(c);
    assert (calls + [c])[..|calls|] == calls;
    assert EventsFor(calls + [c], k) == before + events;
    if events == [] {
      assert before + events == before;
    } else {
      assert (before + events)[..|before|] == before;
    }
  }

  class ChurnSnapshots {
    var entries: map<ChurnKey, ChurnEntry>
    /** The calls so far. */
    ghost var history: seq<Call>

    /** Each entry is what the samples and cleanups of its key make of it. */
    ghost predicate Valid()
      reads this
    {
      forall k :: Lookup(entries, k) == AfterEvents(EventsFor(history, k))
    }

    constructor ()
      ensures Valid() && entries == map[] && history == []
    {
      entries, history := map[], [];
    }

    method UpdateOne(s: ChurnInput, groupKey: Key, now: int)
      requires groupKey in s.sketches
      modifies `entries
      ensures entries == old(entries)[ChurnKey(s.id, groupKey) :=
                           Updated(Lookup(old(entries), ChurnKey(s.id, groupKey)), s.interval,
                                   s.sketches[groupKey].values, Sample(now, s.sketches[groupKey].sketch))]
    {
      var k := ChurnKey(s.id, groupKey);
      var ssk := s.sketches[groupKey];
      var newSK := Sample(now, ssk.sketch);
      if k !in entries {
        entries := entries[k := ChurnEntry(s.interval, ssk.values, Baseline(now, None), newSK)];
        return;
      }
      var e := entries[k];
      if e.prev.addedAt < now - s.interval {
        e := e.(prev := Baseline(now, Some(e.curr.sketch)), curr := newSK);
      } else {
        e := e.(curr := newSK);
      }
      entries := entries[k := e];
    }

    /** Every group is updated once, whatever the order of the map. */
    method UpdateAll(s: ChurnInput, now: int)
      modifies `entries
      ensures forall k :: Lookup(entries, k) == AfterUpdate(old(entries), s, now, k)
    {
      var todo := s.sketches.Keys;
      while todo != {}
        invariant todo <= s.sketches.Keys
        invariant forall k :: Lookup(entries, k)
                    == if k.groupKey in todo then Lookup(old(entries), k) else AfterUpdate(old(entries), s, now, k)
      {
        var groupKey :| groupKey in todo;
        todo := todo - {groupKey};
        UpdateOne(s, groupKey, now);
      }
    }

    /** Afterwards every group of the snapshot has an entry with its sketch as the current one; all
        other entries stay. */
    method Update(s: ChurnInput, now: int)
      requires Valid() && s.interval != 0
      modifies this
      ensures Valid() && history == old(history) + [Updating(s, now)]
      ensures forall g | g in s.sketches :: ChurnKey(s.id, g) in entries
      ensures forall g | g in s.sketches :: entries[ChurnKey(s.id, g)].curr == Sample(now, s.sketches[g].sketch)
      ensures forall k: ChurnKey | k.snapshotID != s.id || k.groupKey !in s.sketches ::
                Lookup(entries, k) == Lookup(old(entries), k)
    {
      ghost var before := entries;
      UpdateAll(s, now);
      forall g | g in s.sketches
        ensures Lookup(entries, ChurnKey(s.id, g)).Some?
        ensures Lookup(entries, ChurnKey(s.id, g)).value.curr == Sample(now, s.sketches[g].sketch)
      {
        assert Lookup(entries, ChurnKey(s.id, g)) == AfterUpdate(before, s, now, ChurnKey(s.id, g));
      }
      forall k ensures Lookup(entries, k) == AfterEvents(EventsFor(history + [Updating(s, now)], k)) {
        OneMoreCall(history, Updating(s, now), k);
        assert Lookup(entries, k) == AfterUpdate(before, s, now, k);
      }
      history := history + [Updating(s, now)];
    }

    method DropExpired(now: int)
      modifies `entries
      ensures forall k :: Lookup(entries, k)
                == if k in old(entries) && Expired(old(entries)[k], now) then None else Lookup(old(entries), k)
    {
      var todo := entries.Keys;
      while todo != {}
        invariant forall k | k in todo :: k in old(entries)
        invariant forall k :: Lookup(entries, k)
                    == if k !in todo && k in old(entries) && Expired(old(entries)[k], now) then None
                       else Lookup(old(entries), k)
      {
        var k :| k in todo;
        todo := todo - {k};
        assert Lookup(entries, k) == Lookup(old(entries), k);
        if Expired(entries[k], now) {
          entries := entries - {k};
        }
      }
    }

    /** Drops exactly the entries whose current sketch is older than two of their intervals. */
    method Cleanup(now: int)
      requires Valid()
      modifies this
      ensures Valid() && history == old(history) + [Cleaning(now)]
      ensures forall k :: k in entries <==>
                k in old(entries) && now - old(entries)[k].curr.addedAt <= 2 * old(entries)[k].interval
      ensures forall k | k in entries :: entries[k] == old(entries)[k]
    {
      ghost var before := entries;
      DropExpired(now);
      forall k
        ensures Lookup(entries, k) == AfterEvents(EventsFor(history + [Cleaning(now)], k))
        ensures k in entries <==> k in before && now - before[k].curr.addedAt <= 2 * before[k].interval
        ensures k in entries ==> entries[k] == before[k]
      {
        OneMoreCall(history, Cleaning(now), k);
        assert Lookup(entries, k) == if k in before && Expired(before[k], now) then None else Lookup(before, k);
      }
      history := history + [Cleaning(now)];
    }
  }

  /** The samples since the entry was last dropped for lack of samples. */
  function Kept(events: seq<Event>): seq<Given> {
    if events == [] then []
    else
      var gs := Kept(events[..|events| - 1]);
      match events[|events| - 1]
      case Sampled(g) => gs + [g]
      case CleanedUp(now) => if gs != [] && gs[|gs| - 1].s.addedAt < now - 2 * gs[0].interval then [] else gs
  }

  lemma {:induction false} KeptAreSampled(events: seq<Event>, g: Given)
    requires g in Kept(events)
    ensures Sampled(g) in events
  {
    var n := |events| - 1;
    if events[n] != Sampled(g) {
      KeptAreSampled(events[..n], g);
    }
  }

  /** How much later the i-th sample was taken than the p-th. */
  ghost function Gap(gs: seq<Given>, p: nat, i: nat): int
    requires p < |gs| && i < |gs|
  {
    gs[i].s.addedAt - gs[p].s.addedAt
  }

  /** The samples from one index up to another are within their interval after sample p. */
  ghost predicate Within(gs: seq<Given>, p: nat, until: nat)
    requires p < |gs| && until <= |gs|
  {
    forall i: nat | p < i < until :: Gap(gs, p, i) <= gs[i].interval
  }

  /** Each point but the first is the first sample more than its interval after the point before it. */
  ghost predicate Steps(points: seq<nat>, gs: seq<Given>) {
    && (forall j | 0 <= j < |points| :: points[j] < |gs|)
    && (forall j | 0 < j < |points| ::
          && points[j - 1] < points[j] && Gap(gs, points[j - 1], points[j]) > gs[points[j]].interval
          && Within(gs, points[j - 1], points[j]))
  }

  /** Points where the baseline rotates: the first is the start, each next is the first sample more
      than its interval after the one before, and there is no such sample after the last. */
  ghost predicate Greedy(points: seq<nat>, gs: seq<Given>) {
    points != [] && points[0] == 0 && Steps(points, gs) && Within(gs, points[|points| - 1], |gs|)
  }

  /** There is at most one way to choose them. */
  lemma {:induction false} GreedySamePrefix(a: seq<nat>, b: seq<nat>, gs: seq<Given>, n: nat)
    requires Greedy(a, gs) && Greedy(b, gs) && n < |a|
    ensures n < |b| && a[n] == b[n]
  {
    if n > 0 {
      GreedySamePrefix(a, b, gs, n - 1);
      assert a[n - 1] < a[n] && Gap(gs, a[n - 1], a[n]) > gs[a[n]].interval;
      assert n < |b|;
      assert b[n - 1] < b[n] && Gap(gs, b[n - 1], b[n]) > gs[b[n]].interval;
      assert Within(gs, a[n - 1], a[n]) && Within(gs, b[n - 1], b[n]);
    }
  }

  lemma GreedyIsUnique(a: seq<nat>, b: seq<nat>, gs: seq<Given>)
    requires Greedy(a, gs) && Greedy(b, gs)
    ensures a == b
  {
    GreedySamePrefix(a, b, gs, |a| - 1);
    GreedySamePrefix(b, a, gs, |b| - 1);
    forall n: nat | n < |a| ensures a[n] == b[n] {
      GreedySamePrefix(a, b, gs, n);
    }
  }

  /** The points after one more sample. */
  ghost function NextPoints(points: seq<nat>, gs: seq<Given>, g: Given): seq<nat>
    requires Greedy(points, gs)
  {
    if gs[points[|points| - 1]].s.addedAt < g.s.addedAt - g.interval then points + [|gs|] else points
  }

  lemma WithinExtends(gs: seq<Given>, p: nat, until: nat, g: Given)
    requires p < |gs| && until <= |gs|
    ensures Within(gs, p, until) ==> Within(gs + [g], p, until)
  {
    if Within(gs, p, until) {
      forall i: nat | p < i < until ensures Gap(gs + [g], p, i) <= (gs + [g])[i].interval {
        assert Gap(gs, p, i) <= gs[i].interval;
      }
    }
  }

  lemma StepsExtend(points: seq<nat>, gs: seq<Given>, g: Given)
    requires Steps(points, gs)
    ensures Steps(points, gs + [g])
  {
    forall j | 0 < j < |points|
      ensures Within(gs + [g], points[j - 1], points[j])
      ensures Gap(gs + [g], points[j - 1], points[j]) > (gs + [g])[points[j]].interval
    {
      assert Gap(gs, points[j - 1], points[j]) > gs[points[j]].interval && Within(gs, points[j - 1], points[j]);
      WithinExtends(gs, points[j - 1], points[j], g);
    }
  }

  lemma StepsAppend(points: seq<nat>, gs: seq<Given>, q: nat)
    requires points != [] && Steps(points, gs) && points[|points| - 1] < q < |gs|
    requires var last := points[|points| - 1]; Gap(gs, last, q) > gs[q].interval && Within(gs, last, q)
    ensures Steps(points + [q], gs)
  {
    var next := points + [q];
    forall j | 0 < j < |next|
      ensures next[j - 1] < next[j] && Gap(gs, next[j - 1], next[j]) > gs[next[j]].interval
              && Within(gs, next[j - 1], next[j])
    {
      if j < |points| {
        assert Gap(gs, points[j - 1], points[j]) > gs[points[j]].interval && Within(gs, points[j - 1], points[j]);
      }
    }
  }

  lemma NextIsGreedy(points: seq<nat>, gs: seq<Given>, g: Given)
    requires Greedy(points, gs)
    ensures Greedy(NextPoints(points, gs, g), gs + [g])
  {
    StepsExtend(points, gs, g);
    var last, more := points[|points| - 1], gs + [g];
    WithinExtends(gs, last, |gs|, g);
    if gs[last].s.addedAt < g.s.addedAt - g.interval {
      StepsAppend(points, more, |gs|);
    } else {
      assert Within(more, last, |more|);
    }
  }

  /** The entry that belongs to the samples with these rotation points. */
  ghost function EntryAt(gs: seq<Given>, points: seq<nat>): ChurnEntry
    requires Greedy(points, gs)
  {
    var r := points[|points| - 1];
    ChurnEntry(gs[0].interval, gs[0].values,
               Baseline(gs[r].s.addedAt, if r == 0 then None else Some(gs[r - 1].s.sketch)), gs[|gs| - 1].s)
  }

  lemma FirstSample(g: Given)
    ensures Greedy([0], [g]) && Updated(None, g.interval, g.values, g.s) == EntryAt([g], [0])
  {
  }

  lemma NextSample(gs: seq<Given>, points: seq<nat>, g: Given)
    requires Greedy(points, gs)
    ensures var next := NextPoints(points, gs, g);
            && Greedy(next, gs + [g])
            && Updated(Some(EntryAt(gs, points)), g.interval, g.values, g.s) == EntryAt(gs + [g], next)
  {
    NextIsGreedy(points, gs, g);
  }

  /** What the entry has to be, given the samples that count. */
  ghost predicate Characterised(e: Option<ChurnEntry>, gs: seq<Given>, points: seq<nat>) {
    if gs == [] then e == None else Greedy(points, gs) && e == Some(EntryAt(gs, points))
  }

  /** After any run of updates and cleanups, the entry is there iff there are samples since the last
      drop; it has the interval and the values of the first of them, its current sketch is the last, and
      its baseline the sample just before the last rotation point, or nothing before the first rotation. */
  lemma {:induction false} RunCharacterisation(events: seq<Event>) returns (points: seq<nat>)
    ensures Characterised(AfterEvents(events), Kept(events), points)
  {
    points := [];
    if events != [] {
      var n := |events| - 1;
      var before := RunCharacterisation(events[..n]);
      points := AfterOneMore(events, before);
    }
  }

  lemma AfterOneMore(events: seq<Event>, before: seq<nat>) returns (points: seq<nat>)
    requires events != []
    requires var first := events[..|events| - 1]; Characterised(AfterEvents(first), Kept(first), before)
    ensures Characterised(AfterEvents(events), Kept(events), points)
  {
    points := before;
    var n := |events| - 1;
    var gs := Kept(events[..n]);
    if events[n].Sampled? {
      var g := events[n].g;
      if gs == [] {
        points := [0];
        FirstSample(g);
        assert gs + [g] == [g];
      } else {
        points := NextPoints(before, gs, g);
        NextSample(gs, before, g);
      }
    }
  }

  /** So after any calls the object has, for each key, what its samples since the last drop make of it. */
  lemma EntriesAreCharacterised(cs: ChurnSnapshots, k: ChurnKey) returns (points: seq<nat>)
    requires cs.Valid()
    ensures Characterised(Lookup(cs.entries, k), Kept(EventsFor(cs.history, k)), points)
  {
    points := RunCharacterisation(EventsFor(cs.history, k));
    assert Lookup(cs.entries, k) == AfterEvents(EventsFor(cs.history, k));
  }

  /** The current sample is at most an interval after the baseline. */
  ghost predicate Recent(e: ChurnEntry, interval: int) {
    e.curr.addedAt - e.prev.addedAt <= interval
  }

  /** The interval that came with the last sample. */
  ghost function LastInterval(events: seq<Event>): int
    requires Kept(events) != []
  {
    var gs := Kept(events);
    gs[|gs| - 1].interval
  }

  /** That holds after any run, unless the interval is negative: then it holds only where the clock went
      back since the baseline was taken. */
  lemma {:induction false} BaselineIsRecent(events: seq<Event>)
    ensures var e := AfterEvents(events);
            e.Some? ==>
              && Kept(events) != []
              && (Recent(e.value, LastInterval(events)) <==>
                    LastInterval(events) >= 0 || e.value.curr.addedAt < e.value.prev.addedAt)
  {
    var points := RunCharacterisation(events);
    CurrentIsWithin(AfterEvents(events), Kept(events), points);
  }

  ghost predicate AllWith(events: seq<Event>, interval: int) {
    forall g | Sampled(g) in events :: g.interval == interval
  }

  ghost predicate RecentAfter(events: seq<Event>, interval: int) {
    AfterEvents(events).Some? ==> Recent(AfterEvents(events).value, interval)
  }

  /** So the bound holds over all runs of a stream exactly if its interval is not negative. */
  lemma AlwaysRecentIff(interval: int)
    ensures (forall events | AllWith(events, interval) :: RecentAfter(events, interval)) <==> interval >= 0
  {
    if interval >= 0 {
      forall events | AllWith(events, interval) ensures RecentAfter(events, interval) {
        BaselineIsRecent(events);
        if AfterEvents(events).Some? {
          KeptAreSampled(events, Kept(events)[|Kept(events)| - 1]);
        }
      }
    } else {
      var g := Given(interval, [], Sample(0, SketchValue(0, {})));
      var events := [Sampled(g)];
      assert events[..0] == [];
      assert AfterEvents(events) == Some(Updated(None, interval, [], g.s));
      assert AllWith(events, interval) && !RecentAfter(events, interval);
    }
  }

  lemma CurrentIsWithin(e: Option<ChurnEntry>, gs: seq<Given>, points: seq<nat>)
    requires Characterised(e, gs, points)
    ensures gs != [] <==> e.Some?
    ensures e.Some? ==>
              var interval := gs[|gs| - 1].interval;
              Recent(e.value, interval) <==> interval >= 0 || e.value.curr.addedAt < e.value.prev.addedAt
  {
    if gs != [] {
      var last, n := points[|points| - 1], |gs| - 1;
      assert last < n ==> Gap(gs, last, n) <= gs[n].interval;
    }
  }

  /* The ratio */

  /** The ratio over any estimate. Estimates are unsigned 64-bit numbers, and doubling wraps. */
  function Ratio(e: ChurnEntry, estimate: SketchValue -> Uint64): (r: real)
    ensures 0.0 <= r <= 1.0
  {
    if e.prev.sketch.None? || e.prev.sketch.value.precision != e.curr.sketch.precision then 0.0
    else
      var psk, csk := e.prev.sketch.value, e.curr.sketch;
      var union := estimate(Merged(csk, psk));
      if union == 0 then 0.0
      else
        var churn := ((2 * union) % TWO_TO_THE_64) as real - estimate(psk) as real - estimate(csk) as real;
        var rate := churn / union as real;
        if rate < 0.0 then 0.0 else if rate > 1.0 then 1.0 else rate
  }

  lemma SetSizes<T>(a: set<T>, b: set<T>)
    ensures |a + b| == |a - b| + |b - a| + |a * b|
    ensures |a| == |a - b| + |a * b| && |b| == |b - a| + |a * b|
  {
    assert a == (a - b) + (a * b);
    assert b == (b - a) + (a * b);
    assert a + b == (a - b) + (b - a) + (a * b);
  }

  lemma Quotient(x: int, n: int)
    requires 0 <= x <= n && 0 < n
    ensures 0.0 <= x as real / n as real <= 1.0
    ensures x as real / n as real == 0.0 <==> x == 0
    ensures x as real / n as real == 1.0 <==> x == n
  {
    var q := x as real / n as real;
    assert q * n as real == x as real;
  }

  /** With exact estimates the ratio is the share of the hashes that only one side has: zero exactly
      for equal sets, one exactly for disjoint ones. */
  lemma ExactRatio(e: ChurnEntry, estimate: SketchValue -> Uint64)
    requires e.prev.sketch.Some? && e.prev.sketch.value.precision == e.curr.sketch.precision
    requires var a, b := e.prev.sketch.value.hashes, e.curr.sketch.hashes;
             && a + b != {} && |a + b| < TWO_TO_THE_64 / 2
             && (forall s: SketchValue | s.hashes <= a + b :: estimate(s) == |s.hashes|)
    ensures var a, b := e.prev.sketch.value.hashes, e.curr.sketch.hashes;
            && Ratio(e, estimate) == |(a - b) + (b - a)| as real / |a + b| as real
            && (Ratio(e, estimate) == 0.0 <==> a == b)
            && (Ratio(e, estimate) == 1.0 <==> a !! b)
  {
    var psk, csk := e.prev.sketch.value, e.curr.sketch;
    var a, b := psk.hashes, csk.hashes;
    var union := Merged(csk, psk);
    assert union.hashes == a + b;
    SetSizes(a, b);
    assert |(a - b) + (b - a)| == |a - b| + |b - a|;
    assert estimate(union) == |a + b| && estimate(psk) == |a| && estimate(csk) == |b|;
    var only := |a - b| + |b - a|;
    assert (2 * |a + b|) % TWO_TO_THE_64 == 2 * |a + b|;
    assert (2 * |a + b|) as real - |a| as real - |b| as real == only as real;
    Quotient(only, |a + b|);
    EqualOrDisjoint(a, b);
  }

  lemma EqualOrDisjoint(a: set<Uint64>, b: set<Uint64>)
    ensures |a - b| + |b - a| == 0 <==> a == b
    ensures |a - b| + |b - a| == |a + b| <==> a !! b
  {
    SetSizes(a, b);
    if |a - b| + |b - a| == 0 {
      assert a - b == {} && b - a == {};
    }
    if a !! b {
      assert a * b == {};
    }
    if a * b == {} {
      assert a !! b;
    }
  }
}
