/** When a request that took its filter pointer before a load may drop a repeat through it: exactly
    the estimators active ever since that filter's generation are sure to have the series. */
module StaleDrops {
  import opened Base
  import opened ReloadProtocol
  import opened ReloadRuns

  /* A request that drops a repeat through an old filter */

  ghost function Pointer(h: Uint64, f: nat): Writer { Probing([h], 0, [], None, f) }

  /** A request moves its writer and leaves the loads where they are. */
  lemma StaysBetween(reach: Reach, loads: seq<set<Instance>>, q: nat, s: State, t: State, w: nat, x: Writer)
    requires Between(reach, loads, q, s) && Moved(s, t, w, x) && reach(loads[..q + 1], t)
    ensures Between(reach, loads, q, t)
  {
  }

  /** Writer 0 was parsed at the start, with label fingerprints if the startup configuration has them. */
  lemma ParsedAtStart(reach: Reach, loads: seq<set<Instance>>, expands: set<Instance>, q: nat, h: Uint64)
    returns (s: State)
    requires Follows(PROGRAM_ORDER, reach)
    requires IsHistory(loads) && q < |loads|
    ensures Between(reach, loads, q, s) && FreshSlots(s) && s.expands == expands
    ensures s.writers == [Scanning([h], 0, [], None), Idle] && s.handed == {} && s.counted == {}
    ensures 0 in s.labelled <==> loads[0] * expands != {}
  {
    var a := Starts(PROGRAM_ORDER, reach, loads[0], expands, 2);
    assert [loads[0]] == loads[..0 + 1];
    var b := Begins(PROGRAM_ORDER, reach, [loads[0]], a, 0, h);
    assert b.writers == [Scanning([h], 0, [], None), Idle];
    s := LoadsUpTo(PROGRAM_ORDER, reach, loads, 0, b, q);
  }

  /** Writer 1 takes the pointer of a filter as well. */
  lemma SecondLooks(reach: Reach, loads: seq<set<Instance>>, q: nat, s: State, h: Uint64, x: Writer) returns (t: State)
    requires Follows(PROGRAM_ORDER, reach)
    requires Between(reach, loads, q, s) && s.writers == [x, Idle]
    ensures Between(reach, loads, q, t) && t.writers == [x, Pointer(h, s.slots[h % SLOTS])]
    ensures t.filters == s.filters && t.slots == s.slots && t.expands == s.expands
    ensures t.handed == s.handed && t.counted == s.counted && (0 in t.labelled <==> 0 in s.labelled)
  {
    var u := Begins(PROGRAM_ORDER, reach, loads[..q + 1], s, 1, h);
    t := Looks(PROGRAM_ORDER, reach, loads[..q + 1], u, 1, h, None);
    MovedTwice(s, u, t, 1, Scanning([h], 0, [], None), Pointer(h, s.slots[h % SLOTS]));
    StaysBetween(reach, loads, q, s, t, 1, Pointer(h, s.slots[h % SLOTS]));
  }

  /** Writer 0 takes the same pointer and is about to record. */
  lemma FirstLooks(reach: Reach, loads: seq<set<Instance>>, q: nat, s: State, h: Uint64, x: Writer) returns (t: State)
    requires Follows(PROGRAM_ORDER, reach)
    requires Between(reach, loads, q, s) && s.writers == [Scanning([h], 0, [], None), x]
    requires s.slots[h % SLOTS] < |s.filters| && s.filters[s.slots[h % SLOTS]].items == {}
    ensures Between(reach, loads, q, t) && Silent(s, t) && t.expands == s.expands
    ensures t.writers == [Recording([h], 0, [], None, s.slots[h % SLOTS]), x]
  {
    var f := s.slots[h % SLOTS];
    var u := Looks(PROGRAM_ORDER, reach, loads[..q + 1], s, 0, h, None);
    t := FindsNew(PROGRAM_ORDER, reach, loads[..q + 1], u, 0, h, None, f);
    MovedTwice(s, u, t, 0, Pointer(h, f), Recording([h], 0, [], None, f));
    StaysBetween(reach, loads, q, s, t, 0, Recording([h], 0, [], None, f));
  }

  /** Both writers hold the pointer of a filter of generation g; writer 0 is about to record. */
  lemma TwoHoldPointer(reach: Reach, loads: seq<set<Instance>>, expands: set<Instance>, q: nat, h: Uint64)
    returns (s: State, f: nat)
    requires Follows(PROGRAM_ORDER, reach)
    requires IsHistory(loads) && q < |loads|
    ensures Between(reach, loads, q, s) && s.expands == expands && s.handed == {} && s.counted == {}
    ensures f < |s.filters| && s.filters[f] == Filter(Generation(loads, q), {})
    ensures s.writers == [Recording([h], 0, [], None, f), Pointer(h, f)]
    ensures 0 in s.labelled <==> loads[0] * expands != {}
  {
    var a := ParsedAtStart(reach, loads, expands, q, h);
    f := a.slots[h % SLOTS];
    var b := SecondLooks(reach, loads, q, a, h, Scanning([h], 0, [], None));
    s := FirstLooks(reach, loads, q, b, h, Pointer(h, f));
  }

  /** Writer 0 records in the filter and hands over at position p. */
  lemma HandsOverAt(reach: Reach, loads: seq<set<Instance>>, p: nat, s: State, h: Uint64, f: nat) returns (t: State)
    requires Follows(PROGRAM_ORDER, reach)
    requires Between(reach, loads, p, s) && s.writers == [Recording([h], 0, [], None, f), Pointer(h, f)]
    requires f < |s.filters| && s.filters[f].items == {} && s.handed == {} && s.counted == {}
    ensures Between(reach, loads, p, t) && t.writers == [Idle, Pointer(h, f)] && t.expands == s.expands
    ensures f < |t.filters| && t.filters[f] == Filter(s.filters[f].generation, {h})
    ensures forall x | x in t.handed :: x.1 in loads[p]
    ensures forall x | x in t.counted :: x.1 in loads[p] && CanCount(s, 0, x.1)
  {
    t := Completes(PROGRAM_ORDER, reach, loads[..p + 1], s, 0, h, None, f);
    StaysBetween(reach, loads, p, s, t, 0, Idle);
  }

  /** Writer 0 records in a filter of generation g and hands over at position p; after the last load,
      writer 1 drops the repeat. Nobody who was not active at p is given the series, and nobody
      counts it who cannot count what was parsed at the start. */
  lemma DropsAfterAll(reach: Reach, loads: seq<set<Instance>>, expands: set<Instance>, g: nat, p: nat, h: Uint64)
    returns (s: State, t: State)
    requires Follows(PROGRAM_ORDER, reach)
    requires IsHistory(loads) && p < |loads| && g <= Generation(loads, p)
    ensures Between(reach, loads, |loads| - 1, s) && s.expands == expands
    ensures |s.writers| == 2 && Drop(s, t, 1) && DropsThrough(s, 1, g, h)
    ensures t.writers == [Idle, Scanning([h], 1, [], None)]
    ensures forall x | x in t.handed :: x.1 in loads[p]
    ensures forall x | x in t.counted :: x.1 in loads[p] && (x.1 in expands ==> loads[0] * expands != {})
  {
    var q := FirstOf(loads, g, p);
    var a, f := TwoHoldPointer(reach, loads, expands, q, h);
    var b := LoadsUpTo(PROGRAM_ORDER, reach, loads, q, a, p);
    assert b.filters[f] == Filter(g, {});
    var c := HandsOverAt(reach, loads, p, b, h, f);
    s := LoadsUpTo(PROGRAM_ORDER, reach, loads, p, c, |loads| - 1);
    assert s.filters[f] == c.filters[f];
    t := s.(writers := s.writers[1 := Scanning([h], 1, [], None)]);
  }

  /** If e is not active at some position from generation g on, a request can record a series in a
      filter of generation g and hand it over there, and another one can drop a repeat through that
      filter after the last load: e never gets it. */
  lemma {:induction false} StaleDropIsPossible(loads: seq<set<Instance>>, g: nat, p: nat, e: Instance, h: Uint64)
    returns (s: State, t: State)
    requires IsHistory(loads) && p < |loads| && g <= Generation(loads, p) && e !in loads[p]
    ensures Between(LedBy(PROGRAM_ORDER), loads, |loads| - 1, s) && |s.writers| == 2 && Drop(s, t, 1)
    ensures DropsThrough(s, 1, g, h) && !Delivered(t, h, e)
  {
    RunsFollow(PROGRAM_ORDER);
    s, t := DropsAfterAll(LedBy(PROGRAM_ORDER), loads, {}, g, p, h);
    assert (h, e) !in t.handed;
  }

  /* The exact condition */

  /** Writer w is about to look h up in a filter of generation g that has it or is being given it. */
  ghost predicate DropsThrough(s: State, w: nat, g: nat, h: Uint64)
    requires w < |s.writers|
  {
    && s.writers[w].Probing? && s.writers[w].filter < |s.filters| && s.writers[w].i < |s.writers[w].batch|
    && s.writers[w].batch[s.writers[w].i] == h
    && s.filters[s.writers[w].filter].generation == g && Knows(s, s.writers[w].filter, h)
  }

  /** A run with exactly these loads, and a drop of h through a filter of generation g. */
  ghost predicate IsDrop(loads: seq<set<Instance>>, run: seq<State>, t: State, w: nat, g: nat, h: Uint64) {
    && IsRun(PROGRAM_ORDER, run) && History(run) == loads
    && var s := run[|run| - 1];
       w < |s.writers| && Drop(s, t, w) && DropsThrough(s, w, g, h)
  }

  /** The estimator is active at every position of the history from generation g on. */
  ghost predicate ActiveSince(loads: seq<set<Instance>>, g: nat, e: Instance) {
    forall p: nat | p < |loads| && Generation(loads, p) >= g :: e in loads[p]
  }

  lemma {:induction false} LastsThrough(run: seq<State>, g: nat, e: Instance)
    requires IsRun(PROGRAM_ORDER, run) && ActiveSince(History(run), g, e)
    ensures Lasting(run, e, g)
  {
    RunGenerations(PROGRAM_ORDER, run);
    forall i | 0 <= i < |run| && run[i].generation >= g ensures e in run[i].active {
      var p := PositionOf(run, i);
    }
  }

  /** For every history of loads and every filter generation it comes to, dropping a repeat is safe for
      an estimator exactly if it has been active since that generation. */
  lemma DropsAreSafeIff(loads: seq<set<Instance>>, g: nat, e: Instance, h: Uint64)
    requires IsHistory(loads) && g <= Generation(loads, |loads| - 1)
    ensures (forall run: seq<State>, t: State, w: nat | IsDrop(loads, run, t, w, g, h) :: Delivered(t, h, e))
            <==> ActiveSince(loads, g, e)
  {
    if ActiveSince(loads, g, e) {
      forall run: seq<State>, t: State, w: nat | IsDrop(loads, run, t, w, g, h) ensures Delivered(t, h, e) {
        LastsThrough(run, g, e);
        RepeatDropIsSafe(run, t, w, e);
      }
    } else {
      var p: nat :| p < |loads| && Generation(loads, p) >= g && e !in loads[p];
      var s, t := StaleDropIsPossible(loads, g, p, e, h);
      var run := RunTo(loads, s);
      assert IsDrop(loads, run, t, 1, g, h);
    }
  }

  lemma {:induction false} RunTo(loads: seq<set<Instance>>, s: State) returns (run: seq<State>)
    requires loads != [] && Between(LedBy(PROGRAM_ORDER), loads, |loads| - 1, s)
    ensures IsRun(PROGRAM_ORDER, run) && History(run) == loads && run[|run| - 1] == s
  {
    assert loads[..|loads| - 1 + 1] == loads;
    run :| IsRun(PROGRAM_ORDER, run) && History(run) == loads && run[|run| - 1] == s;
  }
}
