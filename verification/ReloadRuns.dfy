/** How runs of the reload protocol are put together: which loads they make, and how a load or a
    request is carried out step by step while nothing else happens. */
module ReloadRuns {
  import opened Base
  import opened ReloadProtocol

  /* The loads of a run */

  /** The active sets of a run, the startup one and one for each load. */
  ghost function History(run: seq<State>): (r: seq<set<Instance>>)
    requires run != []
    ensures r != [] && r[|r| - 1] == run[|run| - 1].active
  {
    var active := run[|run| - 1].active;
    if |run| == 1 then [active]
    else
      var before := History(run[..|run| - 1]);
      if active == before[|before| - 1] then before else before + [active]
  }

  ghost predicate Changes(loads: seq<set<Instance>>, i: nat)
    requires i + 1 < |loads|
  {
    loads[i] != loads[i + 1]
  }

  /** Every load changes the set: it creates estimators or only removes some. */
  ghost predicate IsHistory(loads: seq<set<Instance>>) {
    loads != [] && forall i: nat | i + 1 < |loads| :: Changes(loads, i)
  }

  /** How many of the loads up to position p created an estimator. */
  ghost function Generation(loads: seq<set<Instance>>, p: nat): nat
    requires p < |loads|
  {
    if p == 0 then 0 else Generation(loads, p - 1) + if loads[p] - loads[p - 1] != {} then 1 else 0
  }

  lemma {:induction false} GenerationOfPrefix(loads: seq<set<Instance>>, n: nat, p: nat)
    requires p < n <= |loads|
    ensures Generation(loads[..n], p) == Generation(loads, p)
  {
    if p > 0 {
      GenerationOfPrefix(loads, n, p - 1);
    }
  }

  lemma StepHistory(order: Order, s: State, t: State)
    requires Next(order, s, t)
    ensures t.expands == s.expands
    ensures t.generation == s.generation + if t.active - s.active != {} then 1 else 0
  {
    if LoaderStep(order, s, t) || Rotate(s, t) {
      LoaderStepFrame(order, s, t);
    } else {
      var w: nat :| WriterStep(order, s, t, w);
      WriterStepFrame(order, s, t, w);
    }
  }

  /** The generation goes up with each load that creates an estimator, and only then. */
  ghost predicate Generations(run: seq<State>) {
    && run != []
    && if |run| == 1 then run[0].generation == 0
       else
         var s, t := run[|run| - 2], run[|run| - 1];
         && Generations(run[..|run| - 1])
         && t.generation == s.generation + if t.active - s.active != {} then 1 else 0
  }

  lemma {:induction false} RunGenerations(order: Order, run: seq<State>)
    requires IsRun(order, run)
    ensures Generations(run)
  {
    if |run| > 1 {
      RunGenerations(order, run[..|run| - 1]);
      StepHistory(order, run[|run| - 2], run[|run| - 1]);
    }
  }

  /** Each state of a run is in the generation that the loads up to then make. */
  lemma {:induction false} PositionOf(run: seq<State>, i: nat) returns (p: nat)
    requires Generations(run) && i < |run|
    ensures var loads := History(run);
            && p < |loads| && run[i].active == loads[p] && run[i].generation == Generation(loads, p)
            && (i == |run| - 1 ==> p == |loads| - 1)
  {
    var n := |run| - 1;
    var loads := History(run);
    if n == 0 {
      p := 0;
    } else {
      var before := History(run[..n]);
      p := PositionOf(run[..n], if i < n then i else n - 1);
      assert loads[..|before|] == before;
      GenerationOfPrefix(loads, |before|, p);
      if i == n {
        p := |loads| - 1;
      }
    }
  }

  /** A state that a run with these loads comes to. */
  ghost predicate Leads(order: Order, loads: seq<set<Instance>>, s: State) {
    exists run: seq<State> :: IsRun(order, run) && History(run) == loads && run[|run| - 1] == s
  }

  lemma Extend(order: Order, loads: seq<set<Instance>>, s: State, t: State)
    requires Next(order, s, t)
    ensures Leads(order, loads, s) ==> Leads(order, Made(loads, s, t), t)
  {
    if run: seq<State> :| IsRun(order, run) && History(run) == loads && run[|run| - 1] == s {
      LongerRun(order, run, t);
      LongerHistory(run, t);
    }
  }

  lemma LongerRun(order: Order, run: seq<State>, t: State)
    requires IsRun(order, run) && Next(order, run[|run| - 1], t)
    ensures IsRun(order, run + [t])
  {
    assert (run + [t])[..|run|] == run;
  }

  lemma LongerHistory(run: seq<State>, t: State)
    requires run != []
    ensures History(run + [t])
            == if t.active == run[|run| - 1].active then History(run) else History(run) + [t.active]
  {
    assert (run + [t])[..|run|] == run;
  }

  lemma LeadsIsReachable(order: Order, loads: seq<set<Instance>>, s: State)
    ensures Leads(order, loads, s) ==> Reachable(order, s)
  {
    if run: seq<State> :| IsRun(order, run) && History(run) == loads && run[|run| - 1] == s {
    }
  }

  ghost function Start(active: set<Instance>, expands: set<Instance>, writers: nat): State {
    State(active, 0, seq(SLOTS, i => Filter(0, {})), seq(SLOTS, i => i), Ready, seq(writers, i => Idle), {},
          expands, active * expands != {}, false, {}, {})
  }

  /* The states that runs come to, as far as what follows needs to know */

  /** What holds of a state that a run with these loads comes to. */
  type Reach = (seq<set<Instance>>, State) -> bool

  ghost function Made(loads: seq<set<Instance>>, s: State, t: State): seq<set<Instance>> {
    if t.active == s.active then loads else loads + [t.active]
  }

  /** It holds at the start of every run, and every step keeps it. */
  ghost predicate Follows(order: Order, reach: Reach) {
    && (forall s | Init(s) :: reach([s.active], s))
    && (forall loads, s, t | reach(loads, s) && Next(order, s, t) :: reach(Made(loads, s, t), t))
  }

  ghost function LedBy(order: Order): Reach { (loads, s) => Leads(order, loads, s) }

  lemma RunsFollow(order: Order)
    ensures Follows(order, LedBy(order))
  {
    forall s | Init(s) ensures LedBy(order)([s.active], s) {
      assert IsRun(order, [s]) && History([s]) == [s.active];
    }
    forall loads, s, t | LedBy(order)(loads, s) && Next(order, s, t) ensures LedBy(order)(Made(loads, s, t), t) {
      Extend(order, loads, s, t);
    }
  }

  lemma Steps(order: Order, reach: Reach, loads: seq<set<Instance>>, s: State, t: State)
    requires Follows(order, reach) && reach(loads, s) && Next(order, s, t)
    ensures reach(Made(loads, s, t), t)
  {
  }

  lemma Starts(order: Order, reach: Reach, active: set<Instance>, expands: set<Instance>, writers: nat)
    returns (s: State)
    requires Follows(order, reach)
    ensures s == Start(active, expands, writers) && reach([active], s)
  {
    s := Start(active, expands, writers);
    assert Init(s);
  }

  /* One request, by writer w, for a batch of the fingerprint h alone */

  /** Writer w has come to x, and the loader, the estimators and the slots are where they were. */
  ghost predicate Moved(s: State, t: State, w: nat, x: Writer) {
    && w < |s.writers| && t.writers == s.writers[w := x]
    && t.active == s.active && t.generation == s.generation && t.slots == s.slots && t.loader == s.loader
    && t.expands == s.expands && t.fpLabels == s.fpLabels && t.announced == s.announced
  }

  /** Nothing was recorded, handed over or parsed. */
  ghost predicate Silent(s: State, t: State) {
    t.filters == s.filters && t.handed == s.handed && t.counted == s.counted && t.labelled == s.labelled
  }

  lemma MovedTwice(s: State, u: State, t: State, w: nat, x: Writer, y: Writer)
    requires Moved(s, u, w, x) && Moved(u, t, w, y)
    ensures Moved(s, t, w, y)
  {
  }

  lemma Moves(order: Order, reach: Reach, loads: seq<set<Instance>>, s: State, t: State, w: nat)
    requires Follows(order, reach)
    requires reach(loads, s) && WriterStep(order, s, t, w)
    ensures reach(loads, t)
  {
    WriterStepFrame(order, s, t, w);
    Steps(order, reach, loads, s, t);
  }

  ghost function Early(order: Order, s: State): Option<set<Instance>> {
    if order.filterFirst then None else Some(s.active)
  }

  lemma Begins(order: Order, reach: Reach, loads: seq<set<Instance>>, s: State, w: nat, h: Uint64)
    returns (t: State)
    requires Follows(order, reach)
    requires reach(loads, s) && w < |s.writers| && s.writers[w] == Idle
    ensures reach(loads, t) && Moved(s, t, w, Scanning([h], 0, [], Early(order, s)))
    ensures t.filters == s.filters && t.handed == s.handed && t.counted == s.counted
    ensures t.labelled == if s.fpLabels then s.labelled + {w} else s.labelled - {w}
  {
    t := s.(writers := s.writers[w := Scanning([h], 0, [], Early(order, s))],
            labelled := if s.fpLabels then s.labelled + {w} else s.labelled - {w});
    assert Begin(order, s, t, w, [h]) && WriterStep(order, s, t, w);
    Moves(order, reach, loads, s, t, w);
  }

  /** The writer takes the pointer of the filter in the slot of h. */
  lemma Looks(order: Order, reach: Reach, loads: seq<set<Instance>>, s: State, w: nat, h: Uint64,
              early: Option<set<Instance>>)
    returns (t: State)
    requires Follows(order, reach)
    requires reach(loads, s) && w < |s.writers| && |s.slots| == SLOTS
    requires s.writers[w] == Scanning([h], 0, [], early)
    ensures reach(loads, t) && Moved(s, t, w, Probing([h], 0, [], early, s.slots[h % SLOTS])) && Silent(s, t)
  {
    t := s.(writers := s.writers[w := Probing([h], 0, [], early, s.slots[h % SLOTS])]);
    assert Look(s, t, w);
    Moves(order, reach, loads, s, t, w);
  }

  lemma FindsNew(order: Order, reach: Reach, loads: seq<set<Instance>>, s: State, w: nat, h: Uint64,
                 early: Option<set<Instance>>, f: nat)
    returns (t: State)
    requires Follows(order, reach)
    requires reach(loads, s) && w < |s.writers| && s.writers[w] == Probing([h], 0, [], early, f)
    requires f < |s.filters| && h !in s.filters[f].items
    ensures reach(loads, t) && Moved(s, t, w, Recording([h], 0, [], early, f)) && Silent(s, t)
  {
    t := s.(writers := s.writers[w := Recording([h], 0, [], early, f)]);
    assert Miss(s, t, w, false);
    Moves(order, reach, loads, s, t, w);
  }

  lemma Records(order: Order, reach: Reach, loads: seq<set<Instance>>, s: State, w: nat, h: Uint64,
                early: Option<set<Instance>>, f: nat)
    returns (t: State)
    requires Follows(order, reach)
    requires reach(loads, s) && w < |s.writers| && s.writers[w] == Recording([h], 0, [], early, f)
    requires f < |s.filters|
    ensures reach(loads, t) && Moved(s, t, w, Appending([h], 0, [], early))
    ensures t.filters == s.filters[f := Filter(s.filters[f].generation, s.filters[f].items + {h})]
    ensures t.handed == s.handed && t.counted == s.counted && t.labelled == s.labelled
  {
    var batch: seq<Uint64> := [h];
    t := s.(filters := s.filters[f := s.filters[f].(items := s.filters[f].items + {batch[0]})],
            writers := s.writers[w := Appending(batch, 0, [], early)]);
    assert Record(s, t, w);
    Moves(order, reach, loads, s, t, w);
  }

  lemma Appends(order: Order, reach: Reach, loads: seq<set<Instance>>, s: State, w: nat, h: Uint64,
                early: Option<set<Instance>>)
    returns (t: State)
    requires Follows(order, reach)
    requires reach(loads, s) && w < |s.writers| && s.writers[w] == Appending([h], 0, [], early)
    ensures reach(loads, t) && Moved(s, t, w, Scanning([h], 1, [h], early)) && Silent(s, t)
  {
    var batch: seq<Uint64> := [h];
    t := s.(writers := s.writers[w := Scanning(batch, 1, [] + [batch[0]], early)]);
    assert Append(s, t, w);
    Moves(order, reach, loads, s, t, w);
    assert [] + [batch[0]] == [h];
  }

  lemma TakesList(order: Order, reach: Reach, loads: seq<set<Instance>>, s: State, w: nat, h: Uint64,
                  early: Option<set<Instance>>)
    returns (t: State)
    requires Follows(order, reach)
    requires reach(loads, s) && w < |s.writers| && s.writers[w] == Scanning([h], 1, [h], early)
    ensures reach(loads, t) && Silent(s, t)
    ensures Moved(s, t, w, Inserting([h], if early.Some? then early.value else s.active, {}))
  {
    t := s.(writers := s.writers[w := Inserting([h], if early.Some? then early.value else s.active, {})]);
    assert LoadEstimators(s, t, w);
    Moves(order, reach, loads, s, t, w);
  }

  /** Only estimators of es were handed anything new, and they count it only if they can. */
  ghost predicate HandedOnlyTo(s: State, t: State, w: nat, es: set<Instance>) {
    && t.filters == s.filters && t.labelled == s.labelled
    && (forall x | x in t.handed :: x in s.handed || x.1 in es)
    && (forall x | x in t.counted :: x in s.counted || (x.1 in es && CanCount(s, w, x.1)))
  }

  lemma HandsToOne(order: Order, reach: Reach, loads: seq<set<Instance>>, s: State, w: nat, h: Uint64,
                   es: set<Instance>, done: set<Instance>, e: Instance)
    returns (t: State)
    requires Follows(order, reach)
    requires reach(loads, s) && w < |s.writers| && s.writers[w] == Inserting([h], es, done) && e in es - done
    ensures reach(loads, t) && Moved(s, t, w, Inserting([h], es, done + {e})) && HandedOnlyTo(s, t, w, es)
  {
    t := s.(handed := s.handed + (set x | x in [h] :: (x, e)), counted := s.counted + CountedBy(s, w, e, [h]),
            writers := s.writers[w := Inserting([h], es, done + {e})]);
    assert InsertMany(s, t, w, e) && WriterStep(order, s, t, w);
    Moves(order, reach, loads, s, t, w);
  }

  lemma Finishes(order: Order, reach: Reach, loads: seq<set<Instance>>, s: State, w: nat, h: Uint64,
                 es: set<Instance>)
    returns (t: State)
    requires Follows(order, reach)
    requires reach(loads, s) && w < |s.writers| && s.writers[w] == Inserting([h], es, es)
    ensures reach(loads, t) && Moved(s, t, w, Idle) && Silent(s, t)
  {
    t := s.(writers := s.writers[w := Idle]);
    assert Finish(s, t, w);
    Moves(order, reach, loads, s, t, w);
  }

  /** It hands the series to each estimator of its list and to no other. */
  lemma {:induction false} HandsToAll(order: Order, reach: Reach, loads: seq<set<Instance>>, s: State, w: nat,
                                      h: Uint64, es: set<Instance>, done: set<Instance>)
    returns (t: State)
    requires Follows(order, reach)
    requires reach(loads, s) && w < |s.writers| && s.writers[w] == Inserting([h], es, done) && done <= es
    ensures reach(loads, t) && Moved(s, t, w, Idle) && HandedOnlyTo(s, t, w, es)
    decreases es - done
  {
    if es <= done {
      assert done == es;
      t := Finishes(order, reach, loads, s, w, h, es);
    } else {
      var e :| e in es && e !in done;
      var u := HandsToOne(order, reach, loads, s, w, h, es, done, e);
      t := HandsToAll(order, reach, loads, u, w, h, es, done + {e});
      MovedTwice(s, u, t, w, Inserting([h], es, done + {e}), Idle);
    }
  }

  /** A series about to be recorded is recorded and handed to everybody on the list, and to nobody else. */
  lemma Completes(order: Order, reach: Reach, loads: seq<set<Instance>>, s: State, w: nat, h: Uint64,
                  early: Option<set<Instance>>, f: nat)
    returns (t: State)
    requires Follows(order, reach)
    requires reach(loads, s) && w < |s.writers| && s.writers[w] == Recording([h], 0, [], early, f)
    requires f < |s.filters| && s.filters[f].items == {}
    ensures reach(loads, t) && Moved(s, t, w, Idle)
    ensures t.filters == s.filters[f := Filter(s.filters[f].generation, {h})]
    ensures HandedOnlyTo(s.(filters := t.filters), t, w, if early.Some? then early.value else s.active)
  {
    var es := if early.Some? then early.value else s.active;
    assert s.filters[f].items + {h} == {h};
    var u := Records(order, reach, loads, s, w, h, early, f);
    var v := Appends(order, reach, loads, u, w, h, early);
    MovedTwice(s, u, v, w, Appending([h], 0, [], early), Scanning([h], 1, [h], early));
    var x := TakesList(order, reach, loads, v, w, h, early);
    MovedTwice(s, v, x, w, Scanning([h], 1, [h], early), Inserting([h], es, {}));
    t := HandsToAll(order, reach, loads, x, w, h, es, {});
    MovedTwice(s, x, t, w, Inserting([h], es, {}), Idle);
  }

  /* One load, in the program's loader order */

  /** What loads leave alone. */
  ghost predicate OnlyLoads(s: State, t: State) {
    && t.writers == s.writers && t.handed == s.handed && t.counted == s.counted && t.labelled == s.labelled
    && t.expands == s.expands && s.filters <= t.filters
  }

  /** Every slot holds an empty filter of the present generation. */
  ghost predicate FreshSlots(s: State) {
    |s.slots| == SLOTS
    && forall i | 0 <= i < SLOTS :: s.slots[i] < |s.filters| && s.filters[s.slots[i]] == Filter(s.generation, {})
  }

  lemma {:induction false} ResetRemaining(order: Order, reach: Reach, loads: seq<set<Instance>>, s: State)
    returns (t: State)
    requires Follows(order, reach)
    requires reach(loads, s) && s.loader.Resetting? && s.loader.next <= SLOTS == |s.slots|
    requires forall i | 0 <= i < s.loader.next ::
            s.slots[i] < |s.filters| && s.filters[s.slots[i]] == Filter(s.generation, {})
    ensures reach(loads, t) && t.loader == Resetting(SLOTS) && FreshSlots(t) && OnlyLoads(s, t)
    ensures t == s.(filters := t.filters, slots := t.slots, loader := t.loader)
    decreases SLOTS - s.loader.next
  {
    if s.loader.next == SLOTS {
      t := s;
    } else {
      var u := Replaced(s, s.loader.next).(loader := Resetting(s.loader.next + 1));
      assert ResetSlot(s, u) && u.active == s.active;
      Steps(order, reach, loads, s, u);
      t := ResetRemaining(order, reach, loads, u);
    }
  }

  /** Before a swap that creates an estimator grouping by label, label fingerprints are turned on. */
  lemma Announces(order: Order, reach: Reach, loads: seq<set<Instance>>, s: State, needed: bool)
    returns (t: State)
    requires Follows(order, reach)
    requires reach(loads, s) && s.loader == BeforeSwap(order) && !s.announced
    ensures reach(loads, t) && t == s.(fpLabels := s.fpLabels || needed, announced := needed)
  {
    if needed {
      t := s.(fpLabels := true, announced := true);
      assert TurnOn(order, s, t);
      Steps(order, reach, loads, s, t);
    } else {
      t := s;
    }
  }

  /** A whole load that creates estimators: filters and writers from before stay, the slots get fresh
      filters. */
  lemma Creates(order: Order, reach: Reach, loads: seq<set<Instance>>, s: State, next: set<Instance>)
    returns (t: State)
    requires Follows(order, reach)
    requires order.swapFirst && reach(loads, s) && s.loader == Ready && !s.announced && |s.slots| == SLOTS
    requires next - s.active != {}
    ensures reach(loads + [next], t) && t.loader == Ready && !t.announced && FreshSlots(t) && OnlyLoads(s, t)
    ensures t.active == next && t.generation == s.generation + 1
  {
    var u := Announces(order, reach, loads, s, (next - s.active) * s.expands != {});
    var v := u.(active := next, generation := s.generation + 1, announced := false, loader := Resetting(0));
    assert Swap(order, u, v);
    Steps(order, reach, loads, u, v);
    var x := ResetRemaining(order, reach, loads + [next], v);
    t := x.(loader := Ready);
    assert EndReset(order, x, t);
    Steps(order, reach, loads + [next], x, t);
  }

  /** A state between two loads, at position p of the history. */
  ghost predicate Between(reach: Reach, loads: seq<set<Instance>>, p: nat, s: State) {
    && p < |loads| && reach(loads[..p + 1], s)
    && s.loader == Ready && !s.announced && |s.slots| == SLOTS
    && s.active == loads[p] && s.generation == Generation(loads, p)
  }

  lemma LoadsNext(order: Order, reach: Reach, loads: seq<set<Instance>>, p: nat, s: State)
    returns (t: State)
    requires Follows(order, reach)
    requires order.swapFirst && IsHistory(loads) && Between(reach, loads, p, s) && p + 1 < |loads|
    ensures Between(reach, loads, p + 1, t) && OnlyLoads(s, t) && (FreshSlots(s) ==> FreshSlots(t))
  {
    var next := loads[p + 1];
    assert loads[..p + 1] + [next] == loads[..p + 1 + 1];
    if next - s.active != {} {
      t := Creates(order, reach, loads[..p + 1], s, next);
    } else {
      t := s.(active := next);
      assert Changes(loads, p);
      forall e | e in next ensures e in s.active {
        assert e !in next - s.active;
      }
      assert Shrink(s, t);
      Steps(order, reach, loads[..p + 1], s, t);
    }
  }

  lemma {:induction false} LoadsUpTo(order: Order, reach: Reach, loads: seq<set<Instance>>, p: nat, s: State,
                                     q: nat)
    returns (t: State)
    requires Follows(order, reach)
    requires order.swapFirst && IsHistory(loads) && Between(reach, loads, p, s) && p <= q < |loads|
    ensures Between(reach, loads, q, t) && OnlyLoads(s, t) && (FreshSlots(s) ==> FreshSlots(t))
    decreases q - p
  {
    if p == q {
      t := s;
    } else {
      var u := LoadsNext(order, reach, loads, p, s);
      t := LoadsUpTo(order, reach, loads, p + 1, u, q);
    }
  }

  /** The first position of a generation that the loads come to. */
  lemma {:induction false} FirstOf(loads: seq<set<Instance>>, g: nat, p: nat) returns (q: nat)
    requires p < |loads| && g <= Generation(loads, p)
    ensures q <= p && Generation(loads, q) == g
  {
    if Generation(loads, p) == g {
      q := p;
    } else {
      q := FirstOf(loads, g, p - 1);
    }
  }
}
