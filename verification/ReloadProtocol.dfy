/** The hand-over between config reloads and in-flight write requests.

    A write request first filters its batch through the deduplicator and only then loads the
    estimator list. A reload first swaps the estimator list and only then replaces the ten Bloom
    filters. Both orders are parameters of the step relation, so that what they are needed for can
    be stated: the protocol is safe exactly when both are as the program has them.

    Labels are only fingerprinted once a stream asked for it; the flag is read when a request is
    parsed, before it is filtered. */
module ReloadProtocol {
  import opened Base

  type Instance = nat  // the identity of an estimator object

  /** A Bloom filter object, with the generation of the estimator list it was created under. */
  datatype Filter = Filter(generation: nat, items: set<Uint64>)

  datatype Writer =
    | Idle
      // about to load the filter pointer for batch[i], or to leave the loop; early is the
      // estimator list when it was loaded before filtering
    | Scanning(batch: seq<Uint64>, i: nat, out: seq<Uint64>, early: Option<set<Instance>>)
      // holds the pointer of the filter for batch[i]
    | Probing(batch: seq<Uint64>, i: nat, out: seq<Uint64>, early: Option<set<Instance>>, filter: nat)
      // found batch[i] absent and the filter not full
    | Recording(batch: seq<Uint64>, i: nat, out: seq<Uint64>, early: Option<set<Instance>>, filter: nat)
      // about to append batch[i] to the output
    | Appending(batch: seq<Uint64>, i: nat, out: seq<Uint64>, early: Option<set<Instance>>)
      // handing the filtered batch to each estimator of the list it loaded
    | Inserting(out: seq<Uint64>, es: set<Instance>, done: set<Instance>)

  datatype Loader = Ready | Resetting(next: nat)

  /** The filter objects ever created are kept in `filters`; `slots` points into it. handed says which
      fingerprints were given to which estimator.

      expands: the estimators that group by label; fpLabels: whether labels are fingerprinted from now
      on; announced: whether the load at hand has turned that on; labelled: the writers whose request
      was parsed with it; counted: what was handed over in a form the estimator could count. */
  datatype State = State(
    active: set<Instance>,
    generation: nat,
    filters: seq<Filter>,
    slots: seq<nat>,
    loader: Loader,
    writers: seq<Writer>,
    handed: set<(Uint64, Instance)>,
    expands: set<Instance>,
    fpLabels: bool,
    announced: bool,
    labelled: set<nat>,
    counted: set<(Uint64, Instance)>)

  datatype Order = Order(swapFirst: bool, filterFirst: bool)

  const PROGRAM_ORDER := Order(true, true)

  /** Requests are served from when the startup configuration is active. */
  ghost predicate Init(s: State) {
    && s.generation == 0 && s.loader == Ready && s.handed == {}
    && s.fpLabels == (s.active * s.expands != {}) && !s.announced && s.labelled == {} && s.counted == {}
    && |s.slots| == SLOTS && |s.filters| == SLOTS
    && (forall i | 0 <= i < SLOTS :: s.slots[i] == i && s.filters[i] == Filter(0, {}))
    && (forall w | 0 <= w < |s.writers| :: s.writers[w] == Idle)
  }

  /* Loader and rotation steps */

  ghost function Replaced(s: State, slot: nat): State
    requires slot < |s.slots|
  {
    s.(filters := s.filters + [Filter(s.generation, {})], slots := s.slots[slot := |s.filters|])
  }

  /** A reload that creates no estimator only removes some; it leaves the filters alone. */
  ghost predicate Shrink(s: State, t: State) {
    s.loader == Ready && !s.announced && t.active < s.active && t == s.(active := t.active)
  }

  ghost function BeforeSwap(order: Order): Loader { if order.swapFirst then Ready else Resetting(SLOTS) }

  /** Before the swap a reload that created an estimator that groups by label has labels fingerprinted. */
  ghost predicate TurnOn(order: Order, s: State, t: State) {
    s.loader == BeforeSwap(order) && !s.announced && t == s.(fpLabels := true, announced := true)
  }

  /** The swap of a reload that created at least one estimator. */
  ghost predicate Swap(order: Order, s: State, t: State) {
    && s.loader == BeforeSwap(order)
    && t.active - s.active != {} && s.announced == ((t.active - s.active) * s.expands != {})
    && t == s.(active := t.active, generation := s.generation + 1, announced := false,
               loader := if order.swapFirst then Resetting(0) else Ready)
  }

  ghost predicate BeginReset(order: Order, s: State, t: State) {
    !order.swapFirst && s.loader == Ready && t == s.(loader := Resetting(0))
  }

  ghost predicate ResetSlot(s: State, t: State) {
    && s.loader.Resetting? && s.loader.next < SLOTS <= |s.slots|
    && t == Replaced(s, s.loader.next).(loader := Resetting(s.loader.next + 1))
  }

  ghost predicate EndReset(order: Order, s: State, t: State) {
    order.swapFirst && s.loader == Resetting(SLOTS) && t == s.(loader := Ready)
  }

  /** The deduplicator's own rotation may replace any filter at any moment. */
  ghost predicate Rotate(s: State, t: State) {
    exists slot | 0 <= slot < |s.slots| :: t == Replaced(s, slot)
  }

  /* Writer steps; each changes one writer and perhaps one filter or the hand-over log */

  /** A request is parsed, with fingerprints of its labels or without. */
  ghost predicate Begin(order: Order, s: State, t: State, w: nat, batch: seq<Uint64>)
    requires w < |s.writers|
  {
    && s.writers[w] == Idle
    && var early := if order.filterFirst then None else Some(s.active);
       t == s.(writers := s.writers[w := Scanning(batch, 0, [], early)],
               labelled := if s.fpLabels then s.labelled + {w} else s.labelled - {w})
  }

  ghost predicate Look(s: State, t: State, w: nat)
    requires w < |s.writers|
  {
    && s.writers[w].Scanning? && |s.slots| == SLOTS
    && var Scanning(batch, i, out, early) := s.writers[w];
       && i < |batch|
       && t == s.(writers := s.writers[w := Probing(batch, i, out, early, s.slots[batch[i] % SLOTS])])
  }

  /** Contains returned true: a repeat, perhaps of what is still being added, or a false positive. */
  ghost predicate Drop(s: State, t: State, w: nat)
    requires w < |s.writers|
  {
    && s.writers[w].Probing?
    && var Probing(batch, i, out, early, f) := s.writers[w];
       t == s.(writers := s.writers[w := Scanning(batch, i + 1, out, early)])
  }

  /** Contains returned false; add is skipped when the filter is full. */
  ghost predicate Miss(s: State, t: State, w: nat, full: bool)
    requires w < |s.writers|
  {
    && s.writers[w].Probing?
    && var Probing(batch, i, out, early, f) := s.writers[w];
       && i < |batch| && f < |s.filters| && batch[i] !in s.filters[f].items
       && t == s.(writers := s.writers[w := if full then Appending(batch, i, out, early)
                                            else Recording(batch, i, out, early, f)])
  }

  ghost predicate Record(s: State, t: State, w: nat)
    requires w < |s.writers|
  {
    && s.writers[w].Recording?
    && var Recording(batch, i, out, early, f) := s.writers[w];
       && i < |batch| && f < |s.filters|
       && t == s.(filters := s.filters[f := s.filters[f].(items := s.filters[f].items + {batch[i]})],
                  writers := s.writers[w := Appending(batch, i, out, early)])
  }

  ghost predicate Append(s: State, t: State, w: nat)
    requires w < |s.writers|
  {
    && s.writers[w].Appending?
    && var Appending(batch, i, out, early) := s.writers[w];
       && i < |batch|
       && t == s.(writers := s.writers[w := Scanning(batch, i + 1, out + [batch[i]], early)])
  }

  ghost predicate LoadEstimators(s: State, t: State, w: nat)
    requires w < |s.writers|
  {
    && s.writers[w].Scanning?
    && var Scanning(batch, i, out, early) := s.writers[w];
       && i == |batch|
       && t == s.(writers := s.writers[w :=
                    if out == [] then Idle
                    else Inserting(out, if early.Some? then early.value else s.active, {})])
  }

  ghost predicate InsertMany(s: State, t: State, w: nat, e: Instance)
    requires w < |s.writers|
  {
    && s.writers[w].Inserting?
    && var Inserting(out, es, done) := s.writers[w];
       && e in es - done
       && t == s.(handed := s.handed + (set h | h in out :: (h, e)),
                  counted := s.counted + CountedBy(s, w, e, out),
                  writers := s.writers[w := Inserting(out, es, done + {e})])
  }

  /** An estimator that groups by label skips labels without a fingerprint. */
  ghost predicate CanCount(s: State, w: nat, e: Instance) { e in s.expands ==> w in s.labelled }

  ghost function CountedBy(s: State, w: nat, e: Instance, out: seq<Uint64>): set<(Uint64, Instance)> {
    if CanCount(s, w, e) then set h | h in out :: (h, e) else {}
  }

  ghost predicate Finish(s: State, t: State, w: nat)
    requires w < |s.writers|
  {
    && s.writers[w].Inserting? && s.writers[w].done == s.writers[w].es
    && t == s.(writers := s.writers[w := Idle])
  }

  ghost predicate LoaderStep(order: Order, s: State, t: State) {
    || Shrink(s, t) || TurnOn(order, s, t) || Swap(order, s, t)
    || BeginReset(order, s, t) || ResetSlot(s, t) || EndReset(order, s, t)
  }

  ghost predicate WriterStep(order: Order, s: State, t: State, w: nat) {
    && w < |s.writers|
    && (|| (exists batch :: Begin(order, s, t, w, batch))
        || Look(s, t, w) || Drop(s, t, w) || Miss(s, t, w, true) || Miss(s, t, w, false)
        || Record(s, t, w) || Append(s, t, w) || LoadEstimators(s, t, w)
        || (exists e :: InsertMany(s, t, w, e)) || Finish(s, t, w))
  }

  ghost predicate Next(order: Order, s: State, t: State) {
    LoaderStep(order, s, t) || Rotate(s, t) || (exists w :: WriterStep(order, s, t, w))
  }

  /** States that follow each other, from an initial one on. */
  ghost predicate IsRun(order: Order, run: seq<State>) {
    && run != []
    && if |run| == 1 then Init(run[0])
       else IsRun(order, run[..|run| - 1]) && Next(order, run[|run| - 2], run[|run| - 1])
  }

  ghost predicate Reachable(order: Order, s: State) {
    exists run :: IsRun(order, run) && run[|run| - 1] == s
  }

  /* What one step can change */

  /** A step of writer w leaves the other writers, the estimators and the loader alone. */
  ghost predicate WriterFrame(s: State, t: State, w: nat) {
    && w < |s.writers| == |t.writers| && t.active == s.active && t.generation == s.generation
    && t.slots == s.slots && t.loader == s.loader && t.expands == s.expands
    && t.fpLabels == s.fpLabels && t.announced == s.announced
    && s.handed <= t.handed && s.counted <= t.counted
    && (forall v | 0 <= v < |s.writers| && v != w :: t.writers[v] == s.writers[v])
    && (forall v | v != w :: v in t.labelled <==> v in s.labelled)
    && |t.filters| == |s.filters|
    && (forall f | 0 <= f < |s.filters| :: t.filters[f].generation == s.filters[f].generation)
  }

  lemma MoveFrame(s: State, t: State, w: nat, x: Writer)
    requires w < |s.writers| && t == s.(writers := s.writers[w := x])
    ensures WriterFrame(s, t, w) && t.filters == s.filters
  {
  }

  lemma BeginFrame(order: Order, s: State, t: State, w: nat, batch: seq<Uint64>)
    requires w < |s.writers| && Begin(order, s, t, w, batch)
    ensures WriterFrame(s, t, w) && t.filters == s.filters
  {
  }

  lemma InsertFrame(s: State, t: State, w: nat, e: Instance)
    requires w < |s.writers| && InsertMany(s, t, w, e)
    ensures WriterFrame(s, t, w) && t.filters == s.filters
  {
  }

  lemma RecordFrame(s: State, t: State, w: nat)
    requires w < |s.writers| && Record(s, t, w)
    ensures WriterFrame(s, t, w)
  {
  }

  /** The steps that only move one writer. */
  ghost predicate OnlyMoves(s: State, t: State, w: nat)
    requires w < |s.writers|
  {
    || Look(s, t, w) || Drop(s, t, w) || Miss(s, t, w, true) || Miss(s, t, w, false)
    || Append(s, t, w) || LoadEstimators(s, t, w) || Finish(s, t, w)
  }

  lemma OnlyMovesWriter(s: State, t: State, w: nat)
    requires w < |s.writers| && OnlyMoves(s, t, w)
    ensures w < |t.writers| && t == s.(writers := s.writers[w := t.writers[w]])
  {
  }

  lemma WriterStepFrame(order: Order, s: State, t: State, w: nat)
    requires WriterStep(order, s, t, w)
    ensures WriterFrame(s, t, w) && (t.filters == s.filters || Record(s, t, w))
  {
    if Record(s, t, w) {
      RecordFrame(s, t, w);
    } else if batch :| Begin(order, s, t, w, batch) {
      BeginFrame(order, s, t, w, batch);
    } else if e :| InsertMany(s, t, w, e) {
      InsertFrame(s, t, w, e);
    } else {
      OnlyMovesWriter(s, t, w);
      MoveFrame(s, t, w, t.writers[w]);
    }
  }

  /** A step of the loader or a rotation leaves the writers alone, and the filters that are there. */
  ghost predicate LoaderFrame(s: State, t: State) {
    && t.writers == s.writers && t.handed == s.handed && t.expands == s.expands
    && t.labelled == s.labelled && t.counted == s.counted
    && s.filters <= t.filters && (forall f | |s.filters| <= f < |t.filters| :: t.filters[f].items == {})
  }

  lemma LoaderStepFrame(order: Order, s: State, t: State)
    requires LoaderStep(order, s, t) || Rotate(s, t)
    ensures LoaderFrame(s, t)
    ensures if t.generation == s.generation then t.active <= s.active else t.generation == s.generation + 1
  {
  }

  /* What is promised */

  /** Writer w recorded h, or is about to, and has still to give it to estimator e (or to load the list). */
  ghost predicate WillHand(w: Writer, h: Uint64, e: Instance) {
    match w
    case Idle => false
    case Scanning(_, _, out, early) => h in out && Reaches(early, e)
    case Probing(_, _, out, early, _) => h in out && Reaches(early, e)
    case Recording(batch, i, out, early, _) => (h in out || (i < |batch| && h == batch[i])) && Reaches(early, e)
    case Appending(batch, i, out, early) => (h in out || (i < |batch| && h == batch[i])) && Reaches(early, e)
    case Inserting(out, es, done) => h in out && e in es - done
  }

  ghost predicate Reaches(early: Option<set<Instance>>, e: Instance) {
    early.Some? ==> e in early.value
  }

  ghost predicate Delivered(s: State, h: Uint64, e: Instance) {
    (h, e) in s.handed || exists w | 0 <= w < |s.writers| :: WillHand(s.writers[w], h, e)
  }

  /** Everything filter f has recorded reached, or is on its way to, every active estimator. */
  ghost predicate Covered(s: State, f: Filter) {
    forall h, e | h in f.items && e in s.active :: Delivered(s, h, e)
  }

  /** Between loads, what the published filters suppress is known to every active estimator. */
  ghost predicate Safe(s: State) {
    s.loader == Ready ==>
      forall slot | 0 <= slot < |s.slots| :: s.slots[slot] < |s.filters| && Covered(s, s.filters[s.slots[slot]])
  }

  /* The invariant of the program's order */

  ghost predicate FiltersBeforeLoad(w: Writer) {
    (w.Scanning? || w.Probing? || w.Recording? || w.Appending?) ==> w.early == None
  }

  /** The slots a load has already replaced, or all of them between loads, are of this generation. */
  ghost predicate SlotsCurrent(s: State) {
    && |s.slots| == SLOTS
    && (s.loader.Resetting? ==> s.loader.next <= SLOTS)
    && forall i | 0 <= i < SLOTS ::
         && s.slots[i] < |s.filters|
         && (s.loader.Ready? || i < s.loader.next ==> s.filters[s.slots[i]].generation == s.generation)
  }

  ghost predicate Inv(s: State) {
    && SlotsCurrent(s)
    && (forall w | 0 <= w < |s.writers| :: FiltersBeforeLoad(s.writers[w]))
    && (forall f | 0 <= f < |s.filters| :: s.filters[f].generation <= s.generation)
    && (forall f | 0 <= f < |s.filters| && s.filters[f].generation == s.generation :: Covered(s, s.filters[f]))
  }

  /** Replacing a filter, or moving one writer without losing what it owes, keeps coverage. */
  lemma CoverageMoves(s: State, t: State, f: Filter)
    requires Covered(s, f)
    requires t.active <= s.active && s.handed <= t.handed && |t.writers| == |s.writers|
    requires forall w, h: Uint64, e | 0 <= w < |s.writers| && e in t.active && WillHand(s.writers[w], h, e) ::
               WillHand(t.writers[w], h, e) || (h, e) in t.handed
    ensures Covered(t, f)
  {
    forall h, e | h in f.items && e in t.active ensures Delivered(t, h, e) {
      assert Delivered(s, h, e);
      if (h, e) !in s.handed {
        var w :| 0 <= w < |s.writers| && WillHand(s.writers[w], h, e);
        assert WillHand(t.writers[w], h, e) || (h, e) in t.handed;
      }
    }
  }

  /** Coverage of every current filter follows when no filter's items changed. */
  lemma AllCoverageMoves(s: State, t: State)
    requires Inv(s)
    requires t.active <= s.active && s.handed <= t.handed && |t.writers| == |s.writers|
    requires t.generation == s.generation && s.filters <= t.filters
    requires forall f | |s.filters| <= f < |t.filters| :: t.filters[f].items == {}
    requires forall w, h: Uint64, e | 0 <= w < |s.writers| && e in t.active && WillHand(s.writers[w], h, e) ::
               WillHand(t.writers[w], h, e) || (h, e) in t.handed
    ensures forall f | 0 <= f < |t.filters| && t.filters[f].generation == t.generation :: Covered(t, t.filters[f])
  {
    forall f | 0 <= f < |t.filters| && t.filters[f].generation == t.generation ensures Covered(t, t.filters[f]) {
      if f < |s.filters| {
        assert t.filters[f] == s.filters[f];
        CoverageMoves(s, t, t.filters[f]);
      }
    }
  }

  lemma RecordKeepsInv(s: State, t: State, w: nat)
    requires Inv(s) && w < |s.writers| && Record(s, t, w)
    ensures Inv(t)
  {
    var Recording(batch, i, out, early, g) := s.writers[w];
    assert t.writers[w] == Appending(batch, i, out, early);
    forall f | 0 <= f < |t.filters| && t.filters[f].generation == t.generation ensures Covered(t, t.filters[f]) {
      CoverageMoves(s, t, s.filters[f]);
      if f == g {
        forall e | e in t.active ensures Delivered(t, batch[i], e) {
          assert FiltersBeforeLoad(s.writers[w]);
          assert WillHand(t.writers[w], batch[i], e);
        }
      }
    }
  }

  lemma LoaderKeepsInv(s: State, t: State)
    requires Inv(s)
    requires LoaderStep(PROGRAM_ORDER, s, t) || Rotate(s, t)
    ensures Inv(t)
  {
    LoaderStepFrame(PROGRAM_ORDER, s, t);
    if !Swap(PROGRAM_ORDER, s, t) {
      AllCoverageMoves(s, t);
    }
  }

  /** A writer that filters first still owes what it owed, or has handed it over. */
  ghost predicate Carries(s: State, t: State, w: nat)
    requires w < |s.writers| == |t.writers|
  {
    forall h: Uint64, e | e in s.active && WillHand(s.writers[w], h, e) ::
      WillHand(t.writers[w], h, e) || (h, e) in t.handed
  }

  lemma WriterCarries(s: State, t: State, w: nat)
    requires WriterStep(PROGRAM_ORDER, s, t, w) && FiltersBeforeLoad(s.writers[w])
    ensures |t.writers| == |s.writers| && Carries(s, t, w) && FiltersBeforeLoad(t.writers[w])
  {
    if OnlyMoves(s, t, w) {
      MoveCarries(s, t, w);
    }
  }

  lemma MoveCarries(s: State, t: State, w: nat)
    requires w < |s.writers| && OnlyMoves(s, t, w) && FiltersBeforeLoad(s.writers[w])
    ensures |t.writers| == |s.writers| && Carries(s, t, w) && FiltersBeforeLoad(t.writers[w])
  {
  }

  lemma FrameKeepsInv(s: State, t: State, w: nat)
    requires Inv(s) && WriterFrame(s, t, w) && t.filters == s.filters
    requires Carries(s, t, w) && FiltersBeforeLoad(t.writers[w])
    ensures Inv(t)
  {
    AllCoverageMoves(s, t);
  }

  lemma WriterKeepsInv(s: State, t: State, w: nat)
    requires Inv(s) && WriterStep(PROGRAM_ORDER, s, t, w)
    ensures Inv(t)
  {
    assert FiltersBeforeLoad(s.writers[w]);
    if Record(s, t, w) {
      RecordKeepsInv(s, t, w);
    } else {
      WriterStepFrame(PROGRAM_ORDER, s, t, w);
      WriterCarries(s, t, w);
      FrameKeepsInv(s, t, w);
    }
  }

  lemma {:induction false} RunKeepsInv(run: seq<State>)
    requires IsRun(PROGRAM_ORDER, run)
    ensures Inv(run[|run| - 1])
  {
    if |run| == 1 {
    } else {
      var n := |run| - 1;
      RunKeepsInv(run[..n]);
      assert Next(PROGRAM_ORDER, run[n - 1], run[n]);
      if LoaderStep(PROGRAM_ORDER, run[n - 1], run[n]) || Rotate(run[n - 1], run[n]) {
        LoaderKeepsInv(run[n - 1], run[n]);
      } else {
        var w :| WriterStep(PROGRAM_ORDER, run[n - 1], run[n], w);
        WriterKeepsInv(run[n - 1], run[n], w);
      }
    }
  }

  /* Main results */

  /** Over every interleaving of writers, rotations and loads: once a load has finished, whatever
      a published filter suppresses has reached, or is being carried to, every active estimator. */
  lemma ReloadIsSafe(run: seq<State>)
    requires IsRun(PROGRAM_ORDER, run)
    ensures Safe(run[|run| - 1])
  {
    RunKeepsInv(run);
  }

  /** With no request in flight, every suppressed fingerprint was handed to every active estimator. */
  lemma QuiescentMeansHanded(run: seq<State>, slot: nat, h: Uint64, e: Instance)
    requires IsRun(PROGRAM_ORDER, run)
    ensures var s := run[|run| - 1];
            s.loader == Ready && (forall w | 0 <= w < |s.writers| :: s.writers[w] == Idle) && slot < |s.slots| ==>
              && s.slots[slot] < |s.filters|
              && (h in s.filters[s.slots[slot]].items && e in s.active ==> (h, e) in s.handed)
  {
    ReloadIsSafe(run);
    var s := run[|run| - 1];
    if s.loader == Ready && (forall w | 0 <= w < |s.writers| :: s.writers[w] == Idle) && slot < |s.slots|
       && h in s.filters[s.slots[slot]].items && e in s.active {
      assert Delivered(s, h, e);
    }
  }

  /** The estimator was active in every state of the run from generation g on. */
  ghost predicate Lasting(run: seq<State>, e: Instance, g: nat) {
    forall i | 0 <= i < |run| && run[i].generation >= g :: e in run[i].active
  }

  lemma FrameKeepsDelivered(s: State, t: State, w: nat, h: Uint64, e: Instance)
    requires WriterFrame(s, t, w) && Carries(s, t, w) && e in s.active && Delivered(s, h, e)
    ensures Delivered(t, h, e)
  {
    if (h, e) !in s.handed {
      var v :| 0 <= v < |s.writers| && WillHand(s.writers[v], h, e);
      assert v != w ==> t.writers[v] == s.writers[v];
    }
  }

  lemma WriterKeepsDelivered(s: State, t: State, w: nat, h: Uint64, e: Instance)
    requires WriterStep(PROGRAM_ORDER, s, t, w) && FiltersBeforeLoad(s.writers[w])
    requires e in s.active && Delivered(s, h, e)
    ensures Delivered(t, h, e)
  {
    WriterStepFrame(PROGRAM_ORDER, s, t, w);
    WriterCarries(s, t, w);
    FrameKeepsDelivered(s, t, w, h, e);
  }

  lemma NextKeepsDelivered(s: State, t: State, h: Uint64, e: Instance)
    requires Inv(s) && Next(PROGRAM_ORDER, s, t) && e in s.active && Delivered(s, h, e)
    ensures Delivered(t, h, e)
  {
    if LoaderStep(PROGRAM_ORDER, s, t) || Rotate(s, t) {
      LoaderStepFrame(PROGRAM_ORDER, s, t);
    } else {
      var w :| WriterStep(PROGRAM_ORDER, s, t, w);
      WriterKeepsDelivered(s, t, w, h, e);
    }
  }

  /** What a writer records it still has to hand over. */
  lemma WriterCarriesNew(s: State, t: State, w: nat, f: nat, h: Uint64, e: Instance)
    requires WriterStep(PROGRAM_ORDER, s, t, w) && FiltersBeforeLoad(s.writers[w])
    requires f < |t.filters| && h in t.filters[f].items && (f < |s.filters| ==> h !in s.filters[f].items)
    ensures Delivered(t, h, e)
  {
    assert Record(s, t, w) || t.filters == s.filters;
    assert Record(s, t, w) ==> WillHand(t.writers[w], h, e);
  }

  lemma NewItemsAreCarried(s: State, t: State, f: nat, h: Uint64, e: Instance)
    requires Inv(s) && Next(PROGRAM_ORDER, s, t) && f < |t.filters| && h in t.filters[f].items
    requires f < |s.filters| ==> h !in s.filters[f].items
    ensures Delivered(t, h, e)
  {
    if LoaderStep(PROGRAM_ORDER, s, t) || Rotate(s, t) {
      LoaderStepFrame(PROGRAM_ORDER, s, t);
    } else {
      var w: nat :| WriterStep(PROGRAM_ORDER, s, t, w);
      WriterCarriesNew(s, t, w, f, h, e);
    }
  }

  /** In every state of every run, also in the middle of a load: what any filter of generation g or
      later has recorded, published or not, has reached or will reach every estimator that was active
      ever since generation g. */
  lemma {:induction false} LastingAreCovered(run: seq<State>, g: nat, e: Instance)
    requires IsRun(PROGRAM_ORDER, run) && Lasting(run, e, g)
    ensures var s := run[|run| - 1];
            forall f, h | 0 <= f < |s.filters| && s.filters[f].generation >= g && h in s.filters[f].items ::
              Delivered(s, h, e)
  {
    var n := |run| - 1;
    if n > 0 {
      var s, t := run[n - 1], run[n];
      LastingAreCovered(run[..n], g, e);
      RunKeepsInv(run[..n]);
      forall f, h | 0 <= f < |t.filters| && t.filters[f].generation >= g && h in t.filters[f].items
        ensures Delivered(t, h, e)
      {
        if f < |s.filters| {
          SameGeneration(s, t, f);
        }
        ItemStaysDelivered(s, t, f, h, e);
      }
    }
  }

  lemma ItemStaysDelivered(s: State, t: State, f: nat, h: Uint64, e: Instance)
    requires Inv(s) && Next(PROGRAM_ORDER, s, t) && f < |t.filters| && h in t.filters[f].items
    requires f < |s.filters| && h in s.filters[f].items ==> e in s.active && Delivered(s, h, e)
    ensures Delivered(t, h, e)
  {
    if f < |s.filters| && h in s.filters[f].items {
      NextKeepsDelivered(s, t, h, e);
    } else {
      NewItemsAreCarried(s, t, f, h, e);
    }
  }

  lemma SameGeneration(s: State, t: State, f: nat)
    requires Next(PROGRAM_ORDER, s, t) && f < |s.filters|
    ensures f < |t.filters| && t.filters[f].generation == s.filters[f].generation
  {
    if LoaderStep(PROGRAM_ORDER, s, t) || Rotate(s, t) {
      LoaderStepFrame(PROGRAM_ORDER, s, t);
    } else {
      var w :| WriterStep(PROGRAM_ORDER, s, t, w);
      WriterStepFrame(PROGRAM_ORDER, s, t, w);
    }
  }

  /** Writer w is inside add with h: any of its bits may be set in filter f already. */
  ghost predicate Adds(w: Writer, f: nat, h: Uint64) {
    w.Recording? && w.filter == f && w.i < |w.batch| && w.batch[w.i] == h
  }

  /** What filter f may suppress as a repeat: what it has, and what is being added to it. */
  ghost predicate Knows(s: State, f: nat, h: Uint64)
    requires f < |s.filters|
  {
    h in s.filters[f].items || exists w | 0 <= w < |s.writers| :: Adds(s.writers[w], f, h)
  }

  /** Who is adding a series hands it over afterwards. */
  lemma AddsIsDelivered(s: State, w: nat, f: nat, h: Uint64, e: Instance)
    requires Inv(s) && w < |s.writers| && Adds(s.writers[w], f, h)
    ensures Delivered(s, h, e)
  {
    assert FiltersBeforeLoad(s.writers[w]);
    assert WillHand(s.writers[w], h, e);
  }

  /** So a repeat dropped through any filter, however stale, is known to every estimator that has
      been active since that filter's generation, even if it is still being added. */
  lemma RepeatDropIsSafe(run: seq<State>, t: State, w: nat, e: Instance)
    requires IsRun(PROGRAM_ORDER, run)
    requires var s := run[|run| - 1];
             && w < |s.writers| && Drop(s, t, w)
             && s.writers[w].filter < |s.filters| && s.writers[w].i < |s.writers[w].batch|
             && Knows(s, s.writers[w].filter, s.writers[w].batch[s.writers[w].i])
             && Lasting(run, e, s.filters[s.writers[w].filter].generation)
    ensures var s := run[|run| - 1]; Delivered(t, s.writers[w].batch[s.writers[w].i], e)
  {
    var s := run[|run| - 1];
    var f, h := s.writers[w].filter, s.writers[w].batch[s.writers[w].i];
    LastingAreCovered(run, s.filters[f].generation, e);
    RunKeepsInv(run);
    assert s.filters[f].generation <= s.generation && e in s.active;
    if h !in s.filters[f].items {
      var v :| 0 <= v < |s.writers| && Adds(s.writers[v], f, h);
      AddsIsDelivered(s, v, f, h, e);
    }
    assert WriterStep(PROGRAM_ORDER, s, t, w);
    WriterKeepsDelivered(s, t, w, h, e);
  }

  /** Generations only grow, and within one the active set only shrinks. */
  lemma StepOfGeneration(s: State, t: State)
    requires Next(PROGRAM_ORDER, s, t)
    ensures s.generation <= t.generation && (t.generation == s.generation ==> t.active <= s.active)
  {
    if LoaderStep(PROGRAM_ORDER, s, t) || Rotate(s, t) {
      LoaderStepFrame(PROGRAM_ORDER, s, t);
    } else {
      var w: nat :| WriterStep(PROGRAM_ORDER, s, t, w);
      WriterStepFrame(PROGRAM_ORDER, s, t, w);
    }
  }

  /** The last step of a run. */
  lemma LastStep(run: seq<State>)
    requires IsRun(PROGRAM_ORDER, run) && |run| > 1
    ensures IsRun(PROGRAM_ORDER, run[..|run| - 1])
    ensures var s, t := run[|run| - 2], run[|run| - 1];
            s.generation <= t.generation && (t.generation == s.generation ==> t.active <= s.active)
  {
    assert Next(PROGRAM_ORDER, run[|run| - 2], run[|run| - 1]);
    StepOfGeneration(run[|run| - 2], run[|run| - 1]);
  }

  lemma {:induction false} GenerationsGrow(run: seq<State>, i: nat)
    requires IsRun(PROGRAM_ORDER, run) && i < |run|
    ensures run[i].generation <= run[|run| - 1].generation
  {
    if i < |run| - 1 {
      LastStep(run);
      GenerationsGrow(run[..|run| - 1], i);
    }
  }

  /** So whoever is active has been since the present generation began. */
  lemma {:induction false} ActiveSinceSwap(run: seq<State>, e: Instance, i: nat)
    requires IsRun(PROGRAM_ORDER, run) && e in run[|run| - 1].active && i < |run|
    requires run[i].generation >= run[|run| - 1].generation
    ensures e in run[i].active
  {
    if i < |run| - 1 {
      LastStep(run);
      var before := run[..|run| - 1];
      GenerationsGrow(before, i);
      ActiveSinceSwap(before, e, i);
    }
  }

  /** A repeat dropped through a filter of the present generation is known to every active estimator. */
  lemma CurrentDropIsSafe(run: seq<State>, t: State, w: nat, e: Instance)
    requires IsRun(PROGRAM_ORDER, run)
    requires var s := run[|run| - 1];
             && w < |s.writers| && Drop(s, t, w)
             && s.writers[w].filter < |s.filters| && s.writers[w].i < |s.writers[w].batch|
             && Knows(s, s.writers[w].filter, s.writers[w].batch[s.writers[w].i])
             && s.filters[s.writers[w].filter].generation == s.generation && e in s.active
    ensures var s := run[|run| - 1]; Delivered(t, s.writers[w].batch[s.writers[w].i], e)
  {
    forall i | 0 <= i < |run| && run[i].generation >= run[|run| - 1].generation ensures e in run[i].active {
      ActiveSinceSwap(run, e, i);
    }
    RepeatDropIsSafe(run, t, w, e);
  }
}
