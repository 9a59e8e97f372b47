/** Label fingerprints and reloads: an estimator that groups by label skips what was parsed before
    label fingerprints were turned on. A request parsed then may yet be filtered after the reset of
    the load that turned them on, and its repeats are dropped: they are safe to drop exactly if label
    fingerprints have been on since the start. */
module LabelFingerprints {
  import opened Base
  import opened ReloadProtocol
  import opened ReloadRuns
  import opened StaleDrops

  /** Estimator e has counted h, or will when a request that carries it hands it over. */
  ghost predicate Counts(s: State, h: Uint64, e: Instance) {
    || (h, e) in s.counted
    || exists w: nat :: w < |s.writers| && WillHand(s.writers[w], h, e) && CanCount(s, w, e)
  }

  /* Label fingerprints on from the start */

  /** Labels are fingerprinted, and every request at work was parsed that way. */
  ghost predicate AllLabelled(s: State) {
    s.fpLabels && forall w: nat | w < |s.writers| && s.writers[w] != Idle :: w in s.labelled
  }

  /** What e is handed it can count: it does not group by label, or everything is labelled. */
  ghost predicate SureToCount(s: State, e: Instance) {
    && (e in s.expands ==> AllLabelled(s))
    && forall h :: (h, e) in s.handed ==> (h, e) in s.counted
  }

  lemma LoaderKeepsFlag(s: State, t: State)
    requires LoaderStep(PROGRAM_ORDER, s, t) || Rotate(s, t)
    ensures s.fpLabels ==> t.fpLabels
  {
  }

  lemma InsertCounts(s: State, t: State, w: nat, y: Instance, e: Instance)
    requires w < |s.writers| && InsertMany(s, t, w, y) && SureToCount(s, e)
    ensures forall h :: (h, e) in t.handed ==> (h, e) in t.counted
  {
    assert e in s.expands ==> w in s.labelled;
  }

  lemma WriterKeepsLabelled(s: State, t: State, w: nat)
    requires WriterStep(PROGRAM_ORDER, s, t, w) && AllLabelled(s)
    ensures AllLabelled(t)
  {
    WriterStepFrame(PROGRAM_ORDER, s, t, w);
    assert t.writers[w] != Idle ==> w in t.labelled;
  }

  lemma WriterHandsOver(s: State, t: State, w: nat)
    requires WriterStep(PROGRAM_ORDER, s, t, w)
    ensures (exists y :: InsertMany(s, t, w, y)) || (t.handed == s.handed && s.counted <= t.counted)
  {
  }

  lemma StepKeepsSure(s: State, t: State, e: Instance)
    requires Next(PROGRAM_ORDER, s, t) && SureToCount(s, e)
    ensures SureToCount(t, e)
  {
    if LoaderStep(PROGRAM_ORDER, s, t) || Rotate(s, t) {
      LoaderStepFrame(PROGRAM_ORDER, s, t);
      LoaderKeepsFlag(s, t);
    } else {
      var w: nat :| WriterStep(PROGRAM_ORDER, s, t, w);
      WriterStepFrame(PROGRAM_ORDER, s, t, w);
      if e in s.expands {
        WriterKeepsLabelled(s, t, w);
      }
      WriterHandsOver(s, t, w);
      if y :| InsertMany(s, t, w, y) {
        InsertCounts(s, t, w, y, e);
      }
    }
  }

  lemma {:induction false} RunKeepsSure(run: seq<State>, e: Instance)
    requires IsRun(PROGRAM_ORDER, run)
    requires e in run[0].expands ==> run[0].fpLabels
    ensures SureToCount(run[|run| - 1], e)
  {
    var n := |run| - 1;
    if n > 0 {
      RunKeepsSure(run[..n], e);
      StepKeepsSure(run[n - 1], run[n], e);
    }
  }

  lemma DeliveredIsCounted(s: State, h: Uint64, e: Instance)
    requires SureToCount(s, e) && Delivered(s, h, e)
    ensures Counts(s, h, e)
  {
    if (h, e) !in s.handed {
      var w :| 0 <= w < |s.writers| && WillHand(s.writers[w], h, e);
      assert s.writers[w] != Idle && CanCount(s, w, e);
    }
  }

  /* The exact condition */

  lemma {:induction false} StartOf(run: seq<State>)
    requires IsRun(PROGRAM_ORDER, run)
    ensures Init(run[0]) && History(run)[0] == run[0].active && run[0].expands == run[|run| - 1].expands
  {
    var n := |run| - 1;
    if n > 0 {
      StartOf(run[..n]);
      StepHistory(PROGRAM_ORDER, run[n - 1], run[n]);
    }
  }

  /** A drop in a run in which these estimators group by label. */
  ghost predicate IsLabelDrop(loads: seq<set<Instance>>, expands: set<Instance>, run: seq<State>, t: State, w: nat,
                              g: nat, h: Uint64)
  {
    IsDrop(loads, run, t, w, g, h) && run[0].expands == expands
  }

  /** Some estimator of the startup configuration groups by label. */
  ghost predicate OnFromStart(loads: seq<set<Instance>>, expands: set<Instance>)
    requires loads != []
  {
    loads[0] * expands != {}
  }

  lemma SafeDropsCount(loads: seq<set<Instance>>, expands: set<Instance>, run: seq<State>, t: State, w: nat, g: nat,
                       e: Instance, h: Uint64)
    requires IsHistory(loads) && IsLabelDrop(loads, expands, run, t, w, g, h)
    requires ActiveSince(loads, g, e) && (e in expands ==> OnFromStart(loads, expands))
    ensures Counts(t, h, e)
  {
    var s := run[|run| - 1];
    LastsThrough(run, g, e);
    RepeatDropIsSafe(run, t, w, e);
    StartOf(run);
    RunKeepsSure(run, e);
    assert WriterStep(PROGRAM_ORDER, s, t, w);
    StepKeepsSure(s, t, e);
    DeliveredIsCounted(t, h, e);
  }

  /** A stream that groups by label and is added by a load can miss series: a request parsed before the
      load records a series afterwards, hands it over without label fingerprints, and a repeat of it
      is dropped. */
  lemma LabelsCanBeMissed(loads: seq<set<Instance>>, expands: set<Instance>, g: nat, e: Instance, h: Uint64)
    returns (run: seq<State>, t: State)
    requires IsHistory(loads) && g <= Generation(loads, |loads| - 1)
    requires e in expands && !OnFromStart(loads, expands)
    ensures IsLabelDrop(loads, expands, run, t, 1, g, h) && !Counts(t, h, e)
  {
    RunsFollow(PROGRAM_ORDER);
    var s;
    s, t := DropsAfterAll(LedBy(PROGRAM_ORDER), loads, expands, g, |loads| - 1, h);
    run := RunTo(loads, s);
    StartOf(run);
    assert (h, e) !in t.counted;
  }

  /** For every history of loads and filter generation it comes to: a dropped repeat is counted by an
      estimator exactly if it has been active since that generation and, if it groups by label, label
      fingerprints were on from the start. */
  lemma CountedIff(loads: seq<set<Instance>>, expands: set<Instance>, g: nat, e: Instance, h: Uint64)
    requires IsHistory(loads) && g <= Generation(loads, |loads| - 1)
    ensures (forall run: seq<State>, t: State, w: nat | IsLabelDrop(loads, expands, run, t, w, g, h) :: Counts(t, h, e))
            <==> ActiveSince(loads, g, e) && (e in expands ==> OnFromStart(loads, expands))
  {
    if ActiveSince(loads, g, e) && (e in expands ==> OnFromStart(loads, expands)) {
      forall run: seq<State>, t: State, w: nat | IsLabelDrop(loads, expands, run, t, w, g, h) ensures Counts(t, h, e) {
        SafeDropsCount(loads, expands, run, t, w, g, e, h);
      }
    } else if !ActiveSince(loads, g, e) {
      var p: nat :| p < |loads| && Generation(loads, p) >= g && e !in loads[p];
      RunsFollow(PROGRAM_ORDER);
      var s, t := DropsAfterAll(LedBy(PROGRAM_ORDER), loads, expands, g, p, h);
      var run := RunTo(loads, s);
      StartOf(run);
      assert IsLabelDrop(loads, expands, run, t, 1, g, h);
      assert (h, e) !in t.counted && !Counts(t, h, e);
    } else {
      var run, t := LabelsCanBeMissed(loads, expands, g, e, h);
    }
  }
}
