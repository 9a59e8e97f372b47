/** Which orders of loader and writer steps make the hand-over safe: the program's and no other. */
module LoadOrders {
  import opened Base
  import opened ReloadProtocol
  import opened ReloadRuns
  import Loading

  /** Without any estimator, a writer about to look at an empty filter records 0 for nobody. */
  lemma RecordsForNobody(order: Order, reach: Reach, loads: seq<set<Instance>>, s: State, early: Option<set<Instance>>)
    returns (t: State)
    requires Follows(order, reach) && reach(loads, s)
    requires s.writers == [Scanning([0], 0, [], early)] && FreshSlots(s) && s.handed == {}
    requires early == Some({}) || (early == None && s.active == {})
    ensures reach(loads, t) && Moved(s, t, 0, Idle) && t.handed == {}
    ensures s.slots[0] < |t.filters| && 0 in t.filters[s.slots[0]].items
  {
    var f := s.slots[0];
    var u := Looks(order, reach, loads, s, 0, 0, early);
    var v := FindsNew(order, reach, loads, u, 0, 0, early, f);
    MovedTwice(s, u, v, 0, Probing([0], 0, [], early, f), Recording([0], 0, [], early, f));
    t := Completes(order, reach, loads, v, 0, 0, early, f);
    MovedTwice(s, v, t, 0, Recording([0], 0, [], early, f), Idle);
    assert t.handed == {};
  }

  /** What slot 0 suppresses and nobody was given is not safe. */
  lemma NotSafe(s: State, e: Instance)
    requires s.loader == Ready && |s.slots| == SLOTS && s.slots[0] < |s.filters| && 0 in s.filters[s.slots[0]].items
    requires s.writers == [Idle] && s.handed == {} && e in s.active
    ensures !Safe(s)
  {
    assert !Delivered(s, 0, e);
    assert !Covered(s, s.filters[s.slots[0]]);
  }

  /** Resetting before the swap can leave a published filter suppressing what no estimator saw. */
  lemma ResetFirstIsUnsafe(order: Order) returns (s: State)
    requires !order.swapFirst
    ensures Reachable(order, s) && !Safe(s)
  {
    var reach := LedBy(order);
    RunsFollow(order);
    var a := Starts(order, reach, {}, {}, 1);
    var b := a.(loader := Resetting(0));
    assert BeginReset(order, a, b);
    Steps(order, reach, [{}], a, b);
    var c := ResetRemaining(order, reach, [{}], b);
    var d := Begins(order, reach, [{}], c, 0, 0);
    var e := RecordsForNobody(order, reach, [{}], d, Early(order, c));
    s := e.(active := {1}, generation := 1, loader := Ready);
    assert 1 in s.active - e.active;
    assert Swap(order, e, s);
    Steps(order, reach, [{}], e, s);
    LeadsIsReachable(order, [{}] + [{1}], s);
    NotSafe(s, 1);
  }

  /** So can loading the estimator list before filtering. */
  lemma LoadFirstIsUnsafe(order: Order) returns (s: State)
    requires order.swapFirst && !order.filterFirst
    ensures Reachable(order, s) && !Safe(s)
  {
    var reach := LedBy(order);
    RunsFollow(order);
    var a := Starts(order, reach, {}, {}, 1);
    var b := Begins(order, reach, [{}], a, 0, 0);
    assert 1 in {1} - b.active;
    var c := Creates(order, reach, [{}], b, {1});
    s := RecordsForNobody(order, reach, [{}] + [{1}], c, Some({}));
    LeadsIsReachable(order, [{}] + [{1}], s);
    NotSafe(s, 1);
  }

  /** The hand-over is safe in every reachable state exactly when writers filter before they load
      the estimator list and loads swap the list before they reset the filters. */
  lemma SafeExactlyInProgramOrder(order: Order)
    ensures (forall s :: Reachable(order, s) ==> Safe(s)) <==> order == PROGRAM_ORDER
  {
    if order == PROGRAM_ORDER {
      forall s | Reachable(order, s) ensures Safe(s) {
        var run :| IsRun(order, run) && run[|run| - 1] == s;
        ReloadIsSafe(run);
      }
    } else if !order.swapFirst {
      var s := ResetFirstIsUnsafe(order);
    } else {
      var s := LoadFirstIsUnsafe(order);
    }
  }

  /* The order a load takes */

  /** In what a load did, the swap is before every reset of the deduplicator. */
  ghost predicate SwapsFirst(done: seq<Loading.Effect>) {
    forall i, j | 0 <= i < |done| && 0 <= j < |done| && done[i] == Loading.Swapped && done[j].DedupReset? :: i < j
  }

  /** A load that publishes and resets in any other order makes the hand-over unsafe. */
  lemma SafeExactlyIfSwapsFirst(done: seq<Loading.Effect>)
    ensures (forall s :: Reachable(Order(SwapsFirst(done), true), s) ==> Safe(s)) <==> SwapsFirst(done)
  {
    SafeExactlyInProgramOrder(Order(SwapsFirst(done), true));
  }

  /** Every load that changes something takes the safe one. */
  lemma LoadsAreSafe<Cfg>(handles: seq<Loading.Handle<Cfg>>, published: seq<Loading.Handle<Cfg>>, cfgs: seq<Cfg>,
                          dedup: bool, perLabel: Cfg -> bool, before: seq<Loading.Effect>, after: seq<Loading.Effect>)
    requires Loading.LoadEffects(handles, published, cfgs, dedup, perLabel, before, after)
    ensures forall s :: Reachable(Order(SwapsFirst(after[|before|..]), true), s) ==> Safe(s)
  {
    var done := after[|before|..];
    var fingerprints := exists i | 0 <= i < |cfgs| :: !Loading.Kept(handles, cfgs[i]) && perLabel(cfgs[i]);
    var reset := dedup && exists i | 0 <= i < |cfgs| :: !Loading.Kept(handles, cfgs[i]);
    SwapComesFirst(done, Loading.Serials(handles), Loading.Serials(published), fingerprints, reset);
    SafeExactlyIfSwapsFirst(done);
  }

  lemma SwapComesFirst(done: seq<Loading.Effect>, was: set<nat>, now: set<nat>, fingerprints: bool, reset: bool)
    requires Loading.InOrder(done, was, now, fingerprints, reset)
    ensures SwapsFirst(done)
  {
    var s :| 0 <= s < |done| && Loading.AroundSwap(done, s, was, now, fingerprints, reset);
    assert forall i | 0 <= i < |done| && i != s :: done[i] != done[s];
  }
}
