/** Loading a configuration into the running estimators, and reloading it over and over.

    Configurations and identities are type parameters: loading only compares them, asks whether an
    estimator can be created, and whether it needs label fingerprints. */
module Loading {
  import opened Base

  /** A running estimator: the serial number tells one object from another. */
  datatype Handle<Cfg> = Handle(serial: nat, cfg: Cfg)

  /** What a load does to the rest of the program; `published` has the estimators published at that moment. */
  datatype Effect =
    | FingerprintsOn(published: set<nat>)
    | Swapped
    | DedupReset(published: set<nat>)
    | Stopped(serial: nat)

  function Serials<Cfg>(handles: seq<Handle<Cfg>>): set<nat> {
    set i | 0 <= i < |handles| :: handles[i].serial
  }

  lemma SerialsSnoc<Cfg>(handles: seq<Handle<Cfg>>, h: Handle<Cfg>)
    ensures Serials(handles + [h]) == Serials(handles) + {h.serial}
  {
    var more := handles + [h];
    assert more[|handles|] == h;
    forall s | s in Serials(handles) ensures s in Serials(more) {
      var i :| 0 <= i < |handles| && handles[i].serial == s;
      assert more[i].serial == s;
    }
  }

  /** One of the handles has this configuration. */
  ghost predicate Kept<Cfg>(handles: seq<Handle<Cfg>>, cfg: Cfg) {
    exists i | 0 <= i < |handles| :: handles[i].cfg == cfg
  }

  ghost predicate DistinctSerials<Cfg>(handles: seq<Handle<Cfg>>) {
    forall i, j | 0 <= i < j < |handles| :: handles[i].serial != handles[j].serial
  }

  ghost predicate DistinctIds<Cfg(!new), Id>(cfgs: seq<Cfg>, identify: Cfg -> Id) {
    forall i, j | 0 <= i < j < |cfgs| :: identify(cfgs[i]) != identify(cfgs[j])
  }

  ghost predicate DistinctHandles<Cfg(!new), Id>(handles: seq<Handle<Cfg>>, identify: Cfg -> Id) {
    forall i, j | 0 <= i < j < |handles| :: identify(handles[i].cfg) != identify(handles[j].cfg)
  }

  /** The estimators that serve the streams: kept ones where the configuration is the same, new ones
      elsewhere. */
  ghost predicate Resolved<Cfg>(before: seq<Handle<Cfg>>, next: nat, cfgs: seq<Cfg>, es: seq<Handle<Cfg>>) {
    && |es| == |cfgs| && DistinctSerials(es)
    && forall i | 0 <= i < |cfgs| ::
         && es[i].cfg == cfgs[i]
         && if Kept(before, cfgs[i]) then es[i] in before else next <= es[i].serial
  }

  /** The handles by identity, without those whose configuration is among the first ones. */
  ghost predicate Indexed<Cfg(!new), Id(!new)>(removed: map<Id, Handle<Cfg>>, before: seq<Handle<Cfg>>, cfgs: seq<Cfg>,
                                               identify: Cfg -> Id)
  {
    && (forall id | id in removed ::
          removed[id] in before && identify(removed[id].cfg) == id && removed[id].cfg !in cfgs)
    && (forall h | h in before && h.cfg !in cfgs :: identify(h.cfg) in removed && removed[identify(h.cfg)] == h)
  }

  lemma KeptOnce<Cfg(!new), Id>(handles: seq<Handle<Cfg>>, identify: Cfg -> Id, h: Handle<Cfg>, g: Handle<Cfg>)
    requires DistinctHandles(handles, identify) && h in handles && g in handles
    ensures identify(h.cfg) == identify(g.cfg) ==> h == g
  {
    var i :| 0 <= i < |handles| && handles[i] == h;
    var j :| 0 <= j < |handles| && handles[j] == g;
    assert identify(h.cfg) == identify(g.cfg) ==> !(i < j) && !(j < i);
  }

  /** A reused estimator differs from all resolved before it. */
  lemma ReusedIsNew<Cfg(!new), Id>(before: seq<Handle<Cfg>>, next: nat, cfgs: seq<Cfg>, es: seq<Handle<Cfg>>,
                                   identify: Cfg -> Id, h: Handle<Cfg>)
    requires Resolved(before, next, cfgs, es) && DistinctSerials(before) && h in before && h.serial < next
    requires DistinctIds(cfgs + [h.cfg], identify)
    ensures Resolved(before, next, cfgs + [h.cfg], es + [h])
  {
    var more := cfgs + [h.cfg];
    forall i | 0 <= i < |es| ensures es[i].serial != h.serial {
      assert identify(more[i]) != identify(more[|cfgs|]);
      if es[i] in before {
        SameSerialSame(before, es[i], h);
      }
    }
    forall i | 0 <= i < |more|
      ensures (es + [h])[i].cfg == more[i]
      ensures if Kept(before, more[i]) then (es + [h])[i] in before else next <= (es + [h])[i].serial
    {
      if i == |cfgs| {
        var k :| 0 <= k < |before| && before[k] == h;
        assert Kept(before, h.cfg);
      } else {
        assert more[i] == cfgs[i];
      }
    }
  }

  lemma SameSerialSame<Cfg>(handles: seq<Handle<Cfg>>, g: Handle<Cfg>, h: Handle<Cfg>)
    requires DistinctSerials(handles) && g in handles && h in handles
    ensures g.serial == h.serial ==> g == h
  {
    var i :| 0 <= i < |handles| && handles[i] == g;
    var j :| 0 <= j < |handles| && handles[j] == h;
    if i < j {
      assert handles[i].serial != handles[j].serial;
    } else if j < i {
      assert handles[j].serial != handles[i].serial;
    }
  }

  lemma CreatedIsNew<Cfg>(before: seq<Handle<Cfg>>, next: nat, cfgs: seq<Cfg>, es: seq<Handle<Cfg>>, h: Handle<Cfg>)
    requires Resolved(before, next, cfgs, es) && !Kept(before, h.cfg) && next <= h.serial
    requires forall i | 0 <= i < |es| :: es[i].serial < h.serial
    ensures Resolved(before, next, cfgs + [h.cfg], es + [h])
  {
    var more := cfgs + [h.cfg];
    forall i | 0 <= i < |more|
      ensures (es + [h])[i].cfg == more[i]
      ensures if Kept(before, more[i]) then (es + [h])[i] in before else next <= (es + [h])[i].serial
    {
      assert i < |cfgs| ==> more[i] == cfgs[i];
    }
  }

  lemma NotYet<Cfg>(handles: seq<Handle<Cfg>>, i: nat)
    requires i < |handles| && DistinctSerials(handles)
    ensures handles[i].serial !in Serials(handles[..i])
    ensures Serials(handles[..i + 1]) == Serials(handles[..i]) + {handles[i].serial}
  {
    SerialsSnoc(handles[..i], handles[i]);
    assert handles[..i + 1] == handles[..i] + [handles[i]];
  }

  lemma NewIdentity<Cfg(!new), Id>(handles: seq<Handle<Cfg>>, identify: Cfg -> Id, i: nat)
    requires i < |handles| && DistinctHandles(handles, identify)
    ensures forall h | h in handles[..i] :: identify(h.cfg) != identify(handles[i].cfg)
  {
  }

  /** What the index says about the next stream, and how it goes on without its entry. */
  lemma Lookup<Cfg(!new), Id(!new)>(removed: map<Id, Handle<Cfg>>, before: seq<Handle<Cfg>>, cfgs: seq<Cfg>,
                                    identify: Cfg -> Id, i: nat)
    requires i < |cfgs| && DistinctIds(cfgs, identify) && DistinctHandles(before, identify)
    requires Indexed(removed, before, cfgs[..i], identify)
    ensures Kept(before, cfgs[i]) <==> identify(cfgs[i]) in removed && removed[identify(cfgs[i])].cfg == cfgs[i]
    ensures Kept(before, cfgs[i]) ==> Indexed(removed - {identify(cfgs[i])}, before, cfgs[..i + 1], identify)
    ensures !Kept(before, cfgs[i]) ==> Indexed(removed, before, cfgs[..i + 1], identify)
  {
    var cfg := cfgs[i];
    assert cfgs[..i + 1] == cfgs[..i] + [cfg];
    assert cfg !in cfgs[..i];
    if Kept(before, cfg) {
      var k :| 0 <= k < |before| && before[k].cfg == cfg;
      forall h | h in before && h.cfg !in cfgs[..i + 1] ensures identify(h.cfg) != identify(cfg) {
        KeptOnce(before, identify, h, before[k]);
      }
    }
  }

  /** Some streams are resolved: es serves them, created are the new ones among es, and removed
      are the handles not reused so far. */
  ghost predicate Resolving<Cfg(!new), Id(!new)>(
    before: seq<Handle<Cfg>>, first: nat, next: nat, done: seq<Cfg>, es: seq<Handle<Cfg>>,
    created: seq<Handle<Cfg>>, removed: map<Id, Handle<Cfg>>, identify: Cfg -> Id)
  {
    && Resolved(before, first, done, es) && Indexed(removed, before, done, identify)
    && first <= next && DistinctSerials(created)
    && (forall h | h in created :: first <= h.serial < next && h in es)
    && (forall h | h in es :: h.serial < next && (h in before || h in created))
    && (forall h | h in created :: h.cfg in done && !Kept(before, h.cfg))
    && (forall j | 0 <= j < |done| && !Kept(before, done[j]) :: es[j] in created)
  }

  lemma ResolvingReused<Cfg(!new), Id(!new)>(
    before: seq<Handle<Cfg>>, first: nat, next: nat, cfgs: seq<Cfg>, i: nat, es: seq<Handle<Cfg>>,
    created: seq<Handle<Cfg>>, removed: map<Id, Handle<Cfg>>, identify: Cfg -> Id)
    requires i < |cfgs| && DistinctIds(cfgs, identify) && DistinctHandles(before, identify) && DistinctSerials(before)
    requires Resolving(before, first, next, cfgs[..i], es, created, removed, identify) && Kept(before, cfgs[i])
    requires forall h | h in before :: h.serial < first
    ensures identify(cfgs[i]) in removed
    ensures var id := identify(cfgs[i]);
            Resolving(before, first, next, cfgs[..i + 1], es + [removed[id]], created, removed - {id}, identify)
  {
    Lookup(removed, before, cfgs, identify, i);
    var h := removed[identify(cfgs[i])];
    assert cfgs[..i + 1] == cfgs[..i] + [cfgs[i]];
    ReusedIsNew(before, first, cfgs[..i], es, identify, h);
  }

  lemma ResolvingCreated<Cfg(!new), Id(!new)>(
    before: seq<Handle<Cfg>>, first: nat, next: nat, cfgs: seq<Cfg>, i: nat, es: seq<Handle<Cfg>>,
    created: seq<Handle<Cfg>>, removed: map<Id, Handle<Cfg>>, identify: Cfg -> Id)
    requires i < |cfgs| && DistinctIds(cfgs, identify) && DistinctHandles(before, identify)
    requires Resolving(before, first, next, cfgs[..i], es, created, removed, identify) && !Kept(before, cfgs[i])
    ensures var h := Handle(next, cfgs[i]);
            Resolving(before, first, next + 1, cfgs[..i + 1], es + [h], created + [h], removed, identify)
  {
    Lookup(removed, before, cfgs, identify, i);
    var h := Handle(next, cfgs[i]);
    assert cfgs[..i + 1] == cfgs[..i] + [cfgs[i]];
    CreatedIsNew(before, first, cfgs[..i], es, h);
    assert cfgs[..i + 1][i] == cfgs[i];
  }

  /** The streams are the same as those being served, in whatever order. */
  ghost predicate SameSet<Cfg>(handles: seq<Handle<Cfg>>, cfgs: seq<Cfg>) {
    && (forall i | 0 <= i < |cfgs| :: Kept(handles, cfgs[i]))
    && (forall h | h in handles :: h.cfg in cfgs)
  }

  /** The created handles stand for the streams that were not served before. */
  lemma CreatedMeans<Cfg(!new), Id(!new)>(
    before: seq<Handle<Cfg>>, first: nat, next: nat, cfgs: seq<Cfg>, es: seq<Handle<Cfg>>,
    created: seq<Handle<Cfg>>, removed: map<Id, Handle<Cfg>>, identify: Cfg -> Id, p: Cfg -> bool)
    requires Resolving(before, first, next, cfgs, es, created, removed, identify)
    ensures created == [] <==> forall i | 0 <= i < |cfgs| :: Kept(before, cfgs[i])
    ensures (exists h | h in created :: p(h.cfg))
            <==> exists i | 0 <= i < |cfgs| :: !Kept(before, cfgs[i]) && p(cfgs[i])
  {
    if created != [] {
      assert created[0] in created;
      var i :| 0 <= i < |cfgs| && cfgs[i] == created[0].cfg;
    }
    if h :| h in created && p(h.cfg) {
      var i :| 0 <= i < |cfgs| && cfgs[i] == h.cfg;
      assert !Kept(before, cfgs[i]) && p(cfgs[i]);
    }
    if i :| 0 <= i < |cfgs| && !Kept(before, cfgs[i]) && p(cfgs[i]) {
      assert es[i] in created && es[i].cfg == cfgs[i];
    }
  }

  lemma UnchangedIff<Cfg(!new), Id(!new)>(
    before: seq<Handle<Cfg>>, first: nat, next: nat, cfgs: seq<Cfg>, es: seq<Handle<Cfg>>,
    created: seq<Handle<Cfg>>, removed: map<Id, Handle<Cfg>>, identify: Cfg -> Id)
    requires Resolving(before, first, next, cfgs, es, created, removed, identify)
    ensures created == [] && removed == map[] <==> SameSet(before, cfgs)
  {
    CreatedMeans(before, first, next, cfgs, es, created, removed, identify, cfg => true);
    if SameSet(before, cfgs) {
      assert removed.Keys == {};
    }
  }

  /** The removed handles, each once. */
  ghost predicate Lists<Cfg, Id(!new)>(gone: seq<Handle<Cfg>>, removed: map<Id, Handle<Cfg>>) {
    && (forall h | h in gone :: exists id :: id in removed && removed[id] == h)
    && (forall id | id in removed :: removed[id] in gone)
  }

  /** What is listed for stopping was served before and is not any more. */
  lemma GoneIsNotServed<Cfg(!new), Id(!new)>(
    before: seq<Handle<Cfg>>, first: nat, next: nat, cfgs: seq<Cfg>, es: seq<Handle<Cfg>>,
    created: seq<Handle<Cfg>>, removed: map<Id, Handle<Cfg>>, identify: Cfg -> Id, gone: seq<Handle<Cfg>>)
    requires Resolving(before, first, next, cfgs, es, created, removed, identify) && Lists(gone, removed)
    requires DistinctHandles(before, identify) && DistinctSerials(before) && forall h | h in before :: h.serial < first
    ensures forall s | s in Serials(gone) :: s in Serials(before) && s !in Serials(es)
  {
    forall s | s in Serials(gone) ensures s in Serials(before) && s !in Serials(es) {
      var k :| 0 <= k < |gone| && gone[k].serial == s;
      assert gone[k] in gone;
      var id :| id in removed && removed[id] == gone[k];
      HasSerial(before, gone[k]);
      forall i | 0 <= i < |es| ensures es[i].serial != s {
        if es[i] in before {
          SameSerialSame(before, es[i], gone[k]);
        }
      }
    }
  }

  lemma ServedIsKnown<Cfg(!new), Id(!new)>(
    before: seq<Handle<Cfg>>, first: nat, next: nat, cfgs: seq<Cfg>, es: seq<Handle<Cfg>>,
    created: seq<Handle<Cfg>>, removed: map<Id, Handle<Cfg>>, identify: Cfg -> Id, gone: seq<Handle<Cfg>>)
    requires Resolving(before, first, next, cfgs, es, created, removed, identify) && Lists(gone, removed)
    ensures Serials(es) <= Serials(before) + Serials(created)
  {
    forall s | s in Serials(es) ensures s in Serials(before) + Serials(created) {
      var i :| 0 <= i < |es| && es[i].serial == s;
      if es[i] in before {
        HasSerial(before, es[i]);
      } else {
        HasSerial(created, es[i]);
      }
    }
  }

  /** Whoever is neither served any more nor new has been listed for stopping. */
  lemma RunningAfter<Cfg(!new), Id(!new)>(
    before: seq<Handle<Cfg>>, first: nat, next: nat, cfgs: seq<Cfg>, es: seq<Handle<Cfg>>,
    created: seq<Handle<Cfg>>, removed: map<Id, Handle<Cfg>>, identify: Cfg -> Id, gone: seq<Handle<Cfg>>)
    requires Resolving(before, first, next, cfgs, es, created, removed, identify) && Lists(gone, removed)
    requires DistinctHandles(before, identify) && DistinctSerials(before) && forall h | h in before :: h.serial < first
    ensures Serials(before) + Serials(created) - Serials(gone) == Serials(es)
    ensures Serials(gone) <= Serials(before)
  {
    GoneIsNotServed(before, first, next, cfgs, es, created, removed, identify, gone);
    ServedIsKnown(before, first, next, cfgs, es, created, removed, identify, gone);
    forall s | s in Serials(before) + Serials(created) && s !in Serials(gone) ensures s in Serials(es) {
      var all := if s in Serials(created) then created else before;
      var k :| 0 <= k < |all| && all[k].serial == s;
      StillThere(before, first, next, cfgs, es, created, removed, identify, gone, all[k]);
      HasSerial(es, all[k]);
    }
  }

  lemma HasSerial<Cfg>(handles: seq<Handle<Cfg>>, h: Handle<Cfg>)
    requires h in handles
    ensures h.serial in Serials(handles)
  {
    var i :| 0 <= i < |handles| && handles[i] == h;
  }

  lemma StillThere<Cfg(!new), Id(!new)>(
    before: seq<Handle<Cfg>>, first: nat, next: nat, cfgs: seq<Cfg>, es: seq<Handle<Cfg>>,
    created: seq<Handle<Cfg>>, removed: map<Id, Handle<Cfg>>, identify: Cfg -> Id, gone: seq<Handle<Cfg>>,
    h: Handle<Cfg>)
    requires Resolving(before, first, next, cfgs, es, created, removed, identify) && Lists(gone, removed)
    requires DistinctHandles(before, identify) && (h in created || h in before) && h.serial !in Serials(gone)
    ensures h in es
  {
    if h !in created {
      if h.cfg !in cfgs {
        HasSerial(gone, h);
      } else {
        var i :| 0 <= i < |cfgs| && cfgs[i] == h.cfg;
        var k :| 0 <= k < |before| && before[k] == h;
        assert Kept(before, cfgs[i]) && es[i] in before;
        KeptOnce(before, identify, es[i], h);
      }
    }
  }

  /** Served streams have distinct identities, and so have the estimators that serve them. */
  lemma ResolvedIds<Cfg(!new), Id>(before: seq<Handle<Cfg>>, first: nat, cfgs: seq<Cfg>, es: seq<Handle<Cfg>>,
                                   identify: Cfg -> Id)
    requires Resolved(before, first, cfgs, es) && DistinctIds(cfgs, identify)
    ensures DistinctHandles(es, identify)
    ensures SameSet(es, cfgs)
  {
    forall i | 0 <= i < |cfgs| ensures Kept(es, cfgs[i]) {
      assert es[i].cfg == cfgs[i];
    }
  }

  class Loader<Cfg(==, !new), Id(==, !new)> {
    const identify: Cfg -> Id
    const creatable: Cfg -> bool
    const perLabel: Cfg -> bool

    /** The published estimators. */
    var active: seq<Handle<Cfg>>
    var next: nat
    /** The estimators whose rotation loop runs. Stopping one that does not run would panic. */
    var running: set<nat>
    /** What a load did to the rest of the program, in order. */
    var effects: seq<Effect>

    /** The running estimators are exactly the published ones, and their identities are distinct. */
    ghost predicate Valid()
      reads this
    {
      && DistinctSerials(active) && DistinctHandles(active, identify)
      && (forall h | h in active :: h.serial < next)
      && running == Serials(active)
    }

    constructor (identify: Cfg -> Id, creatable: Cfg -> bool, perLabel: Cfg -> bool)
      ensures Valid() && active == [] && effects == []
      ensures this.identify == identify && this.creatable == creatable && this.perLabel == perLabel
    {
      this.identify, this.creatable, this.perLabel := identify, creatable, perLabel;
      active, next, running, effects := [], 0, {}, [];
    }

    method Create(cfg: Cfg) returns (h: Option<Handle<Cfg>>)
      modifies `next, `running
      ensures h.Some? <==> creatable(cfg)
      ensures h.Some? ==>
                h.value == Handle(old(next), cfg) && next == old(next) + 1 && running == old(running) + {old(next)}
      ensures h.None? ==> next == old(next) && running == old(running)
    {
      if !creatable(cfg) {
        return None;
      }
      h := Some(Handle(next, cfg));
      running := running + {next};
      next := next + 1;
    }

    method Stop(h: Handle<Cfg>)
      requires h.serial in running
      modifies `running, `effects
      ensures running == old(running) - {h.serial} && effects == old(effects) + [Stopped(h.serial)]
    {
      running := running - {h.serial};
      effects := effects + [Stopped(h.serial)];
    }

    /** Stops handles one after the other; none of them is stopped twice. */
    method StopAll(handles: seq<Handle<Cfg>>)
      requires DistinctSerials(handles) && Serials(handles) <= running
      modifies `running, `effects
      ensures running == old(running) - Serials(handles)
      ensures effects == old(effects) + Stops(handles)
    {
      var i := 0;
      assert Serials(handles[..0]) == {};
      while i < |handles|
        invariant 0 <= i <= |handles| && running == old(running) - Serials(handles[..i])
        invariant effects == old(effects) + Stops(handles[..i])
      {
        assert handles[i].serial in Serials(handles);
        NotYet(handles, i);
        assert handles[..i + 1] == handles[..i] + [handles[i]];
        Stop(handles[i]);
        i := i + 1;
      }
      assert handles[..i] == handles;
    }

    method IndexActive() returns (removed: map<Id, Handle<Cfg>>)
      requires Valid()
      ensures Indexed(removed, active, [], identify)
    {
      removed := map[];
      var i := 0;
      while i < |active|
        invariant 0 <= i <= |active| && Indexed(removed, active[..i], [], identify)
      {
        assert active[..i + 1] == active[..i] + [active[i]];
        NewIdentity(active, identify, i);
        removed := removed[identify(active[i].cfg) := active[i]];
        i := i + 1;
      }
      assert active[..i] == active;
    }

    /** Creates the estimator of a stream that is not served yet. */
    method CreateOne(cfgs: seq<Cfg>, i: nat, es0: seq<Handle<Cfg>>, created0: seq<Handle<Cfg>>,
                     ghost removed: map<Id, Handle<Cfg>>, ghost first: nat)
      returns (es: seq<Handle<Cfg>>, created: seq<Handle<Cfg>>, failed: bool)
      requires i < |cfgs| && DistinctIds(cfgs, identify) && DistinctHandles(active, identify) && !Kept(active, cfgs[i])
      requires Resolving(active, first, next, cfgs[..i], es0, created0, removed, identify)
      modifies `next, `running
      ensures failed <==> !creatable(cfgs[i])
      ensures failed ==> created == created0 && next == old(next) && running == old(running)
      ensures !failed ==>
                && Resolving(active, first, next, cfgs[..i + 1], es, created, removed, identify)
                && created == created0 + [Handle(old(next), cfgs[i])] && running == old(running) + {old(next)}
    {
      ghost var now := next;
      var e := Create(cfgs[i]);
      es, created, failed := es0, created0, e.None?;
      if !failed {
        ResolvingCreated(active, first, now, cfgs, i, es0, created0, removed, identify);
        es, created := es + [e.value], created + [e.value];
      }
    }

    /** Reuses the estimator of one stream or creates one. */
    method ResolveOne(cfgs: seq<Cfg>, i: nat, es0: seq<Handle<Cfg>>, created0: seq<Handle<Cfg>>,
                      removed0: map<Id, Handle<Cfg>>, ghost first: nat, ghost ran: set<nat>)
      returns (es: seq<Handle<Cfg>>, created: seq<Handle<Cfg>>, removed: map<Id, Handle<Cfg>>, failed: bool)
      requires i < |cfgs| && DistinctIds(cfgs, identify)
      requires DistinctSerials(active) && DistinctHandles(active, identify)
      requires forall h | h in active :: h.serial < first
      requires Resolving(active, first, next, cfgs[..i], es0, created0, removed0, identify)
      requires running == ran + Serials(created0)
      modifies `next, `running
      ensures failed <==> !Kept(active, cfgs[i]) && !creatable(cfgs[i])
      ensures failed ==> created == created0 && next == old(next)
      ensures !failed ==> Resolving(active, first, next, cfgs[..i + 1], es, created, removed, identify)
      ensures running == ran + Serials(created)
    {
      es, created, removed, failed := es0, created0, removed0, false;
      var id := identify(cfgs[i]);
      Lookup(removed, active, cfgs, identify, i);
      if id in removed && removed[id].cfg == cfgs[i] {
        ResolvingReused(active, first, next, cfgs, i, es, created, removed, identify);
        es, removed := es + [removed[id]], removed - {id};
      } else {
        SerialsSnoc(created, Handle(next, cfgs[i]));
        es, created, failed := CreateOne(cfgs, i, es, created, removed, first);
      }
    }

    /** Reuses or creates an estimator for every stream, in order. Creating may fail half-way. */
    method Resolve(cfgs: seq<Cfg>)
      returns (es: seq<Handle<Cfg>>, created: seq<Handle<Cfg>>, removed: map<Id, Handle<Cfg>>, failed: bool)
      requires Valid() && DistinctIds(cfgs, identify)
      modifies `next, `running
      ensures next >= old(next) && running == old(running) + Serials(created)
      ensures DistinctSerials(created) && forall h | h in created :: old(next) <= h.serial < next
      ensures failed <==> exists i | 0 <= i < |cfgs| :: !Kept(active, cfgs[i]) && !creatable(cfgs[i])
      ensures !failed ==> Resolving(active, old(next), next, cfgs, es, created, removed, identify)
    {
      removed := IndexActive();
      es, created := [], [];
      assert Serials(created) == {};
      var i := 0;
      while i < |cfgs|
        invariant 0 <= i <= |cfgs| && running == old(running) + Serials(created)
        invariant Resolving(active, old(next), next, cfgs[..i], es, created, removed, identify)
        invariant forall j | 0 <= j < i :: Kept(active, cfgs[j]) || creatable(cfgs[j])
      {
        es, created, removed, failed := ResolveOne(cfgs, i, es, created, removed, old(next), old(running));
        if failed {
          return;
        }
        i := i + 1;
      }
      assert cfgs[..i] == cfgs;
      failed := false;
    }

    method ListRemoved(removed: map<Id, Handle<Cfg>>) returns (gone: seq<Handle<Cfg>>)
      requires forall id | id in removed :: identify(removed[id].cfg) == id && removed[id] in active
      requires DistinctSerials(active)
      ensures Lists(gone, removed) && DistinctSerials(gone)
    {
      gone := [];
      var todo := removed.Keys;
      while todo != {}
        invariant todo <= removed.Keys && DistinctSerials(gone)
        invariant forall h | h in gone ::
                    h in active && identify(h.cfg) in removed.Keys - todo && removed[identify(h.cfg)] == h
        invariant forall id | id in removed && id !in todo :: removed[id] in gone
      {
        var id :| id in todo;
        todo := todo - {id};
        forall h | h in gone ensures h.serial != removed[id].serial {
          SameSerialSame(active, h, removed[id]);
        }
        gone := gone + [removed[id]];
      }
    }

    /** Publishes the estimators, and only then lets the deduplicator forget what it let pass. */
    method Publish(es: seq<Handle<Cfg>>, created: seq<Handle<Cfg>>, dedup: bool)
      modifies `active, `effects
      ensures active == es
      ensures var fingerprints := AnyNeedsLabels(created, perLabel);
              effects == old(effects) + Published(Serials(old(active)), Serials(es), fingerprints,
                                                  dedup && created != [])
    {
      var i := 0;
      while i < |created|
        invariant 0 <= i <= |created| && effects == old(effects)
        invariant forall j | 0 <= j < i :: !perLabel(created[j].cfg)
      {
        if perLabel(created[i].cfg) {
          effects := effects + [FingerprintsOn(Serials(active))];
          assert created[i] in created;
          break;
        }
        i := i + 1;
      }
      active := es;
      effects := effects + [Swapped];
      if dedup && |created| > 0 {
        effects := effects + [DedupReset(Serials(active))];
      }
    }

    /** Publishes what was resolved and stops what is left over. */
    method Apply(es: seq<Handle<Cfg>>, created: seq<Handle<Cfg>>, gone: seq<Handle<Cfg>>, dedup: bool)
      requires DistinctSerials(gone) && Serials(gone) <= running && Serials(gone) == Serials(active) - Serials(es)
      modifies `active, `running, `effects
      ensures active == es && running == old(running) - Serials(gone) && old(effects) <= effects
      ensures InOrder(effects[|old(effects)|..], Serials(old(active)), Serials(es),
                      AnyNeedsLabels(created, perLabel), dedup && created != [])
    {
      ghost var before, was := effects, Serials(active);
      ghost var fingerprints, reset := AnyNeedsLabels(created, perLabel), dedup && created != [];
      Publish(es, created, dedup);
      StopAll(gone);
      StopsInOrder(gone, was, Serials(es), fingerprints, reset);
      DoneSince(before, Published(was, Serials(es), fingerprints, reset), Stops(gone));
    }

    method Switch(cfgs: seq<Cfg>, es: seq<Handle<Cfg>>, created: seq<Handle<Cfg>>, removed: map<Id, Handle<Cfg>>,
                  dedup: bool, ghost first: nat)
      requires DistinctSerials(active) && DistinctHandles(active, identify) && DistinctIds(cfgs, identify)
      requires (forall h | h in active :: h.serial < first) && running == Serials(active) + Serials(created)
      requires Resolving(active, first, next, cfgs, es, created, removed, identify)
      modifies `active, `running, `effects
      ensures Valid() && active == es && SameSet(active, cfgs)
      ensures LoadEffects(old(active), active, cfgs, dedup, perLabel, old(effects), effects)
    {
      CreatedMeans(active, first, next, cfgs, es, created, removed, identify, perLabel);
      var gone := ListRemoved(removed);
      RunningAfter(active, first, next, cfgs, es, created, removed, identify, gone);
      ResolvedIds(active, first, cfgs, es, identify);
      GoneSerials(active, created, es, gone);
      Apply(es, created, gone, dedup);
    }

    /** Applies a configuration. Streams served already keep their estimator; a load that fails
        leaves the active set alone and stops what it created; a load that finds the same set of
        streams does nothing at all. */
    method LoadConfig(cfgs: seq<Cfg>, dedup: bool) returns (changed: bool, failed: bool)
      requires Valid() && DistinctIds(cfgs, identify)
      modifies this
      ensures Valid()
      ensures failed <==> exists i | 0 <= i < |cfgs| :: !Kept(old(active), cfgs[i]) && !creatable(cfgs[i])
      ensures !failed ==> (changed <==> !SameSet(old(active), cfgs)) && SameSet(active, cfgs)
      ensures !changed ==> active == old(active) && running == old(running)
      ensures !changed && !failed ==> effects == old(effects)
      ensures changed ==> !failed && Resolved(old(active), old(next), cfgs, active)
      ensures changed ==> LoadEffects(old(active), active, cfgs, dedup, perLabel, old(effects), effects)
      ensures failed ==> old(effects) <= effects && OnlyStopsNew(effects[|old(effects)|..], old(next))
    {
      var es, created, removed;
      es, created, removed, failed := Resolve(cfgs);
      changed := false;
      if failed {
        FreshSerials(active, created, old(next));
        StopAll(created);
        return;
      }
      UnchangedIff(active, old(next), next, cfgs, es, created, removed, identify);
      if |created| == 0 && |removed| == 0 {
        assert Serials(created) == {};
        return;
      }
      changed := true;
      Switch(cfgs, es, created, removed, dedup, old(next));
    }
  }

  lemma DoneSince<T>(before: seq<T>, first: seq<T>, last: seq<T>)
    ensures before <= before + first + last && (before + first + last)[|before|..] == first + last
  {
  }

  ghost predicate AnyNeedsLabels<Cfg>(handles: seq<Handle<Cfg>>, perLabel: Cfg -> bool) {
    exists h | h in handles :: perLabel(h.cfg)
  }

  ghost function Stops<Cfg>(handles: seq<Handle<Cfg>>): seq<Effect> {
    seq(|handles|, i requires 0 <= i < |handles| => Stopped(handles[i].serial))
  }

  ghost predicate OnlyStopsNew(effects: seq<Effect>, first: nat) {
    forall e | e in effects :: e.Stopped? && first <= e.serial
  }

  ghost function Published(was: set<nat>, now: set<nat>, fingerprints: bool, reset: bool): seq<Effect> {
    (if fingerprints then [FingerprintsOn(was)] else []) + [Swapped] + if reset then [DedupReset(now)] else []
  }

  /** What a load did, around the swap at place s: label fingerprints are turned on before it, while the
      old estimators are published, and the deduplicator is reset after it, when the new ones are; last
      the estimators that are left over are stopped. Nothing happens twice. */
  ghost predicate AroundSwap(done: seq<Effect>, s: nat, was: set<nat>, now: set<nat>, fingerprints: bool, reset: bool) {
    && s < |done| && done[s] == Swapped
    && (forall i, j | 0 <= i < j < |done| :: done[i] != done[j])
    && (fingerprints <==> exists i | 0 <= i < |done| :: done[i].FingerprintsOn?)
    && (forall i | 0 <= i < |done| && done[i].FingerprintsOn? :: i < s && done[i].published == was)
    && (reset <==> exists i | 0 <= i < |done| :: done[i].DedupReset?)
    && (forall i | 0 <= i < |done| && done[i].DedupReset? :: s < i && done[i].published == now)
    && (forall i, j | 0 <= i < |done| && 0 <= j < |done| && done[i].Stopped? && !done[j].Stopped? :: j < i)
    && (forall serial :: serial in was - now <==> exists i | 0 <= i < |done| :: done[i] == Stopped(serial))
  }

  ghost predicate InOrder(done: seq<Effect>, was: set<nat>, now: set<nat>, fingerprints: bool, reset: bool) {
    exists s | 0 <= s < |done| :: AroundSwap(done, s, was, now, fingerprints, reset)
  }

  /** Fingerprinting is turned on if a new stream needs it, and the deduplicator is reset if any
      stream is new. */
  ghost predicate LoadEffects<Cfg>(handles: seq<Handle<Cfg>>, published: seq<Handle<Cfg>>, cfgs: seq<Cfg>, dedup: bool,
                                   perLabel: Cfg -> bool, before: seq<Effect>, after: seq<Effect>)
  {
    var created := exists i | 0 <= i < |cfgs| :: !Kept(handles, cfgs[i]);
    var fingerprints := exists i | 0 <= i < |cfgs| :: !Kept(handles, cfgs[i]) && perLabel(cfgs[i]);
    && before <= after
    && InOrder(after[|before|..], Serials(handles), Serials(published), fingerprints, dedup && created)
  }

  lemma GoneSerials<Cfg>(before: seq<Handle<Cfg>>, created: seq<Handle<Cfg>>, es: seq<Handle<Cfg>>,
                         gone: seq<Handle<Cfg>>)
    requires Serials(before) + Serials(created) - Serials(gone) == Serials(es) && Serials(gone) <= Serials(before)
    ensures Serials(gone) == Serials(before) - Serials(es)
  {
  }

  /** Place by place: perhaps one effect before the swap at s, perhaps one after it, and stops from m on. */
  ghost predicate Places<Cfg>(done: seq<Effect>, s: nat, m: nat, was: set<nat>, now: set<nat>, gone: seq<Handle<Cfg>>) {
    && s <= 1 && s < m <= s + 2 && |done| == m + |gone|
    && (s == 1 ==> done[0] == FingerprintsOn(was)) && done[s] == Swapped
    && (m == s + 2 ==> done[s + 1] == DedupReset(now))
    && forall i | m <= i < |done| :: done[i] == Stopped(gone[i - m].serial)
  }

  lemma StopsAreDistinct<Cfg>(done: seq<Effect>, s: nat, m: nat, was: set<nat>, now: set<nat>, gone: seq<Handle<Cfg>>)
    requires Places(done, s, m, was, now, gone) && DistinctSerials(gone)
    ensures forall i, j | 0 <= i < j < |done| :: done[i] != done[j]
  {
    forall i, j | 0 <= i < j < |done| ensures done[i] != done[j] {
      if m <= i {
        assert gone[i - m].serial != gone[j - m].serial;
      }
    }
  }

  lemma StopsAreGone<Cfg>(done: seq<Effect>, s: nat, m: nat, was: set<nat>, now: set<nat>, gone: seq<Handle<Cfg>>)
    requires Places(done, s, m, was, now, gone)
    ensures forall serial :: serial in Serials(gone) <==> exists i | 0 <= i < |done| :: done[i] == Stopped(serial)
  {
    forall serial | serial in Serials(gone) ensures exists i | 0 <= i < |done| :: done[i] == Stopped(serial) {
      var k :| 0 <= k < |gone| && gone[k].serial == serial;
      assert done[m + k] == Stopped(serial);
    }
    forall serial, i | 0 <= i < |done| && done[i] == Stopped(serial) ensures serial in Serials(gone) {
      assert m <= i && gone[i - m].serial == serial;
    }
  }

  lemma PlacesInOrder<Cfg>(done: seq<Effect>, s: nat, m: nat, was: set<nat>, now: set<nat>, gone: seq<Handle<Cfg>>)
    requires Places(done, s, m, was, now, gone) && DistinctSerials(gone) && Serials(gone) == was - now
    ensures InOrder(done, was, now, s == 1, m == s + 2)
  {
    StopsAreDistinct(done, s, m, was, now, gone);
    StopsAreGone(done, s, m, was, now, gone);
    assert AroundSwap(done, s, was, now, s == 1, m == s + 2);
  }

  lemma StopsInOrder<Cfg>(gone: seq<Handle<Cfg>>, was: set<nat>, now: set<nat>, fingerprints: bool, reset: bool)
    requires DistinctSerials(gone) && Serials(gone) == was - now
    ensures InOrder(Published(was, now, fingerprints, reset) + Stops(gone), was, now, fingerprints, reset)
  {
    var s := if fingerprints then 1 else 0;
    var m := if reset then s + 2 else s + 1;
    PlacesInOrder(Published(was, now, fingerprints, reset) + Stops(gone), s, m, was, now, gone);
  }

  /** New serial numbers are not among the old ones. */
  lemma FreshSerials<Cfg>(handles: seq<Handle<Cfg>>, created: seq<Handle<Cfg>>, first: nat)
    requires (forall h | h in handles :: h.serial < first) && forall h | h in created :: first <= h.serial
    ensures Serials(handles) + Serials(created) - Serials(created) == Serials(handles)
  {
    forall s | s in Serials(handles) ensures s !in Serials(created) {
      var i :| 0 <= i < |handles| && handles[i].serial == s;
      assert handles[i] in handles;
    }
  }

  /* Reloading */

  datatype File<Cfg> = File(hash: Uint64, streams: seq<Cfg>)

  /** What a reload finds: a file that cannot be read, parsed or accepted, or an accepted one. */
  datatype Attempt<Cfg> = Unreadable | Accepted(file: File<Cfg>)

  /** Loading succeeds if every stream is served already or can be created. */
  ghost predicate Loads<Cfg>(current: seq<Cfg>, cfgs: seq<Cfg>, creatable: Cfg -> bool) {
    forall i | 0 <= i < |cfgs| :: cfgs[i] in current || creatable(cfgs[i])
  }

  /** The configuration in force after some attempts. */
  ghost function InForce<Cfg>(attempts: seq<Attempt<Cfg>>, start: File<Cfg>, creatable: Cfg -> bool): File<Cfg> {
    if attempts == [] then start
    else
      var before := InForce(attempts[..|attempts| - 1], start, creatable);
      match attempts[|attempts| - 1]
      case Unreadable => before
      case Accepted(file) =>
        if file.hash != before.hash && Loads(before.streams, file.streams, creatable) then file else before
  }

  /** A stream that is served before a load and after it keeps its estimator, the same object. */
  lemma KeptIsSameObject<Cfg(!new), Id>(before: seq<Handle<Cfg>>, next: nat, cfgs: seq<Cfg>, after: seq<Handle<Cfg>>,
                                        identify: Cfg -> Id, h: Handle<Cfg>)
    requires Resolved(before, next, cfgs, after) && DistinctHandles(before, identify)
    requires h in before && h.cfg in cfgs
    ensures h in after
  {
    var i :| 0 <= i < |cfgs| && cfgs[i] == h.cfg;
    var k :| 0 <= k < |before| && before[k] == h;
    assert Kept(before, cfgs[i]);
    KeptOnce(before, identify, after[i], h);
  }

  lemma KeptAreSameObjects<Cfg(!new), Id>(before: seq<Handle<Cfg>>, next: nat, cfgs: seq<Cfg>, after: seq<Handle<Cfg>>,
                                          identify: Cfg -> Id)
    requires Resolved(before, next, cfgs, after) && DistinctHandles(before, identify)
    ensures forall h | h in before && h.cfg in cfgs :: h in after
  {
    forall h | h in before && h.cfg in cfgs ensures h in after {
      KeptIsSameObject(before, next, cfgs, after, identify, h);
    }
  }

  /** Whether a load succeeds only depends on the streams that are served. */
  lemma LoadsIff<Cfg>(handles: seq<Handle<Cfg>>, current: seq<Cfg>, cfgs: seq<Cfg>, creatable: Cfg -> bool)
    requires SameSet(handles, current)
    ensures Loads(current, cfgs, creatable)
            <==> !exists i | 0 <= i < |cfgs| :: !Kept(handles, cfgs[i]) && !creatable(cfgs[i])
  {
    SameSetKept(handles, current);
  }

  lemma SameSetKept<Cfg>(handles: seq<Handle<Cfg>>, current: seq<Cfg>)
    requires SameSet(handles, current)
    ensures forall cfg :: Kept(handles, cfg) <==> cfg in current
  {
    forall cfg ensures Kept(handles, cfg) <==> cfg in current {
      if Kept(handles, cfg) {
        var i :| 0 <= i < |handles| && handles[i].cfg == cfg;
        assert handles[i] in handles;
      }
    }
  }

  /** The stream is in the configuration that each of the attempts leaves in force. */
  ghost predicate AlwaysInForce<Cfg>(attempts: seq<Attempt<Cfg>>, start: File<Cfg>, creatable: Cfg -> bool, cfg: Cfg) {
    forall i | 0 <= i <= |attempts| :: cfg in InForce(attempts[..i], start, creatable).streams
  }

  lemma AlwaysBefore<Cfg>(attempts: seq<Attempt<Cfg>>, n: nat, start: File<Cfg>, creatable: Cfg -> bool, cfg: Cfg)
    requires n <= |attempts| && AlwaysInForce(attempts, start, creatable, cfg)
    ensures AlwaysInForce(attempts[..n], start, creatable, cfg)
    ensures cfg in InForce(attempts[..n], start, creatable).streams
  {
    forall i | 0 <= i <= n ensures cfg in InForce(attempts[..n][..i], start, creatable).streams {
      assert attempts[..n][..i] == attempts[..i];
    }
  }

  /** The streams in force all along have kept their estimators. */
  ghost predicate LastingKept<Cfg(!new)>(before: seq<Handle<Cfg>>, after: seq<Handle<Cfg>>, attempts: seq<Attempt<Cfg>>,
                                         start: File<Cfg>, creatable: Cfg -> bool)
  {
    forall h | h in before && AlwaysInForce(attempts, start, creatable, h.cfg) :: h in after
  }

  lemma LastingStayKept<Cfg(!new)>(before: seq<Handle<Cfg>>, now: seq<Handle<Cfg>>, after: seq<Handle<Cfg>>,
                                   attempts: seq<Attempt<Cfg>>, start: File<Cfg>, creatable: Cfg -> bool)
    requires attempts != [] && LastingKept(before, now, attempts[..|attempts| - 1], start, creatable)
    requires forall h | h in now && h.cfg in InForce(attempts, start, creatable).streams :: h in after
    ensures LastingKept(before, after, attempts, start, creatable)
  {
    forall h | h in before && AlwaysInForce(attempts, start, creatable, h.cfg) ensures h in after {
      AlwaysBefore(attempts, |attempts| - 1, start, creatable, h.cfg);
      AlwaysBefore(attempts, |attempts|, start, creatable, h.cfg);
      assert attempts[..|attempts|] == attempts;
    }
  }

  /** Some stream is not served and cannot be created. */
  ghost predicate NewFails<Cfg>(handles: seq<Handle<Cfg>>, cfgs: seq<Cfg>, creatable: Cfg -> bool) {
    exists i | 0 <= i < |cfgs| :: !Kept(handles, cfgs[i]) && !creatable(cfgs[i])
  }

  /** Loads a configuration; streams served before and after keep their object. */
  method LoadKeeping<Cfg(==, !new), Id(==, !new)>(loader: Loader<Cfg, Id>, cfgs: seq<Cfg>, dedup: bool)
    returns (changed: bool, failed: bool)
    requires loader.Valid() && DistinctIds(cfgs, loader.identify)
    modifies loader
    ensures loader.Valid() && (failed <==> NewFails(old(loader.active), cfgs, loader.creatable))
    ensures failed ==> !changed
    ensures !failed ==> SameSet(loader.active, cfgs) && (changed <==> !SameSet(old(loader.active), cfgs))
    ensures !failed ==> forall h | h in old(loader.active) && h.cfg in cfgs :: h in loader.active
    ensures !changed ==> loader.active == old(loader.active)
  {
    ghost var before, next := loader.active, loader.next;
    changed, failed := loader.LoadConfig(cfgs, dedup);
    if changed {
      KeptAreSameObjects(before, next, cfgs, loader.active, loader.identify);
    }
  }

  /** One attempt of the reload loop. */
  method TryReload<Cfg(==, !new), Id(==, !new)>(loader: Loader<Cfg, Id>, current: File<Cfg>, attempt: Attempt<Cfg>,
                                                dedup: bool)
    returns (cfg: File<Cfg>)
    requires loader.Valid() && SameSet(loader.active, current.streams)
    requires attempt.Accepted? ==> DistinctIds(attempt.file.streams, loader.identify)
    modifies loader
    ensures loader.Valid() && SameSet(loader.active, cfg.streams)
    ensures cfg == if attempt.Accepted? && attempt.file.hash != current.hash
                      && Loads(current.streams, attempt.file.streams, loader.creatable)
                   then attempt.file else current
    ensures forall h | h in old(loader.active) && h.cfg in cfg.streams :: h in loader.active
  {
    cfg := current;
    if attempt.Accepted? && attempt.file.hash != cfg.hash {
      LoadsIff(loader.active, cfg.streams, attempt.file.streams, loader.creatable);
      var changed, failed := LoadKeeping(loader, attempt.file.streams, dedup);
      if !failed {
        cfg := attempt.file;
      }
    }
  }

  /** The reload loop: whatever the attempts, the estimators serve the configuration in force, and a
      stream that was in force all along is served by the object it had at the start. */
  method Reload<Cfg(==, !new), Id(==, !new)>(loader: Loader<Cfg, Id>, start: File<Cfg>, attempts: seq<Attempt<Cfg>>,
                                             dedup: bool)
    returns (cfg: File<Cfg>)
    requires loader.Valid() && SameSet(loader.active, start.streams)
    requires forall a | a in attempts && a.Accepted? :: DistinctIds(a.file.streams, loader.identify)
    modifies loader
    ensures loader.Valid() && cfg == InForce(attempts, start, loader.creatable)
    ensures SameSet(loader.active, cfg.streams)
    ensures LastingKept(old(loader.active), loader.active, attempts, start, loader.creatable)
  {
    cfg := start;
    ghost var before := loader.active;
    var i := 0;
    while i < |attempts|
      invariant 0 <= i <= |attempts| && cfg == InForce(attempts[..i], start, loader.creatable)
      invariant loader.Valid() && SameSet(loader.active, cfg.streams)
      invariant LastingKept(before, loader.active, attempts[..i], start, loader.creatable)
    {
      assert attempts[..i + 1][..i] == attempts[..i];
      assert attempts[i] in attempts;
      ghost var now := loader.active;
      cfg := TryReload(loader, cfg, attempts[i], dedup);
      LastingStayKept(before, now, loader.active, attempts[..i + 1], start, loader.creatable);
      i := i + 1;
    }
    assert attempts[..i] == attempts;
  }
}
