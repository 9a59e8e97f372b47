/** What batches insert, said on the labels of their series: which of them take part, which fingerprint
    goes in, and under which group values. */
module Contributions {
  import opened Base
  import opened Series
  import opened EstimatorModel
  import opened GroupKeys
  import Estimators
  import Global = GlobalModel
  import SeriesFeeds

  /* One series */

  ghost predicate HasName(labels: seq<Label>, name: string) {
    exists i | 0 <= i < |labels| :: labels[i].name == name
  }

  /** The value of the first label with this name, or nothing. */
  ghost predicate IsValue(labels: seq<Label>, name: string, value: string) {
    if HasName(labels, name) then
      exists i | 0 <= i < |labels| ::
        labels[i].name == name && labels[i].value == value && forall j | 0 <= j < i :: labels[j].name != name
    else value == ""
  }

  /** The series passes the filter and carries one of the explicit names, or there are none. */
  ghost predicate TakesPart(labels: seq<Label>, explicit: seq<string>, matches: seq<Label> -> bool) {
    matches(labels) && (explicit == [] || exists i | 0 <= i < |explicit| :: HasName(labels, explicit[i]))
  }

  ghost predicate IsFingerprinted(labels: seq<Label>, i: nat, fp: Uint64, name: string)
    requires i < |labels|
  {
    labels[i].fingerprint == fp && fp != 0 && labels[i].name == name
  }

  /** The series inserts this fingerprint under these group values: its own, or with `__label__` that of
      one of its labels, whose name is the last value. */
  ghost predicate Inserts(ts: TimeSerie, explicit: seq<string>, perLabel: bool, matches: seq<Label> -> bool,
                          fp: Uint64, values: seq<string>)
  {
    && TakesPart(ts.labels, explicit, matches)
    && |values| == |explicit| + (if perLabel then 1 else 0)
    && (forall i | 0 <= i < |explicit| :: IsValue(ts.labels, explicit[i], values[i]))
    && if perLabel
       then exists i | 0 <= i < |ts.labels| :: IsFingerprinted(ts.labels, i, fp, values[|explicit|])
       else fp == ts.fingerprint
  }

  /** The series fp and these values come from. */
  ghost predicate SomeInserts(tss: seq<TimeSerie>, explicit: seq<string>, perLabel: bool, matches: seq<Label> -> bool,
                              fp: Uint64, values: seq<string>)
  {
    exists i | 0 <= i < |tss| :: Inserts(tss[i], explicit, perLabel, matches, fp, values)
  }

  lemma {:induction false} FindMeans(labels: seq<Label>, name: string, value: string)
    ensures IsValue(labels, name, value) <==> value == if Find(labels, name).Some? then Find(labels, name).value else ""
    ensures Find(labels, name).Some? <==> HasName(labels, name)
  {
    if labels != [] && labels[0].name != name {
      FindMeans(labels[1..], name, value);
      LaterLabel(labels, name, value);
    }
  }

  /** A label that is not named so can be left away at the front. */
  lemma LaterLabel(labels: seq<Label>, name: string, value: string)
    requires labels != [] && labels[0].name != name
    ensures HasName(labels, name) <==> HasName(labels[1..], name)
    ensures IsValue(labels, name, value) <==> IsValue(labels[1..], name, value)
  {
    if i :| 0 <= i < |labels| && labels[i].name == name {
      assert labels[1..][i - 1].name == name;
    }
    if i :| 0 <= i < |labels| && labels[i].name == name && labels[i].value == value
            && forall j | 0 <= j < i :: labels[j].name != name
    {
      assert labels[1..][i - 1].name == name && labels[1..][i - 1].value == value;
      assert forall j | 0 <= j < i - 1 :: labels[1..][j].name != name;
    }
    if i :| 0 <= i < |labels[1..]| && labels[1..][i].name == name && labels[1..][i].value == value
            && forall j | 0 <= j < i :: labels[1..][j].name != name
    {
      assert labels[i + 1].name == name && labels[i + 1].value == value;
      assert forall j | 0 < j < i + 1 :: labels[j].name == labels[1..][j - 1].name;
    }
  }

  lemma ValuesMean(labels: seq<Label>, explicit: seq<string>, values: seq<string>)
    requires |values| == |explicit|
    ensures values == Values(labels, explicit) <==>
            forall i | 0 <= i < |explicit| :: IsValue(labels, explicit[i], values[i])
  {
    forall i | 0 <= i < |explicit|
      ensures IsValue(labels, explicit[i], values[i]) <==> values[i] == Values(labels, explicit)[i]
    {
      FindMeans(labels, explicit[i], values[i]);
    }
  }

  lemma ContributesMeans(labels: seq<Label>, explicit: seq<string>)
    ensures Contributes(labels, explicit)
            <==> explicit == [] || exists i | 0 <= i < |explicit| :: HasName(labels, explicit[i])
  {
    forall i | 0 <= i < |explicit| ensures Find(labels, explicit[i]).Some? <==> HasName(labels, explicit[i]) {
      FindMeans(labels, explicit[i], "");
    }
  }

  ghost predicate Offered(offers: seq<Offer>, fp: Uint64, values: seq<string>) {
    exists i | 0 <= i < |offers| :: offers[i].fp == fp && offers[i].values == values
  }

  lemma PlainInserts(ts: TimeSerie, explicit: seq<string>, matches: seq<Label> -> bool, fp: Uint64, values: seq<string>)
    ensures Offered(Offers(ts, Grouping(explicit, false), matches), fp, values)
            <==> Inserts(ts, explicit, false, matches, fp, values)
  {
    ContributesMeans(ts.labels, explicit);
    if |values| == |explicit| {
      ValuesMean(ts.labels, explicit, values);
    }
    var offers := Offers(ts, Grouping(explicit, false), matches);
    assert TakesPart(ts.labels, explicit, matches) ==>
             offers[0].fp == ts.fingerprint && offers[0].values == Values(ts.labels, explicit);
  }

  /** Some label has this fingerprint, and its name comes after the values before. */
  ghost predicate LabelGiven(before: seq<string>, labels: seq<Label>, fp: Uint64, values: seq<string>) {
    && |values| == |before| + 1 && values[..|before|] == before
    && exists i | 0 <= i < |labels| :: IsFingerprinted(labels, i, fp, values[|before|])
  }

  lemma OfferOfLabel(prefix: string, before: seq<string>, labels: seq<Label>, i: nat, o: Offer)
    requires i < |labels| && o in LabelOffer(prefix, before)(labels[i])
    ensures LabelGiven(before, labels, o.fp, o.values)
  {
    assert o.values == before + [labels[i].name];
    assert IsFingerprinted(labels, i, o.fp, o.values[|before|]);
  }

  lemma LabelIsOffered(prefix: string, before: seq<string>, labels: seq<Label>, fp: Uint64, values: seq<string>)
    requires LabelGiven(before, labels, fp, values)
    ensures Offered(FlatMap(LabelOffer(prefix, before), labels), fp, values)
  {
    var i :| 0 <= i < |labels| && IsFingerprinted(labels, i, fp, values[|before|]);
    var o := Offer(prefix + labels[i].name, fp, before + [labels[i].name]);
    assert o.values == values;
    MemberIsOffered(LabelOffer(prefix, before), labels, i, o);
  }

  lemma MemberIsOffered<A>(f: A -> seq<Offer>, s: seq<A>, i: nat, o: Offer)
    requires i < |s| && o in f(s[i])
    ensures Offered(FlatMap(f, s), o.fp, o.values)
  {
    FlatMapMember(f, s, o);
    var all := FlatMap(f, s);
    var k :| 0 <= k < |all| && all[k] == o;
  }

  lemma OfferedByMember<A>(f: A -> seq<Offer>, s: seq<A>, fp: Uint64, values: seq<string>) returns (i: nat, o: Offer)
    requires Offered(FlatMap(f, s), fp, values)
    ensures i < |s| && o in f(s[i]) && o.fp == fp && o.values == values
  {
    var all := FlatMap(f, s);
    var k :| 0 <= k < |all| && all[k].fp == fp && all[k].values == values;
    o := all[k];
    FlatMapMember(f, s, o);
    i :| 0 <= i < |s| && o in f(s[i]);
  }

  lemma LabelsOffered(prefix: string, before: seq<string>, labels: seq<Label>, fp: Uint64, values: seq<string>)
    ensures Offered(FlatMap(LabelOffer(prefix, before), labels), fp, values)
            <==> LabelGiven(before, labels, fp, values)
  {
    var f := LabelOffer(prefix, before);
    if Offered(FlatMap(f, labels), fp, values) {
      var i, o := OfferedByMember(f, labels, fp, values);
      OfferOfLabel(prefix, before, labels, i, o);
    }
    if LabelGiven(before, labels, fp, values) {
      LabelIsOffered(prefix, before, labels, fp, values);
    }
  }

  lemma PerLabelInserts(ts: TimeSerie, explicit: seq<string>, matches: seq<Label> -> bool, fp: Uint64,
                        values: seq<string>)
    ensures Offered(Offers(ts, Grouping(explicit, true), matches), fp, values)
            <==> Inserts(ts, explicit, true, matches, fp, values)
  {
    ContributesMeans(ts.labels, explicit);
    var text, before := KeyText(ts.labels, explicit), Values(ts.labels, explicit);
    LabelsOffered(if explicit == [] then text else text + "\0", before, ts.labels, fp, values);
    if |values| == |explicit| + 1 {
      ValuesMean(ts.labels, explicit, values[..|explicit|]);
    }
  }

  /** What a series offers is what its labels say. */
  lemma SeriesInserts(ts: TimeSerie, g: Grouping, matches: seq<Label> -> bool, fp: Uint64, values: seq<string>)
    ensures Offered(Offers(ts, g, matches), fp, values)
            <==> Inserts(ts, g.explicit, g.perLabel, matches, fp, values)
  {
    if g.perLabel {
      PerLabelInserts(ts, g.explicit, matches, fp, values);
    } else {
      PlainInserts(ts, g.explicit, matches, fp, values);
    }
  }

  /* How many */

  ghost function Fingerprinted(labels: seq<Label>): set<nat> {
    set i: nat | i < |labels| && labels[i].fingerprint != 0
  }

  lemma {:induction false} LabelOfferCount(prefix: string, before: seq<string>, labels: seq<Label>)
    ensures |FlatMap(LabelOffer(prefix, before), labels)| == |Fingerprinted(labels)|
  {
    if labels != [] {
      var n := |labels| - 1;
      LabelOfferCount(prefix, before, labels[..n]);
      assert Fingerprinted(labels) == Fingerprinted(labels[..n]) + if labels[n].fingerprint != 0 then {n} else {};
    }
  }

  /** A series that takes part counts once, or once for each label with a fingerprint. */
  lemma SeriesCount(ts: TimeSerie, g: Grouping, matches: seq<Label> -> bool)
    ensures |Offers(ts, g, matches)|
            == if !TakesPart(ts.labels, g.explicit, matches) then 0
               else if g.perLabel then |Fingerprinted(ts.labels)| else 1
  {
    ContributesMeans(ts.labels, g.explicit);
    if g.perLabel {
      var text, before := KeyText(ts.labels, g.explicit), Values(ts.labels, g.explicit);
      LabelOfferCount(if g.explicit == [] then text else text + "\0", before, ts.labels);
    }
  }

  /* A batch */

  lemma OffersOfBatch(tss: seq<TimeSerie>, g: Grouping, matches: seq<Label> -> bool, fp: Uint64, values: seq<string>)
    ensures Offered(BatchOffers(tss, g, matches), fp, values)
            <==> exists i | 0 <= i < |tss| :: Offered(Offers(tss[i], g, matches), fp, values)
  {
    var f := OffersOf(g, matches);
    if Offered(FlatMap(f, tss), fp, values) {
      var i, o := OfferedByMember(f, tss, fp, values);
      assert Offered(Offers(tss[i], g, matches), fp, values);
    }
    if i :| 0 <= i < |tss| && Offered(Offers(tss[i], g, matches), fp, values) {
      var offers := Offers(tss[i], g, matches);
      var k :| 0 <= k < |offers| && offers[k].fp == fp && offers[k].values == values;
      MemberIsOffered(f, tss, i, offers[k]);
    }
  }

  lemma BatchInserts(tss: seq<TimeSerie>, g: Grouping, matches: seq<Label> -> bool, fp: Uint64, values: seq<string>)
    ensures Offered(BatchOffers(tss, g, matches), fp, values)
            <==> SomeInserts(tss, g.explicit, g.perLabel, matches, fp, values)
  {
    OffersOfBatch(tss, g, matches, fp, values);
    forall i | 0 <= i < |tss|
      ensures Offered(Offers(tss[i], g, matches), fp, values)
              <==> Inserts(tss[i], g.explicit, g.perLabel, matches, fp, values)
    {
      SeriesInserts(tss[i], g, matches, fp, values);
    }
  }

  ghost predicate OpInserts(ops: seq<Op>, fp: Uint64, values: seq<string>) {
    exists i | 0 <= i < |ops| :: ops[i].Insert? && ops[i].fp == fp && ops[i].values == values
  }

  lemma HashedInserts(offers: seq<Offer>, hash: string -> Uint64, fp: Uint64, values: seq<string>)
    ensures OpInserts(Hashed(offers, hash), fp, values) <==> Offered(offers, fp, values)
  {
    var ops := Hashed(offers, hash);
    forall i | 0 <= i < |ops| ensures ops[i] == Insert(hash(offers[i].text), offers[i].fp, offers[i].values) {
    }
    if i :| 0 <= i < |offers| && offers[i].fp == fp && offers[i].values == values {
      assert ops[i].Insert? && ops[i].fp == fp && ops[i].values == values;
    }
  }

  /** A batch visits its own series and, if it has at most 2^31, all of them. */
  lemma VisitedMembers(tss: seq<TimeSerie>, start: nat)
    ensures forall ts | ts in Visited(tss, start) :: ts in tss
    ensures |tss| <= 0x8000_0000 && (tss != [] ==> start < |tss|) ==> forall ts | ts in tss :: ts in Visited(tss, start)
  {
    SeriesFeeds.VisitedInBatch(tss, start);
    if |tss| <= 0x8000_0000 && tss != [] && start < |tss| {
      VisitedIsRotation(tss, start);
      assert tss == tss[..start] + tss[start..];
    }
  }

  lemma VisitedInserts(tss: seq<TimeSerie>, start: nat, explicit: seq<string>, perLabel: bool,
                       matches: seq<Label> -> bool, fp: Uint64, values: seq<string>)
    ensures SomeInserts(Visited(tss, start), explicit, perLabel, matches, fp, values)
            ==> SomeInserts(tss, explicit, perLabel, matches, fp, values)
    ensures |tss| <= 0x8000_0000 && (tss != [] ==> start < |tss|) ==>
              (SomeInserts(Visited(tss, start), explicit, perLabel, matches, fp, values)
               <==> SomeInserts(tss, explicit, perLabel, matches, fp, values))
  {
    VisitedMembers(tss, start);
    var visited := Visited(tss, start);
    if i :| 0 <= i < |visited| && Inserts(visited[i], explicit, perLabel, matches, fp, values) {
      assert visited[i] in tss;
    }
    if i :| 0 <= i < |tss| && Inserts(tss[i], explicit, perLabel, matches, fp, values) {
      assert tss[i] in tss;
    }
  }

  /** What a batch puts into a grouped estimator: exactly the fingerprints that its series insert under
      their group values. Only an explicit list may end with `__label__`. */
  lemma EstimatorInserts(tss: seq<TimeSerie>, start: nat, groupBy: seq<string>, matches: seq<Label> -> bool,
                         hash: string -> Uint64, fp: Uint64, values: seq<string>)
    requires groupBy != [] && |tss| <= 0x8000_0000 && (tss != [] ==> start < |tss|)
    ensures var n := |groupBy| - 1;
            var perLabel := groupBy[n] == "__label__";
            var offers := BatchOffers(Visited(tss, start), Estimators.GroupingOf(groupBy), matches);
            OpInserts(Hashed(offers, hash), fp, values)
            <==> SomeInserts(tss, if perLabel then groupBy[..n] else groupBy, perLabel, matches, fp, values)
  {
    var g := Estimators.GroupingOf(groupBy);
    HashedInserts(BatchOffers(Visited(tss, start), g, matches), hash, fp, values);
    BatchInserts(Visited(tss, start), g, matches, fp, values);
    VisitedInserts(tss, start, g.explicit, g.perLabel, matches, fp, values);
  }

  /** And into a global one: the fingerprints of the series that pass the filter. */
  lemma GlobalInserts(tss: seq<TimeSerie>, start: nat, matches: seq<Label> -> bool, op: Global.CellOp)
    requires |tss| <= 0x8000_0000 && (tss != [] ==> start < |tss|)
    ensures op in Estimators.GlobalOps(Visited(tss, start), matches)
            <==> exists ts | ts in tss :: matches(ts.labels) && op == Global.InsertHash(ts.fingerprint)
  {
    var f, visited := Estimators.HashesOf(matches), Visited(tss, start);
    VisitedMembers(tss, start);
    FlatMapMember(f, visited, op);
    if op in Estimators.GlobalOps(visited, matches) {
      var i :| 0 <= i < |visited| && op in f(visited[i]);
      assert visited[i] in tss;
    }
    if ts :| ts in tss && matches(ts.labels) && op == Global.InsertHash(ts.fingerprint) {
      var i :| 0 <= i < |visited| && visited[i] == ts;
      assert op in f(visited[i]);
    }
  }
}
