/** Which inserts a time series contributes to a grouped stream, and what their keys stand for. */
module GroupKeys {
  import opened Base
  import opened Series
  import opened EstimatorModel
  import RotationLoops

  /** The explicit group-by names of a stream, and whether `__label__` follows them. */
  datatype Grouping = Grouping(explicit: seq<string>, perLabel: bool)

  /** One insert before its key is hashed. */
  datatype Offer = Offer(text: string, fp: Uint64, values: seq<string>)

  /** The value of the first label with the given name. */
  function Find(labels: seq<Label>, name: string): (r: Option<string>)
    ensures r.Some? <==> exists i | 0 <= i < |labels| :: labels[i].name == name
  {
    if labels == [] then None
    else if labels[0].name == name then Some(labels[0].value)
    else
      var r := Find(labels[1..], name);
      assert r.Some? <==> exists i | 1 <= i < |labels| :: labels[i].name == name by {
        if i :| 1 <= i < |labels| && labels[i].name == name {
          assert labels[1..][i - 1].name == name;
        }
      }
      r
  }

  /** The key text: a NUL and the value for each name the series carries, in group-by order. */
  function KeyText(labels: seq<Label>, names: seq<string>): string {
    if names == [] then ""
    else
      var before := KeyText(labels, names[..|names| - 1]);
      match Find(labels, names[|names| - 1]) {
        case None => before
        case Some(v) => before + "\0" + v
      }
  }

  function Values(labels: seq<Label>, names: seq<string>): (r: seq<string>)
    ensures |r| == |names|
  {
    seq(|names|, i requires 0 <= i < |names| =>
      match Find(labels, names[i]) { case None => "" case Some(v) => v })
  }

  /** Whether the series takes part in the grouping at all. */
  predicate Contributes(labels: seq<Label>, names: seq<string>) {
    names == [] || exists i | 0 <= i < |names| :: Find(labels, names[i]).Some?
  }

  /** What one label offers to a per-label stream: itself, if it was fingerprinted. */
  function LabelOffer(prefix: string, values: seq<string>): Label -> seq<Offer> {
    (l: Label) => if l.fingerprint == 0 then [] else [Offer(prefix + l.name, l.fingerprint, values + [l.name])]
  }

  /** What one series offers to the stream: nothing, itself, or each of its fingerprinted labels. */
  function Offers(ts: TimeSerie, g: Grouping, matches: seq<Label> -> bool): seq<Offer> {
    var text, values := KeyText(ts.labels, g.explicit), Values(ts.labels, g.explicit);
    if !matches(ts.labels) || !Contributes(ts.labels, g.explicit) then []
    else if !g.perLabel then [Offer(text, ts.fingerprint, values)]
    else FlatMap(LabelOffer(if g.explicit == [] then text else text + "\0", values), ts.labels)
  }

  function Hashed(offers: seq<Offer>, hash: string -> Uint64): seq<Op> {
    seq(|offers|, i requires 0 <= i < |offers| => Insert(hash(offers[i].text), offers[i].fp, offers[i].values))
  }

  function OffersOf(g: Grouping, matches: seq<Label> -> bool): TimeSerie -> seq<Offer> {
    ts => Offers(ts, g, matches)
  }

  /** All offers of a batch, in the order its series are visited. */
  function BatchOffers(tss: seq<TimeSerie>, g: Grouping, matches: seq<Label> -> bool): seq<Offer> {
    FlatMap(OffersOf(g, matches), tss)
  }

  /* Keys and values */

  ghost predicate NulFree(s: string) { '\0' !in s }

  ghost predicate Present(labels: seq<Label>, name: string) { Find(labels, name).Some? }

  /** Both series carry the same ones of the names, with values that have no NUL. */
  ghost predicate SamePresence(a: seq<Label>, b: seq<Label>, names: seq<string>) {
    forall i | 0 <= i < |names| :: Present(a, names[i]) == Present(b, names[i])
  }

  ghost predicate CleanValues(a: seq<Label>) {
    forall i | 0 <= i < |a| :: NulFree(a[i].value) && NulFree(a[i].name)
  }

  lemma {:induction false} FoundIsClean(labels: seq<Label>, name: string)
    requires CleanValues(labels)
    ensures Find(labels, name).Some? ==> NulFree(Find(labels, name).value)
  {
    if labels != [] && labels[0].name != name {
      FoundIsClean(labels[1..], name);
    }
  }

  /** A text cut at its last NUL is cut in one way. */
  lemma LastNul(p: string, v: string, q: string, w: string)
    requires p + "\0" + v == q + "\0" + w && NulFree(v) && NulFree(w)
    ensures p == q && v == w
  {
    var a, b := p + "\0" + v, q + "\0" + w;
    assert a[|p|] == '\0' && b[|q|] == '\0';
    assert |p| == |q|;
    assert a[..|p|] == p && b[..|q|] == q;
    assert a[|p| + 1..] == v && b[|q| + 1..] == w;
  }

  /** Among series that carry the same names, the key text and the values determine each other. */
  lemma {:induction false} TextDeterminesValues(a: seq<Label>, b: seq<Label>, names: seq<string>)
    requires CleanValues(a) && CleanValues(b) && SamePresence(a, b, names)
    ensures KeyText(a, names) == KeyText(b, names) <==> Values(a, names) == Values(b, names)
    decreases |names|
  {
    if names != [] {
      var n := |names| - 1;
      var name, before := names[n], names[..n];
      TextDeterminesValues(a, b, before);
      ValuesSnoc(a, names);
      ValuesSnoc(b, names);
      assert Present(a, name) == Present(b, name);
      if Present(a, name) {
        FoundIsClean(a, name);
        FoundIsClean(b, name);
        if KeyText(a, names) == KeyText(b, names) {
          LastNul(KeyText(a, before), Find(a, name).value, KeyText(b, before), Find(b, name).value);
        }
      }
    }
  }

  lemma ValuesSnoc(a: seq<Label>, names: seq<string>)
    requires names != []
    ensures var n := |names| - 1;
            && Values(a, names)[..n] == Values(a, names[..n])
            && Values(a, names)[n] == (match Find(a, names[n]) { case None => "" case Some(v) => v })
            && Values(a, names) == Values(a, names[..n]) + [Values(a, names)[n]]
  {
  }

  /** The values of the names the series carries. */
  ghost function Parts(labels: seq<Label>, names: seq<string>): seq<string> {
    if names == [] then []
    else
      var before := Parts(labels, names[..|names| - 1]);
      match Find(labels, names[|names| - 1]) {
        case None => before
        case Some(v) => before + [v]
      }
  }

  ghost function Joined(parts: seq<string>): string {
    if parts == [] then "" else Joined(parts[..|parts| - 1]) + "\0" + parts[|parts| - 1]
  }

  lemma {:induction false} TextIsJoined(labels: seq<Label>, names: seq<string>)
    requires CleanValues(labels)
    ensures KeyText(labels, names) == Joined(Parts(labels, names))
    ensures forall p | p in Parts(labels, names) :: NulFree(p)
    decreases |names|
  {
    if names != [] {
      var n := |names| - 1;
      TextIsJoined(labels, names[..n]);
      FoundIsClean(labels, names[n]);
      var before := Parts(labels, names[..n]);
      if Present(labels, names[n]) {
        assert (before + [Find(labels, names[n]).value])[..|before|] == before;
      }
    }
  }

  /** Joined parts can be told apart. */
  lemma {:induction false} JoinedIsInjective(a: seq<string>, b: seq<string>)
    requires (forall p | p in a :: NulFree(p)) && (forall p | p in b :: NulFree(p))
    requires Joined(a) == Joined(b)
    ensures a == b
    decreases |a|
  {
    if a != [] && b != [] {
      var m, n := |a| - 1, |b| - 1;
      LastNul(Joined(a[..m]), a[m], Joined(b[..n]), b[n]);
      JoinedIsInjective(a[..m], b[..n]);
      assert a == a[..m] + [a[m]] && b == b[..n] + [b[n]];
    }
  }

  ghost function NonEmpty(parts: seq<string>): seq<string> {
    if parts == [] then []
    else NonEmpty(parts[..|parts| - 1]) + if parts[|parts| - 1] == "" then [] else [parts[|parts| - 1]]
  }

  /** Both series have non-empty values for the same ones of the names. */
  ghost predicate SameNonEmpty(a: seq<Label>, b: seq<Label>, names: seq<string>) {
    forall i | 0 <= i < |names| :: (Values(a, names)[i] == "") == (Values(b, names)[i] == "")
  }

  /** The non-empty parts up to one more name. */
  lemma NonEmptySnoc(a: seq<Label>, names: seq<string>)
    requires names != []
    ensures var n := |names| - 1;
            var v := Values(a, names)[n];
            NonEmpty(Parts(a, names)) == NonEmpty(Parts(a, names[..n])) + if v == "" then [] else [v]
  {
    var n := |names| - 1;
    var before := Parts(a, names[..n]);
    if Present(a, names[n]) {
      var v := Find(a, names[n]).value;
      assert (before + [v])[..|before|] == before;
    } else {
      assert Parts(a, names) == before;
    }
  }

  lemma SameEnds<T>(s: seq<T>, v: T, t: seq<T>, w: T)
    requires s + [v] == t + [w]
    ensures s == t && v == w
  {
    assert (s + [v])[..|s|] == s && (t + [w])[..|t|] == t;
    assert (s + [v])[|s|] == v && (t + [w])[|t|] == w;
  }

  /** Lists that end with what is not empty agree before it, and in it. */
  lemma SameNonEmptyEnds(s: seq<string>, v: string, t: seq<string>, w: string)
    requires (v == "") == (w == "")
    requires s + (if v == "" then [] else [v]) == t + if w == "" then [] else [w]
    ensures s == t && v == w
  {
    if v == "" {
      assert s + [] == s && t + [] == t;
    } else {
      SameEnds(s, v, t, w);
    }
  }

  lemma FewerNames(a: seq<Label>, b: seq<Label>, names: seq<string>)
    requires names != [] && SameNonEmpty(a, b, names)
    ensures SameNonEmpty(a, b, names[..|names| - 1])
  {
    var less := names[..|names| - 1];
    forall i | 0 <= i < |less| ensures (Values(a, less)[i] == "") == (Values(b, less)[i] == "") {
      assert Values(a, less)[i] == Values(a, names)[i] && Values(b, less)[i] == Values(b, names)[i];
    }
  }

  lemma {:induction false} NonEmptyAligned(a: seq<Label>, b: seq<Label>, names: seq<string>)
    requires SameNonEmpty(a, b, names) && NonEmpty(Parts(a, names)) == NonEmpty(Parts(b, names))
    ensures Values(a, names) == Values(b, names)
    decreases |names|
  {
    if names == [] {
      assert Values(a, names) == [] == Values(b, names);
    } else {
      var n := |names| - 1;
      NonEmptySnoc(a, names);
      NonEmptySnoc(b, names);
      SameNonEmptyEnds(NonEmpty(Parts(a, names[..n])), Values(a, names)[n],
                       NonEmpty(Parts(b, names[..n])), Values(b, names)[n]);
      FewerNames(a, b, names);
      NonEmptyAligned(a, b, names[..n]);
      ValuesSnoc(a, names);
      ValuesSnoc(b, names);
    }
  }

  /** Series that share a key text show the same values exactly when they have non-empty values for
      the same names: keys alone do not tell which names were there. */
  lemma SharedTextSameValuesIff(a: seq<Label>, b: seq<Label>, names: seq<string>)
    requires CleanValues(a) && CleanValues(b) && KeyText(a, names) == KeyText(b, names)
    ensures Values(a, names) == Values(b, names) <==> SameNonEmpty(a, b, names)
  {
    if SameNonEmpty(a, b, names) {
      TextIsJoined(a, names);
      TextIsJoined(b, names);
      JoinedIsInjective(Parts(a, names), Parts(b, names));
      NonEmptyAligned(a, b, names);
    }
  }

  /** Two series, each with one of two group-by names and the same value, share their key whatever
      the hash, but not their values: the group keeps the values of the one that came first. */
  lemma MissingNamesCollide(hash: string -> Uint64)
    ensures var g := Grouping(["a", "b"], false);
            var onlyA := TimeSerie([Label("a", "x", 1)], 1);
            var onlyB := TimeSerie([Label("b", "x", 2)], 2);
            exists opA: Op, opB: Op ::
              && Hashed(Offers(onlyA, g, labels => true), hash) == [opA]
              && Hashed(Offers(onlyB, g, labels => true), hash) == [opB]
              && opA.Insert? && opB.Insert? && opA.key == opB.key && opA.values != opB.values
  {
    var names := ["a", "b"];
    var a, b := [Label("a", "x", 1)], [Label("b", "x", 2)];
    assert names[..1] == ["a"] && names[..1][..0] == [];
    assert Find(a, "a") == Some("x") && Find(b, "b") == Some("x") && Find(b, "a") == None && Find(a, "b") == None;
    assert KeyText(a, ["a"]) == "\0x" && KeyText(b, ["a"]) == "";
    assert KeyText(a, names) == "\0x" && KeyText(b, names) == "\0x";
    assert Values(a, names)[0] == "x" && Values(b, names)[0] == "";
    assert Find(a, names[0]).Some? && Find(b, names[1]).Some?;
    var opA, opB := Insert(hash("\0x"), 1, Values(a, names)), Insert(hash("\0x"), 2, Values(b, names));
    var g := Grouping(names, false);
    assert Offers(TimeSerie(a, 1), g, labels => true) == [Offer("\0x", 1, Values(a, names))];
    assert Offers(TimeSerie(b, 2), g, labels => true) == [Offer("\0x", 2, Values(b, names))];
    assert Hashed(Offers(TimeSerie(a, 1), g, labels => true), hash) == [opA];
    assert Hashed(Offers(TimeSerie(b, 2), g, labels => true), hash) == [opB];
  }

  ghost predicate CarriesAll(labels: seq<Label>, names: seq<string>) {
    forall i | 0 <= i < |names| :: Present(labels, names[i])
  }

  /** Among series that carry every explicit name, an offer's text stands for one combination of
      values, so distinct groups only share a key if the hash itself collides. */
  lemma OffersAreFunctional(a: TimeSerie, b: TimeSerie, g: Grouping, matches: seq<Label> -> bool, o: Offer, p: Offer)
    requires CleanValues(a.labels) && CleanValues(b.labels)
    requires CarriesAll(a.labels, g.explicit) && CarriesAll(b.labels, g.explicit)
    requires o in Offers(a, g, matches) && p in Offers(b, g, matches)
    ensures o.text == p.text <==> o.values == p.values
  {
    TextDeterminesValues(a.labels, b.labels, g.explicit);
    if g.perLabel {
      var m, i := LabelOfOffer(a, g, matches, o);
      var n, j := LabelOfOffer(b, g, matches, p);
      var s, t := KeyText(a.labels, g.explicit), KeyText(b.labels, g.explicit);
      var v, w := Values(a.labels, g.explicit), Values(b.labels, g.explicit);
      if g.explicit != [] && o.text == p.text {
        LastNul(s, m, t, n);
      }
      if o.values == p.values {
        assert (v + [m])[..|v|] == v && (w + [n])[..|w|] == w;
        assert (v + [m])[|v|] == m && (w + [n])[|w|] == n;
      }
      assert v == w ==> s == t;
    }
  }

  /** The label behind an offer of a per-label stream. */
  lemma LabelOfOffer(ts: TimeSerie, g: Grouping, matches: seq<Label> -> bool, o: Offer) returns (name: string, i: nat)
    requires CleanValues(ts.labels) && g.perLabel && o in Offers(ts, g, matches)
    ensures i < |ts.labels| && name == ts.labels[i].name && NulFree(name)
    ensures o.values == Values(ts.labels, g.explicit) + [name]
    ensures o.text == if g.explicit == [] then name else KeyText(ts.labels, g.explicit) + "\0" + name
  {
    var s, v := KeyText(ts.labels, g.explicit), Values(ts.labels, g.explicit);
    var prefix := if g.explicit == [] then s else s + "\0";
    FlatMapMember(LabelOffer(prefix, v), ts.labels, o);
    i :| 0 <= i < |ts.labels| && o in LabelOffer(prefix, v)(ts.labels[i]);
    name := ts.labels[i].name;
  }

  /* Visiting order */

  /** The index visited in step j: the sum wraps as an unsigned 32-bit integer. */
  function VisitIndex(start: nat, j: nat, n: nat): (i: nat)
    requires 0 < n
    ensures i < n
  {
    (start + j) % TWO_TO_THE_32 % n
  }

  /** The loop runs as often as the 32-bit length says. */
  function Steps(n: nat): nat { n % TWO_TO_THE_32 }

  /** A start offset, as it is drawn for a batch of n series. */
  ghost predicate IsStart(n: nat, start: nat) {
    if Steps(n) == 0 then start == 0 else start < Steps(n)
  }

  ghost predicate IsVisited(n: nat, start: nat, i: nat) {
    exists j: nat :: j < Steps(n) && VisitIndex(start, j, Steps(n)) == i
  }

  /** Every index is visited, and none twice. */
  ghost predicate VisitsEachOnce(n: nat, start: nat) {
    && (forall i: nat | i < n :: IsVisited(n, start, i))
    && (forall j: nat, l: nat | j < l < Steps(n) ::
          VisitIndex(start, j, Steps(n)) != VisitIndex(start, l, Steps(n)))
  }

  lemma IndexWithoutWrap(start: nat, j: nat, n: nat)
    requires start < n <= 0x8000_0000 && j < n
    ensures VisitIndex(start, j, n) == if start + j < n then start + j else start + j - n
  {
    assert (start + j) % TWO_TO_THE_32 == start + j;
    ModOnce(start + j, n);
  }

  lemma ModOnce(x: nat, n: nat)
    requires 0 < n && x < 2 * n
    ensures x % n == if x < n then x else x - n
  {
    if x < n {
      RotationLoops.ModOfSum(x, 0, x, n);
    } else {
      RotationLoops.ModOfSum(x, 1, x - n, n);
    }
  }

  lemma SmallVisitsEachOnce(n: nat, start: nat)
    requires start < n <= 0x8000_0000
    ensures VisitsEachOnce(n, start)
  {
    assert Steps(n) == n;
    forall j: nat | j < n ensures VisitIndex(start, j, n) == if start + j < n then start + j else start + j - n {
      IndexWithoutWrap(start, j, n);
    }
    forall i: nat | i < n ensures IsVisited(n, start, i) {
      var j := if start <= i then i - start else i + n - start;
      assert VisitIndex(start, j, n) == i;
    }
  }

  /** Between 2^31 and 2^32 series, the sum that wraps comes by the first series twice. */
  lemma LargeVisitsTwice(n: nat)
    requires 0x8000_0000 < n < TWO_TO_THE_32
    ensures !VisitsEachOnce(n, n - 1)
  {
    var start, l := n - 1, TWO_TO_THE_32 - n + 1;
    assert Steps(n) == n;
    ModOnce(n, n);
    ModOnce(0, n);
    assert (start + 1) % TWO_TO_THE_32 == n && VisitIndex(start, 1, n) == 0;
    assert (start + l) % TWO_TO_THE_32 == 0 && VisitIndex(start, l, n) == 0;
  }

  /** From 2^32 series on the length is truncated and the last series is never visited. */
  lemma HugeMissesLast(n: nat, start: nat)
    requires TWO_TO_THE_32 <= n
    ensures !IsVisited(n, start, n - 1)
  {
    assert Steps(n) < TWO_TO_THE_32;
  }

  /** The loop visits every series exactly once from every start offset exactly if the batch has at
      most 2^31 series. */
  lemma VisitsEachOnceIffSmall(n: nat)
    ensures (forall start: nat | IsStart(n, start) :: VisitsEachOnce(n, start)) <==> n <= 0x8000_0000
  {
    if n == 0 {
      assert Steps(n) == 0;
    } else if n <= 0x8000_0000 {
      assert Steps(n) == n;
      forall start: nat | IsStart(n, start) ensures VisitsEachOnce(n, start) {
        SmallVisitsEachOnce(n, start);
      }
    } else if n < TWO_TO_THE_32 {
      assert Steps(n) == n && IsStart(n, n - 1);
      LargeVisitsTwice(n);
    } else {
      assert IsStart(n, 0);
      HugeMissesLast(n, 0);
    }
  }

  /** The series in the order they are visited; the length is truncated to 32 bits. */
  function Visited(tss: seq<TimeSerie>, start: nat): seq<TimeSerie> {
    var n := Steps(|tss|);
    if n == 0 then [] else seq(n, j requires 0 <= j < n => tss[VisitIndex(start, j, n)])
  }

  lemma {:induction false} VisitedIsRotation(tss: seq<TimeSerie>, start: nat)
    requires tss != [] && |tss| <= 0x8000_0000 && start < |tss|
    ensures Visited(tss, start) == tss[start..] + tss[..start]
  {
    var n := |tss|;
    assert Steps(n) == n;
    var visited, rotated := Visited(tss, start), tss[start..] + tss[..start];
    assert |visited| == n == |rotated|;
    forall j: nat | j < n ensures visited[j] == rotated[j] {
      IndexWithoutWrap(start, j, n);
      assert visited[j] == tss[VisitIndex(start, j, n)];
    }
  }

  /** Whatever the start offset, a batch offers the same inserts, each as often. */
  lemma {:induction false} StartOffsetIrrelevant(tss: seq<TimeSerie>, start: nat, g: Grouping,
                                                 matches: seq<Label> -> bool)
    requires |tss| <= 0x8000_0000 && (tss != [] ==> start < |tss|)
    ensures multiset(BatchOffers(Visited(tss, start), g, matches)) == multiset(BatchOffers(tss, g, matches))
  {
    if tss == [] {
      assert Visited(tss, start) == tss;
    } else {
      VisitedIsRotation(tss, start);
      FlatMapRotated(OffersOf(g, matches), tss, start);
    }
  }

  lemma {:induction false} HashedMultiset(a: seq<Offer>, b: seq<Offer>, hash: string -> Uint64)
    requires multiset(a) == multiset(b)
    ensures multiset(Hashed(a, hash)) == multiset(Hashed(b, hash))
    decreases |a|
  {
    if a == [] {
      assert b == [];
    } else {
      var i := RemoveOne(a, b);
      var rest := b[..i] + b[i + 1..];
      HashedMultiset(a[1..], rest, hash);
      var x, y := Hashed(a, hash), Hashed(b, hash);
      assert x == [x[0]] + Hashed(a[1..], hash);
      assert y == y[..i] + [y[i]] + y[i + 1..];
      assert Hashed(rest, hash) == y[..i] + y[i + 1..];
    }
  }

  /** So in any exact state the tracked count after a batch does not depend on the start offset. */
  lemma {:induction false} OffsetsEndWithSameSize(s: State, tss: seq<TimeSerie>, start: nat, start': nat, g: Grouping,
                                                  matches: seq<Label> -> bool, hash: string -> Uint64)
    requires Exact(s) && |tss| <= 0x8000_0000 && (tss != [] ==> start < |tss| && start' < |tss|)
    ensures Run(s, Hashed(BatchOffers(Visited(tss, start), g, matches), hash)).counters.size
            == Run(s, Hashed(BatchOffers(Visited(tss, start'), g, matches), hash)).counters.size
  {
    StartOffsetIrrelevant(tss, start, g, matches);
    StartOffsetIrrelevant(tss, start', g, matches);
    var a, b := BatchOffers(Visited(tss, start), g, matches), BatchOffers(Visited(tss, start'), g, matches);
    HashedMultiset(a, b, hash);
    BatchOrderIrrelevant(s, Hashed(a, hash), Hashed(b, hash));
  }
}
