/** Sketches, the sketch pool, and the merging of snapshots that arrive from many nodes. */
module Snapshots {
  import opened Base

  type Key = Uint64

  /* Values */

  /** A sketch as the set of hashes it was given, with the precision it was created with. */
  datatype SketchValue = SketchValue(precision: nat, hashes: set<Uint64>)

  /** Sketches of different precisions do not merge: the receiver keeps what it has. */
  function Merged(s: SketchValue, other: SketchValue): SketchValue {
    if s.precision == other.precision then s.(hashes := s.hashes + other.hashes) else s
  }

  datatype Entry = Entry(values: seq<string>, sketch: SketchValue)

  /** What does not depend on which snapshot was merged last. */
  datatype Core = Core(
    entries: map<Key, Entry>,
    calculateChurn: bool,
    rejectSize: int,
    minCardinality: int)

  const EMPTY := Core(map[], false, 0, 0)

  function MergedEntries(s: map<Key, Entry>, other: map<Key, Entry>): map<Key, Entry> {
    map k | k in s.Keys + other.Keys ::
      if k !in s then other[k]
      else if k !in other then s[k]
      else s[k].(sketch := Merged(s[k].sketch, other[k].sketch))
  }

  function MergedMinCardinality(a: int, b: int): int {
    if a < 0 || b < 0 then -1 else if a < b then b else a
  }

  function MergedCore(s: Core, other: Core): Core {
    Core(
      MergedEntries(s.entries, other.entries),
      s.calculateChurn || other.calculateChurn,
      s.rejectSize + other.rejectSize,
      MergedMinCardinality(s.minCardinality, other.minCardinality))
  }

  /** The result of merging the snapshots one after the other, as they arrive. */
  function Folded(s: Core, arrivals: seq<Core>): Core
    decreases |arrivals|
  {
    if arrivals == [] then s else Folded(MergedCore(s, arrivals[0]), arrivals[1..])
  }

  /** Merging as snapshots arrive is folding: one more arrival is one more merge. */
  lemma {:induction false} FoldedAppend(s: Core, arrivals: seq<Core>, x: Core)
    ensures Folded(s, arrivals + [x]) == MergedCore(Folded(s, arrivals), x)
    decreases |arrivals|
  {
    if arrivals == [] {
    } else {
      assert (arrivals + [x])[1..] == arrivals[1..] + [x];
      FoldedAppend(MergedCore(s, arrivals[0]), arrivals[1..], x);
    }
  }

  /* Arrival order */

  /** Entries of the same group that s does not have yet agree on its label values and precision. */
  ghost predicate Agree(s: map<Key, Entry>, a: map<Key, Entry>, b: map<Key, Entry>) {
    forall k | k in a && k in b && k !in s ::
      a[k].values == b[k].values && a[k].sketch.precision == b[k].sketch.precision
  }

  ghost predicate AllAgree(s: Core, arrivals: seq<Core>) {
    forall i, j | 0 <= i < j < |arrivals| :: Agree(s.entries, arrivals[i].entries, arrivals[j].entries)
  }

  /** Into a sketch that is there, the others can be merged in any order, whatever their precisions. */
  lemma SketchesSwap(s: SketchValue, a: SketchValue, b: SketchValue)
    ensures Merged(Merged(s, a), b) == Merged(Merged(s, b), a)
  {
    assert s.hashes + a.hashes + b.hashes == s.hashes + b.hashes + a.hashes;
  }

  lemma EntriesSwap(a: Entry, b: Entry)
    requires a.values == b.values && a.sketch.precision == b.sketch.precision
    ensures a.(sketch := Merged(a.sketch, b.sketch)) == b.(sketch := Merged(b.sketch, a.sketch))
  {
    assert a.sketch.hashes + b.sketch.hashes == b.sketch.hashes + a.sketch.hashes;
  }

  lemma SwapAt(s: map<Key, Entry>, a: map<Key, Entry>, b: map<Key, Entry>, k: Key)
    requires Agree(s, a, b) && k in s.Keys + a.Keys + b.Keys
    ensures MergedEntries(MergedEntries(s, a), b)[k] == MergedEntries(MergedEntries(s, b), a)[k]
  {
    if k in a && k in b {
      if k in s {
        SketchesSwap(s[k].sketch, a[k].sketch, b[k].sketch);
      } else {
        EntriesSwap(a[k], b[k]);
      }
    }
  }

  lemma Swap(s: Core, a: Core, b: Core)
    requires Agree(s.entries, a.entries, b.entries)
    ensures MergedCore(MergedCore(s, a), b) == MergedCore(MergedCore(s, b), a)
  {
    var ab := MergedEntries(MergedEntries(s.entries, a.entries), b.entries);
    var ba := MergedEntries(MergedEntries(s.entries, b.entries), a.entries);
    assert ab.Keys == ba.Keys;
    forall k | k in ab ensures ab[k] == ba[k] {
      SwapAt(s.entries, a.entries, b.entries, k);
    }
  }

  /** What is merged only ever adds groups, so less is left to agree on. */
  lemma MergeKeepsAgree(s: Core, arrivals: seq<Core>)
    requires arrivals != [] && AllAgree(s, arrivals)
    ensures AllAgree(MergedCore(s, arrivals[0]), arrivals[1..])
  {
    var rest := arrivals[1..];
    forall i, j | 0 <= i < j < |rest|
      ensures Agree(MergedCore(s, arrivals[0]).entries, rest[i].entries, rest[j].entries)
    {
      assert Agree(s.entries, arrivals[i + 1].entries, arrivals[j + 1].entries);
    }
  }

  /** An arrival can be moved to the front. */
  lemma {:induction false} MoveToFront(s: Core, arrivals: seq<Core>, i: nat)
    requires i < |arrivals| && AllAgree(s, arrivals)
    ensures Folded(s, arrivals) == Folded(MergedCore(s, arrivals[i]), arrivals[..i] + arrivals[i + 1..])
    decreases |arrivals|
  {
    if i == 0 {
      assert arrivals[..0] + arrivals[1..] == arrivals[1..];
    } else {
      var a, x := arrivals[0], arrivals[i];
      var rest := arrivals[1..];
      MergeKeepsAgree(s, arrivals);
      MoveToFront(MergedCore(s, a), rest, i - 1);
      assert rest[i - 1] == x;
      assert Agree(s.entries, arrivals[0].entries, arrivals[i].entries);
      Swap(s, a, x);
      var moved := arrivals[..i] + arrivals[i + 1..];
      assert moved[0] == a && moved[1..] == rest[..i - 1] + rest[i..];
    }
  }

  /** Agreement is a matter of which snapshots arrive, not of their order. */
  lemma PermutedAgree(s: Core, a: seq<Core>, b: seq<Core>)
    requires multiset(a) == multiset(b) && AllAgree(s, a)
    ensures AllAgree(s, b)
  {
    forall i, j | 0 <= i < j < |b| ensures Agree(s.entries, b[i].entries, b[j].entries) {
      if b[i] != b[j] {
        assert b[i] in multiset(a) && b[j] in multiset(a);
        var p :| 0 <= p < |a| && a[p] == b[i];
        var q :| 0 <= q < |a| && a[q] == b[j];
        assert Agree(s.entries, a[if p < q then p else q].entries, a[if p < q then q else p].entries);
      }
    }
  }

  /** If the arrivals agree, what they fold to does not depend on their order. */
  lemma {:induction false} ArrivalOrderIrrelevant(s: Core, a: seq<Core>, b: seq<Core>)
    requires multiset(a) == multiset(b) && AllAgree(s, a)
    ensures Folded(s, a) == Folded(s, b)
    decreases |a|
  {
    if a == [] {
      assert b == [];
    } else {
      var i := RemoveOne(a, b);
      MergeKeepsAgree(s, a);
      ArrivalOrderIrrelevant(MergedCore(s, a[0]), a[1..], b[..i] + b[i + 1..]);
      PermutedAgree(s, a, b);
      MoveToFront(s, b, i);
    }
  }

  /** Once a group is there, its values and its precision stay. */
  lemma {:induction false} FirstFixes(s: Core, arrivals: seq<Core>, k: Key)
    requires k in s.entries
    ensures var r := Folded(s, arrivals).entries;
            k in r && r[k].values == s.entries[k].values && r[k].sketch.precision == s.entries[k].sketch.precision
    decreases |arrivals|
  {
    if arrivals == [] {
    } else {
      FirstFixes(MergedCore(s, arrivals[0]), arrivals[1..], k);
    }
  }

  /** Whichever arrival comes first decides on a group that is not there yet. */
  lemma FirstDecides(s: Core, arrivals: seq<Core>, i: nat, k: Key) returns (order: seq<Core>)
    requires i < |arrivals| && k in arrivals[i].entries && k !in s.entries
    ensures multiset(order) == multiset(arrivals)
    ensures var r, e := Folded(s, order).entries, arrivals[i].entries[k];
            k in r && r[k].values == e.values && r[k].sketch.precision == e.sketch.precision
  {
    var rest := arrivals[..i] + arrivals[i + 1..];
    order := [arrivals[i]] + rest;
    WithoutIndex(arrivals, i);
    assert order[0] == arrivals[i] && order[1..] == rest;
    FirstFixes(MergedCore(s, arrivals[i]), rest, k);
  }

  /** Snapshots that arrive at a collection fold to the same in every order, sketches, reject total,
      churn flag and minimum, exactly if they agree on the values and the precision of every group that
      they share and the collection does not have yet. */
  lemma OrderIrrelevantIff(s: Core, arrivals: seq<Core>)
    ensures (forall order: seq<Core> | multiset(order) == multiset(arrivals) ::
               Folded(s, order) == Folded(s, arrivals))
            <==> AllAgree(s, arrivals)
  {
    if AllAgree(s, arrivals) {
      forall order: seq<Core> | multiset(order) == multiset(arrivals)
        ensures Folded(s, order) == Folded(s, arrivals)
      {
        ArrivalOrderIrrelevant(s, arrivals, order);
      }
    } else {
      var i, j :| 0 <= i < j < |arrivals| && !Agree(s.entries, arrivals[i].entries, arrivals[j].entries);
      var a, b := arrivals[i].entries, arrivals[j].entries;
      var k :| k in a && k in b && k !in s.entries
               && !(a[k].values == b[k].values && a[k].sketch.precision == b[k].sketch.precision);
      var first := FirstDecides(s, arrivals, i, k);
      var second := FirstDecides(s, arrivals, j, k);
      assert Folded(s, first) != Folded(s, second);
    }
  }

  /* What a fold holds */

  /** Entries of the same group agree on its label values and on the precision. */
  ghost predicate Compatible(s: map<Key, Entry>, other: map<Key, Entry>) {
    Agree(map[], s, other)
  }

  ghost predicate AllCompatible(s: Core, arrivals: seq<Core>) {
    && (forall i | 0 <= i < |arrivals| :: Compatible(s.entries, arrivals[i].entries))
    && (forall i, j | 0 <= i < j < |arrivals| :: Compatible(arrivals[i].entries, arrivals[j].entries))
  }

  lemma MergeStaysCompatible(s: Core, arrivals: seq<Core>)
    requires arrivals != [] && AllCompatible(s, arrivals)
    ensures AllCompatible(MergedCore(s, arrivals[0]), arrivals[1..])
  {
    forall i | 0 <= i < |arrivals[1..]|
      ensures Compatible(MergedCore(s, arrivals[0]).entries, arrivals[1..][i].entries)
    {
      assert arrivals[1..][i] == arrivals[i + 1];
      assert Compatible(s.entries, arrivals[i + 1].entries) && Compatible(arrivals[0].entries, arrivals[i + 1].entries);
    }
  }

  ghost predicate HasHash(s: Core, k: Key, h: Uint64) {
    k in s.entries && h in s.entries[k].sketch.hashes
  }

  /** The entries have the same values and precision. */
  ghost predicate SameGroup(a: Entry, b: Entry) {
    a.values == b.values && a.sketch.precision == b.sketch.precision
  }

  /** Reject sizes add up. */
  lemma {:induction false} FoldedRejectSize(s: Core, arrivals: seq<Core>)
    ensures Folded(s, arrivals).rejectSize == s.rejectSize + Sum((a: Core) => a.rejectSize, arrivals)
    decreases |arrivals|
  {
    if arrivals != [] {
      FoldedRejectSize(MergedCore(s, arrivals[0]), arrivals[1..]);
    }
  }

  /** A group keeps the values and the precision it has at the start, or those of the first arrival. */
  lemma {:induction false} FoldedValues(s: Core, arrivals: seq<Core>, k: Key)
    ensures var r := Folded(s, arrivals);
            && (k in s.entries ==> k in r.entries && SameGroup(r.entries[k], s.entries[k]))
            && forall i | 0 <= i < |arrivals| && k in arrivals[i].entries && k !in s.entries
                          && forall j | 0 <= j < i :: k !in arrivals[j].entries ::
                 k in r.entries && SameGroup(r.entries[k], arrivals[i].entries[k])
    decreases |arrivals|
  {
    if arrivals != [] {
      var t, rest := MergedCore(s, arrivals[0]), arrivals[1..];
      FoldedValues(t, rest, k);
      assert forall i | 0 <= i < |rest| :: rest[i] == arrivals[i + 1];
      forall i | 0 <= i < |arrivals| && k in arrivals[i].entries && k !in s.entries
                 && forall j | 0 <= j < i :: k !in arrivals[j].entries
        ensures k in Folded(s, arrivals).entries && SameGroup(Folded(s, arrivals).entries[k], arrivals[i].entries[k])
      {
        if i > 0 {
          assert k !in arrivals[0].entries && k !in t.entries && rest[i - 1] == arrivals[i];
        }
      }
    }
  }

  /** What an arrival order folds to, said without an order: which groups, which hashes. */
  lemma {:induction false} FoldedContent(s: Core, arrivals: seq<Core>, k: Key)
    requires AllCompatible(s, arrivals)
    ensures var r := Folded(s, arrivals);
            && (k in r.entries <==> k in s.entries || exists i | 0 <= i < |arrivals| :: k in arrivals[i].entries)
            && (forall h :: HasHash(r, k, h) <==>
                              HasHash(s, k, h) || exists i | 0 <= i < |arrivals| :: HasHash(arrivals[i], k, h))
            && (r.calculateChurn <==> s.calculateChurn || exists i | 0 <= i < |arrivals| :: arrivals[i].calculateChurn)
    decreases |arrivals|
  {
    if arrivals != [] {
      var t := MergedCore(s, arrivals[0]);
      var rest := arrivals[1..];
      MergeStaysCompatible(s, arrivals);
      FoldedContent(t, rest, k);
      assert forall i | 0 <= i < |rest| :: rest[i] == arrivals[i + 1];
      assert Compatible(s.entries, arrivals[0].entries);
      forall h: Uint64 ensures HasHash(t, k, h) <==> HasHash(s, k, h) || HasHash(arrivals[0], k, h) {
      }
    }
  }

  /** Any negative minimum wins; otherwise the largest, and never less than the initial zero. */
  lemma {:induction false} FoldedMinCardinality(s: Core, arrivals: seq<Core>)
    ensures var m := Folded(s, arrivals).minCardinality;
            && (arrivals != []
                && (s.minCardinality < 0 || exists i | 0 <= i < |arrivals| :: arrivals[i].minCardinality < 0)
                ==> m == -1)
            && (s.minCardinality >= 0 && (forall i | 0 <= i < |arrivals| :: arrivals[i].minCardinality >= 0) ==>
                  && s.minCardinality <= m && (forall i | 0 <= i < |arrivals| :: arrivals[i].minCardinality <= m)
                  && (m == s.minCardinality || exists i | 0 <= i < |arrivals| :: arrivals[i].minCardinality == m))
    decreases |arrivals|
  {
    if arrivals != [] {
      var t := MergedCore(s, arrivals[0]);
      var rest := arrivals[1..];
      FoldedMinCardinality(t, rest);
      assert forall i | 0 <= i < |rest| :: rest[i] == arrivals[i + 1];
    }
  }

  /** Cutting a snapshot into batches of keys, the reject size in only one, changes nothing. */
  lemma BatchesIrrelevant(s: Core, whole: Core, first: Core, second: Core)
    requires first.entries.Keys !! second.entries.Keys && whole.entries == first.entries + second.entries
    requires whole.calculateChurn == first.calculateChurn == second.calculateChurn
    requires whole.minCardinality == first.minCardinality == second.minCardinality
    requires whole.rejectSize == first.rejectSize + second.rejectSize
    ensures MergedCore(MergedCore(s, first), second) == MergedCore(s, whole)
  {
    var l := MergedEntries(MergedEntries(s.entries, first.entries), second.entries);
    var r := MergedEntries(s.entries, whole.entries);
    assert l.Keys == r.Keys;
    forall k | k in l ensures l[k] == r[k] {
    }
  }

  /* The group limit is the exception */

  /** A merge takes over the limit of the snapshot that arrives. */
  function MergedLimit(mine: int, theirs: int): int { theirs }

  function FoldedLimit(s: int, limits: seq<int>): int
    decreases |limits|
  {
    if limits == [] then s else FoldedLimit(MergedLimit(s, limits[0]), limits[1..])
  }

  /** So the merged limit is that of the last arrival. */
  lemma {:induction false} FoldedLimitIsLast(s: int, limits: seq<int>)
    ensures FoldedLimit(s, limits) == if limits == [] then s else limits[|limits| - 1]
    decreases |limits|
  {
    if limits != [] {
      FoldedLimitIsLast(limits[0], limits[1..]);
    }
  }

  /** Any arrival can be the last one. */
  lemma MovedLast(limits: seq<int>, i: nat) returns (moved: seq<int>)
    requires i < |limits|
    ensures multiset(moved) == multiset(limits) && moved != [] && moved[|moved| - 1] == limits[i]
  {
    WithoutIndex(limits, i);
    moved := limits[..i] + limits[i + 1..] + [limits[i]];
  }

  /** It does not depend on the order exactly if all arrivals agree. */
  lemma LimitOrderIrrelevantIff(s: int, limits: seq<int>)
    ensures (forall other: seq<int> | multiset(other) == multiset(limits) ::
               FoldedLimit(s, other) == FoldedLimit(s, limits))
            <==> forall i, j | 0 <= i < j < |limits| :: limits[i] == limits[j]
  {
    FoldedLimitIsLast(s, limits);
    if forall i, j | 0 <= i < j < |limits| :: limits[i] == limits[j] {
      forall other: seq<int> | multiset(other) == multiset(limits)
        ensures FoldedLimit(s, other) == FoldedLimit(s, limits)
      {
        FoldedLimitIsLast(s, other);
        assert |multiset(other)| == |multiset(limits)|;
        if other != [] {
          assert other[|other| - 1] in multiset(limits);
        }
      }
    } else {
      var i, j :| 0 <= i < j < |limits| && limits[i] != limits[j];
      var a := MovedLast(limits, i);
      var b := MovedLast(limits, j);
      FoldedLimitIsLast(s, a);
      FoldedLimitIsLast(s, b);
    }
  }
}
