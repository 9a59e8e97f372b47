/** The deduplicator: ten Bloom filters, one per fingerprint modulo ten, used by one thread. */
module Deduplicator {
  import opened Base
  import opened Series
  import opened Bloom

  const MIN_MAX_SIZE: nat := 9999
  const MIN_INTERVAL: nat := 30_000_000_000  // nanoseconds

  /** What a Bloom filter holds: its set bits and the number of items it counted. */
  datatype FilterView = FilterView(bits: set<nat>, size: nat)

  /* The filter as a function: what happens to a batch and to the ten filters */

  ghost predicate Seen(views: seq<FilterView>, h: Uint64, maxBits: nat)
    requires |views| == SLOTS && 0 < maxBits
  {
    Positions(h, maxBits) <= views[h % SLOTS].bits
  }

  /** A fingerprint is recorded when it is new and its filter has room. */
  ghost function AfterOne(views: seq<FilterView>, h: Uint64, cap: nat, maxBits: nat): (r: seq<FilterView>)
    requires |views| == SLOTS && 0 < maxBits
    ensures |r| == SLOTS
  {
    var v := views[h % SLOTS];
    if !Seen(views, h, maxBits) && v.size < cap
    then views[h % SLOTS := FilterView(v.bits + Positions(h, maxBits), v.size + 1)]
    else views
  }

  ghost function AfterBatch(views: seq<FilterView>, tss: seq<TimeSerie>, cap: nat, maxBits: nat): (r: seq<FilterView>)
    requires |views| == SLOTS && 0 < maxBits
    ensures |r| == SLOTS
  {
    if tss == [] then views
    else
      var n := |tss| - 1;
      AfterOne(AfterBatch(views, tss[..n], cap, maxBits), tss[n].fingerprint, cap, maxBits)
  }

  /** Some series of the batch belongs to the slot and has the bit. */
  ghost predicate SetByOwn(tss: seq<TimeSerie>, slot: nat, maxBits: nat, p: nat)
    requires 0 < maxBits
  {
    exists i | 0 <= i < |tss| :: tss[i].fingerprint % 10 == slot && p in Positions(tss[i].fingerprint, maxBits)
  }

  /** A filter only takes fingerprints whose last digit is its number. */
  lemma {:induction false} FiltersKeepApart(views: seq<FilterView>, tss: seq<TimeSerie>, cap: nat, maxBits: nat,
                                            slot: nat)
    requires |views| == 10 && 0 < maxBits && slot < 10
    ensures forall p | p in AfterBatch(views, tss, cap, maxBits)[slot].bits ::
              p in views[slot].bits || SetByOwn(tss, slot, maxBits, p)
    ensures (forall i | 0 <= i < |tss| :: tss[i].fingerprint % 10 != slot) ==>
              AfterBatch(views, tss, cap, maxBits)[slot] == views[slot]
  {
    if tss != [] {
      var n := |tss| - 1;
      FiltersKeepApart(views, tss[..n], cap, maxBits, slot);
      forall p | p in AfterBatch(views, tss, cap, maxBits)[slot].bits
        ensures p in views[slot].bits || SetByOwn(tss, slot, maxBits, p)
      {
        if p in AfterBatch(views, tss[..n], cap, maxBits)[slot].bits {
          if i :| 0 <= i < n && tss[..n][i].fingerprint % 10 == slot
                  && p in Positions(tss[..n][i].fingerprint, maxBits)
          {
            assert tss[i] == tss[..n][i];
          }
        } else {
          assert tss[n].fingerprint % 10 == slot && p in Positions(tss[n].fingerprint, maxBits);
        }
      }
    }
  }

  /** Series i passes when the filters, after the series before it, have not seen it. */
  ghost predicate Passes(views: seq<FilterView>, tss: seq<TimeSerie>, i: nat, cap: nat, maxBits: nat)
    requires |views| == SLOTS && 0 < maxBits && i < |tss|
  {
    !Seen(AfterBatch(views, tss[..i], cap, maxBits), tss[i].fingerprint, maxBits)
  }

  /** The passing series, in their order. */
  ghost function Passed(views: seq<FilterView>, tss: seq<TimeSerie>, cap: nat, maxBits: nat): seq<TimeSerie>
    requires |views| == SLOTS && 0 < maxBits
  {
    if tss == [] then []
    else
      var n := |tss| - 1;
      Passed(views, tss[..n], cap, maxBits) + if Passes(views, tss, n, cap, maxBits) then [tss[n]] else []
  }

  lemma PassesOnPrefix(views: seq<FilterView>, tss: seq<TimeSerie>, n: nat, i: nat, cap: nat, maxBits: nat)
    requires |views| == SLOTS && 0 < maxBits && i < n <= |tss|
    ensures Passes(views, tss[..n], i, cap, maxBits) == Passes(views, tss, i, cap, maxBits)
  {
    assert tss[..n][..i] == tss[..i];
  }

  lemma {:induction false} BitsOnlyGrow(views: seq<FilterView>, tss: seq<TimeSerie>, i: nat, cap: nat, maxBits: nat,
                                        slot: nat)
    requires |views| == SLOTS && 0 < maxBits && i <= |tss| && slot < SLOTS
    ensures AfterBatch(views, tss[..i], cap, maxBits)[slot].bits <= AfterBatch(views, tss, cap, maxBits)[slot].bits
    ensures AfterBatch(views, tss[..i], cap, maxBits)[slot].size <= AfterBatch(views, tss, cap, maxBits)[slot].size
  {
    var n := |tss| - 1;
    if i == |tss| {
      assert tss[..i] == tss;
    } else {
      assert tss[..n][..i] == tss[..i];
      BitsOnlyGrow(views, tss[..n], i, cap, maxBits, slot);
    }
  }

  /** After a batch every series of it is either remembered or belongs to a full filter. */
  lemma RememberedUnlessFull(views: seq<FilterView>, tss: seq<TimeSerie>, i: nat, cap: nat, maxBits: nat)
    requires |views| == SLOTS && 0 < maxBits && i < |tss|
    ensures var after := AfterBatch(views, tss, cap, maxBits);
            Seen(after, tss[i].fingerprint, maxBits) || after[tss[i].fingerprint % SLOTS].size >= cap
  {
    assert tss[..i + 1][..i] == tss[..i];
    BitsOnlyGrow(views, tss, i + 1, cap, maxBits, tss[i].fingerprint % SLOTS);
  }

  /** A repeat within a batch passes only once its filter is full: pass-through starts at the
      capacity of a filter, not at a fraction of it. */
  lemma RepeatPassesOnlyWhenFull(views: seq<FilterView>, tss: seq<TimeSerie>, i: nat, j: nat, cap: nat, maxBits: nat)
    requires |views| == SLOTS && 0 < maxBits && i < j < |tss|
    requires tss[i].fingerprint == tss[j].fingerprint
    requires Passes(views, tss, j, cap, maxBits)
    ensures AfterBatch(views, tss[..j], cap, maxBits)[tss[j].fingerprint % SLOTS].size >= cap
  {
    assert tss[..j][i] == tss[i];
    RememberedUnlessFull(views, tss[..j], i, cap, maxBits);
  }

  /** A dropped series changes nothing, and a series of a filter with room passes exactly when the
      filter then first learns it. */
  lemma PassesExactlyWhenLearned(views: seq<FilterView>, tss: seq<TimeSerie>, i: nat, cap: nat, maxBits: nat)
    requires |views| == SLOTS && 0 < maxBits && i < |tss|
    requires AfterBatch(views, tss[..i], cap, maxBits)[tss[i].fingerprint % SLOTS].size < cap
    ensures var before := AfterBatch(views, tss[..i], cap, maxBits);
            var after := AfterBatch(views, tss[..i + 1], cap, maxBits);
            var slot := tss[i].fingerprint % SLOTS;
            && Seen(after, tss[i].fingerprint, maxBits)
            && (Passes(views, tss, i, cap, maxBits) <==> after[slot].size == before[slot].size + 1)
            && (!Passes(views, tss, i, cap, maxBits) ==> after == before)
  {
    assert tss[..i + 1][..i] == tss[..i];
  }

  /** The number of series among the first n that pass. */
  ghost function PassCount(views: seq<FilterView>, tss: seq<TimeSerie>, n: nat, cap: nat, maxBits: nat): (c: nat)
    requires |views| == SLOTS && 0 < maxBits && n <= |tss|
    ensures c <= n
  {
    if n == 0 then 0
    else PassCount(views, tss, n - 1, cap, maxBits) + if Passes(views, tss, n - 1, cap, maxBits) then 1 else 0
  }

  lemma {:induction false} OutputLength(views: seq<FilterView>, tss: seq<TimeSerie>, cap: nat, maxBits: nat)
    requires |views| == SLOTS && 0 < maxBits
    ensures |Passed(views, tss, cap, maxBits)| == PassCount(views, tss, |tss|, cap, maxBits)
  {
    if tss != [] {
      var n := |tss| - 1;
      OutputLength(views, tss[..n], cap, maxBits);
      PassCountOnPrefix(views, tss, n, n, cap, maxBits);
    }
  }

  /** The last series, if it passes, is the last of the output. */
  lemma LastSelected(views: seq<FilterView>, tss: seq<TimeSerie>, cap: nat, maxBits: nat)
    requires |views| == SLOTS && 0 < maxBits && tss != [] && Passes(views, tss, |tss| - 1, cap, maxBits)
    ensures var n := |tss| - 1;
            && PassCount(views, tss, n, cap, maxBits) == |Passed(views, tss, cap, maxBits)| - 1
            && Passed(views, tss, cap, maxBits)[PassCount(views, tss, n, cap, maxBits)] == tss[n]
  {
    var n := |tss| - 1;
    OutputLength(views, tss[..n], cap, maxBits);
    PassCountOnPrefix(views, tss, n, n, cap, maxBits);
  }

  lemma {:induction false} SelectedAt(views: seq<FilterView>, tss: seq<TimeSerie>, i: nat, cap: nat, maxBits: nat)
    requires |views| == SLOTS && 0 < maxBits && i < |tss| && Passes(views, tss, i, cap, maxBits)
    ensures PassCount(views, tss, i, cap, maxBits) < |Passed(views, tss, cap, maxBits)|
    ensures Passed(views, tss, cap, maxBits)[PassCount(views, tss, i, cap, maxBits)] == tss[i]
  {
    var n := |tss| - 1;
    if i < n {
      PassesOnPrefix(views, tss, n, i, cap, maxBits);
      PassCountOnPrefix(views, tss, n, i, cap, maxBits);
      SelectedAt(views, tss[..n], i, cap, maxBits);
    } else {
      LastSelected(views, tss, cap, maxBits);
    }
  }

  /** The output is the order-preserving selection of the passing series: series i, if it passes, is
      at the place given by the number of passing series before it, and nothing else is there. */
  lemma OutputIsSelection(views: seq<FilterView>, tss: seq<TimeSerie>, i: nat, cap: nat, maxBits: nat)
    requires |views| == SLOTS && 0 < maxBits && i < |tss| && Passes(views, tss, i, cap, maxBits)
    ensures |Passed(views, tss, cap, maxBits)| == PassCount(views, tss, |tss|, cap, maxBits)
    ensures PassCount(views, tss, i, cap, maxBits) < |Passed(views, tss, cap, maxBits)|
    ensures Passed(views, tss, cap, maxBits)[PassCount(views, tss, i, cap, maxBits)] == tss[i]
  {
    OutputLength(views, tss, cap, maxBits);
    SelectedAt(views, tss, i, cap, maxBits);
  }

  lemma {:induction false} PassCountOnPrefix(views: seq<FilterView>, tss: seq<TimeSerie>, n: nat, i: nat, cap: nat,
                                             maxBits: nat)
    requires |views| == SLOTS && 0 < maxBits && i <= n <= |tss|
    ensures PassCount(views, tss[..n], i, cap, maxBits) == PassCount(views, tss, i, cap, maxBits)
  {
    if i > 0 {
      PassCountOnPrefix(views, tss, n, i - 1, cap, maxBits);
      PassesOnPrefix(views, tss, n, i - 1, cap, maxBits);
    }
  }

  /* The object */

  class Deduplicator {
    const maxSize: nat
    const interval: nat
    const bucketMaxSize: Uint64
    const bfs: array<BloomFilter>
    ghost var Repr: set<object>

    ghost function MaxBits(): nat { 64 * WordCount(bucketMaxSize) }

    ghost function ViewAt(i: nat): FilterView
      requires i < bfs.Length
      reads bfs, bfs[i]
    {
      FilterView(bfs[i].contents, bfs[i].size)
    }

    ghost predicate SlotOk(i: nat)
      requires i < bfs.Length
      reads bfs, bfs[i], bfs[i].bits
    {
      bfs[i].Valid() && bfs[i].bits.Length == WordCount(bucketMaxSize) && bfs[i].size <= bucketMaxSize
    }

    /** The sizes are right, and the ten filters are ten different objects with arrays of their own. */
    ghost predicate Shape()
      reads this, bfs
    {
      && Sized()
      && {this, bfs} <= Repr
      && (forall i | 0 <= i < SLOTS :: {bfs[i], bfs[i].bits} <= Repr)
      && (forall i, j | 0 <= i < j < SLOTS :: bfs[i] != bfs[j] && bfs[i].bits != bfs[j].bits)
    }

    ghost predicate Valid()
      reads this, Repr, bfs
    {
      Shape() && forall i | 0 <= i < SLOTS :: SlotOk(i)
    }

    ghost function Views(): (r: seq<FilterView>)
      requires Shape()
      reads this, Repr, bfs
      ensures |r| == SLOTS
      ensures forall i | 0 <= i < SLOTS :: r[i] == ViewAt(i)
    {
      seq(SLOTS, i requires 0 <= i < SLOTS && Shape() reads this, Repr, bfs => ViewAt(i))
    }

    /** The program panics on smaller sizes and shorter intervals; a size is a signed 64-bit int. */
    constructor (maxSize: nat, interval: nat)
      requires MIN_MAX_SIZE < maxSize < TWO_TO_THE_64 / 2 && MIN_INTERVAL < interval
      ensures Valid() && fresh(Repr)
      ensures this.maxSize == maxSize && this.interval == interval && bucketMaxSize == maxSize / 10
      ensures forall i | 0 <= i < SLOTS :: Views()[i] == FilterView({}, 0)
    {
      this.maxSize := maxSize;
      this.interval := interval;
      bucketMaxSize := maxSize / SLOTS;
      WordCountSuffices(maxSize / SLOTS);
      var first := new BloomFilter(maxSize / SLOTS);
      var filters := new BloomFilter[SLOTS](_ => first);
      bfs := filters;
      Repr := {this, filters};
      new;
      ReplaceAll();
    }

    ghost predicate Sized() {
      && bfs.Length == SLOTS && bucketMaxSize == maxSize / SLOTS && 0 < MaxBits()
      && BITS_PER_ITEM * bucketMaxSize <= MaxBits()
    }

    /** Stores a fresh filter in one slot. */
    method Install(idx: nat)
      requires Sized() && idx < SLOTS && {this, bfs} <= Repr
      modifies this, bfs
      ensures fresh(bfs[idx]) && fresh(bfs[idx].bits)
      ensures Repr == old(Repr) + {bfs[idx], bfs[idx].bits}
      ensures SlotOk(idx) && ViewAt(idx) == FilterView({}, 0)
      ensures forall i | 0 <= i < SLOTS && i != idx :: bfs[i] == old(bfs[i])
    {
      var bf := new BloomFilter(bucketMaxSize);
      bfs[idx] := bf;
      Repr := Repr + {bf, bf.bits};
    }

    /** The first n slots hold empty filters, all different. */
    ghost predicate Replaced(n: nat)
      requires n <= bfs.Length && {this, bfs} <= Repr
      reads this, Repr, bfs
    {
      && (forall j | 0 <= j < n :: {bfs[j], bfs[j].bits} <= Repr && SlotOk(j) && ViewAt(j) == FilterView({}, 0))
      && (forall j, k | 0 <= j < k < n :: bfs[j] != bfs[k] && bfs[j].bits != bfs[k].bits)
    }

    method InstallNext(i: nat)
      requires Sized() && i < SLOTS && {this, bfs} <= Repr && Replaced(i)
      modifies this, bfs
      ensures {this, bfs} <= Repr && old(Repr) <= Repr && fresh(Repr - old(Repr)) && Replaced(i + 1)
      ensures fresh(bfs[i]) && fresh(bfs[i].bits) && forall j | 0 <= j < i :: bfs[j] == old(bfs[j])
    {
      Install(i);
      forall j | 0 <= j < i ensures SlotOk(j) && ViewAt(j) == FilterView({}, 0) {
        assert old(SlotOk(j) && ViewAt(j) == FilterView({}, 0));
      }
    }

    /** Puts a fresh filter into every slot. */
    method ReplaceAll()
      requires Sized() && {this, bfs} <= Repr
      modifies this, bfs
      ensures Valid() && fresh(Repr - old(Repr))
      ensures forall i | 0 <= i < SLOTS :: Views()[i] == FilterView({}, 0)
    {
      for i := 0 to SLOTS
        invariant {this, bfs} <= Repr && fresh(Repr - old(Repr)) && Replaced(i)
        invariant forall j | 0 <= j < i :: {bfs[j], bfs[j].bits} <= Repr - old(Repr)
      {
        InstallNext(i);
      }
    }

    /** Forgets every fingerprint. */
    method Reset()
      requires Valid()
      modifies this, bfs
      ensures Valid() && fresh(Repr - old(Repr))
      ensures forall i | 0 <= i < SLOTS :: Views()[i] == FilterView({}, 0)
    {
      ReplaceAll();
    }

    /** One step of the rotation: clears one slot and leaves the other nine alone. */
    method Rotate(idx: nat)
      requires Valid() && idx < SLOTS
      modifies this, bfs
      ensures Valid() && fresh(Repr - old(Repr))
      ensures Views() == old(Views())[idx := FilterView({}, 0)]
    {
      Install(idx);
      forall i | 0 <= i < SLOTS ensures SlotOk(i) && (i != idx ==> ViewAt(i) == old(ViewAt(i))) {
        assert old(SlotOk(i));
      }
    }

    /** Records h in one filter with room. */
    method RecordOne(slot: nat, h: Uint64)
      requires Sized() && slot < SLOTS && SlotOk(slot) && bfs[slot].size < bucketMaxSize
      requires !(Positions(h, MaxBits()) <= ViewAt(slot).bits)
      modifies bfs[slot], bfs[slot].bits
      ensures SlotOk(slot)
      ensures ViewAt(slot) == FilterView(old(ViewAt(slot)).bits + Positions(h, MaxBits()), old(ViewAt(slot)).size + 1)
    {
      var isNew := bfs[slot].Add(h);
    }

    /** A filter that was not touched is as it was. */
    twostate lemma Untouched(i: nat)
      requires i < bfs.Length && unchanged(bfs) && unchanged(bfs[i]) && unchanged(bfs[i].bits) && old(SlotOk(i))
      ensures SlotOk(i) && ViewAt(i) == old(ViewAt(i))
    {
    }

    /** Records h in the filter of one slot; the other nine keep what they hold. */
    method RecordIn(slot: nat, h: Uint64)
      requires Valid() && slot < SLOTS && bfs[slot].size < bucketMaxSize
      requires !(Positions(h, MaxBits()) <= ViewAt(slot).bits)
      modifies bfs[slot], bfs[slot].bits
      ensures Valid()
      ensures Views() == old(Views())[slot := FilterView(old(ViewAt(slot)).bits + Positions(h, MaxBits()),
                                                         old(ViewAt(slot)).size + 1)]
    {
      RecordOne(slot, h);
      forall i | 0 <= i < SLOTS && i != slot ensures SlotOk(i) && ViewAt(i) == old(ViewAt(i)) {
        assert bfs[i] != bfs[slot] && bfs[i].bits != bfs[slot].bits;
        Untouched(i);
      }
    }

    method IsNew(slot: nat, h: Uint64) returns (r: bool)
      requires Valid() && slot < SLOTS
      ensures r <==> !(Positions(h, MaxBits()) <= ViewAt(slot).bits)
    {
      assert SlotOk(slot);
      var seen := bfs[slot].Contains(h);
      r := !seen;
    }

    /** Decides one series and records it when it is new and its filter has room. */
    method Admit(h: Uint64) returns (pass: bool)
      requires Valid()
      modifies Repr - {this, bfs}
      ensures Valid()
      ensures pass <==> !Seen(old(Views()), h, MaxBits())
      ensures Views() == AfterOne(old(Views()), h, bucketMaxSize, MaxBits())
    {
      ghost var views := Views();
      var slot := h % SLOTS;
      pass := IsNew(slot, h);
      assert ViewAt(slot) == views[slot];
      if pass && bfs[slot].size < bucketMaxSize {
        RecordIn(slot, h);
      }
    }

    /** Handles series i, appending it behind the first m when it passes. */
    method FilterOne(tss: array<TimeSerie>, i: nat, m: nat) returns (m': nat)
      requires Valid() && m <= i < tss.Length && tss !in Repr
      modifies tss, Repr - {this, bfs}
      ensures Valid() && m <= m' <= i + 1
      ensures var seen := Seen(old(Views()), old(tss[i]).fingerprint, MaxBits());
              tss[..m'] == old(tss[..m]) + if seen then [] else [old(tss[i])]
      ensures tss[i + 1..] == old(tss[i + 1..])
      ensures Views() == AfterOne(old(Views()), old(tss[i]).fingerprint, bucketMaxSize, MaxBits())
    {
      m' := m;
      var ts := tss[i];
      var pass := Admit(ts.fingerprint);
      if pass {
        tss[m] := ts;
        m' := m + 1;
      }
    }

    /** Filters the first n series of tss in place: the passing ones move to the front, in order,
        and the filters remember them. The write index never passes the read index. */
    method Filter(tss: array<TimeSerie>, n: nat) returns (m: nat)
      requires Valid() && n <= tss.Length && tss !in Repr
      modifies tss, Repr - {this, bfs}
      ensures Valid() && m <= n
      ensures tss[..m] == Passed(old(Views()), old(tss[..n]), bucketMaxSize, MaxBits())
      ensures tss[n..] == old(tss[n..])
      ensures Views() == AfterBatch(old(Views()), old(tss[..n]), bucketMaxSize, MaxBits())
    {
      m := 0;
      ghost var views, src, maxBits := Views(), tss[..], MaxBits();
      for i := 0 to n
        invariant m <= i && Valid()
        invariant tss[..m] == Passed(views, src[..i], bucketMaxSize, maxBits)
        invariant tss[i..] == src[i..]
        invariant Views() == AfterBatch(views, src[..i], bucketMaxSize, maxBits)
      {
        BatchStep(views, src, i, bucketMaxSize, maxBits);
        assert tss[i] == tss[i..][0] == src[i];
        assert tss[i + 1..] == tss[i..][1..] == src[i + 1..];
        m := FilterOne(tss, i, m);
      }
    }
  }

  /** One more series extends the batch by one decision. */
  lemma BatchStep(views: seq<FilterView>, src: seq<TimeSerie>, i: nat, cap: nat, maxBits: nat)
    requires |views| == SLOTS && 0 < maxBits && i < |src|
    ensures var before := AfterBatch(views, src[..i], cap, maxBits);
            && AfterBatch(views, src[..i + 1], cap, maxBits) == AfterOne(before, src[i].fingerprint, cap, maxBits)
            && Passed(views, src[..i + 1], cap, maxBits)
               == Passed(views, src[..i], cap, maxBits)
                  + if Seen(before, src[i].fingerprint, maxBits) then [] else [src[i]]
  {
    assert src[..i + 1][..i] == src[..i];
  }

  /** In every state of a deduplicator used by one thread at most a quarter of the bits of each
      filter is set, and the ten filters together count at most maxSize series. */
  lemma FillBounded(d: Deduplicator, slot: nat)
    requires d.Valid() && slot < SLOTS
    ensures 4 * |d.Views()[slot].bits| <= d.MaxBits()
    ensures Sum((v: FilterView) => v.size, d.Views()) <= d.maxSize
  {
    var sizes := (v: FilterView) => v.size;
    assert d.SlotOk(slot);
    forall v | v in d.Views() ensures 0 <= sizes(v) <= d.bucketMaxSize {
      var i :| 0 <= i < SLOTS && d.Views()[i] == v;
      assert d.SlotOk(i);
    }
    SumBounds(sizes, d.Views(), 0, d.bucketMaxSize);
  }

  /* Starting it */

  datatype Startup = Disabled | Refused | Panicked | Started

  /** The settings the program lets through to the constructor. */
  predicate LetThrough(maxSize: int, interval: int) {
    0 < interval && MIN_MAX_SIZE < maxSize && MIN_INTERVAL <= interval
  }

  /** The settings the constructor panics on. */
  predicate Panics(maxSize: int, interval: int) { maxSize <= MIN_MAX_SIZE || interval <= MIN_INTERVAL }

  /** The two guards disagree on exactly one interval. */
  lemma LetThroughAndPanicsIff(maxSize: int, interval: int)
    ensures LetThrough(maxSize, interval) && Panics(maxSize, interval)
            <==> 9999 < maxSize && interval == 30_000_000_000
  {
  }

  /** Both guards in the order of the program. */
  method Start(maxSize: int, interval: int) returns (outcome: Startup, dedup: Deduplicator?)
    requires maxSize < TWO_TO_THE_64 / 2
    ensures outcome.Disabled? <==> interval <= 0
    ensures outcome.Refused? <==> 0 < interval && (maxSize <= 9999 || interval < 30_000_000_000)
    ensures outcome.Panicked? <==> 9999 < maxSize && interval == 30_000_000_000
    ensures outcome.Started? <==> 9999 < maxSize && 30_000_000_000 < interval
    ensures outcome.Started? <==> dedup != null
    ensures dedup != null ==>
              fresh(dedup) && dedup.Valid() && dedup.maxSize == maxSize && dedup.interval == interval
  {
    dedup := null;
    if interval <= 0 {
      return Disabled, dedup;
    }
    if maxSize <= MIN_MAX_SIZE {
      return Refused, dedup;
    }
    if interval < MIN_INTERVAL {
      return Refused, dedup;
    }
    if maxSize <= MIN_MAX_SIZE || interval <= MIN_INTERVAL {
      return Panicked, dedup;
    }
    dedup := new Deduplicator(maxSize, interval);
    outcome := Started;
  }
}
