/** Decoding a remote-write request into recycled series slots and a shared, growing label arena. */
module Unmarshal {
  import opened Base
  import opened Series

  /* A request as a stream of fields. A bad field is one that cannot be read or has the wrong type. */

  datatype LabelField = Name(name: string) | Value(value: string) | OtherInLabel | BadInLabel

  datatype SeriesField = LabelMessage(raw: string, fields: seq<LabelField>) | OtherInSeries | BadInSeries

  datatype RequestField = SeriesMessage(fields: seq<SeriesField>) | OtherInRequest | BadInRequest

  /** How values and labels are hashed, and whether labels are fingerprinted at all. */
  datatype Hashing = Hashing(hash: string -> Uint64, labels: bool)

  /* The pure decoder */

  function DecodeLabel(fields: seq<LabelField>): Option<(string, string)> {
    if fields == [] then Some(("", ""))
    else
      match DecodeLabel(fields[..|fields| - 1]) {
        case None => None
        case Some(l) =>
          match fields[|fields| - 1]
          case Name(name) => Some((name, l.1))
          case Value(value) => Some((l.0, value))
          case OtherInLabel => Some(l)
          case BadInLabel => None
      }
  }

  function LabelOf(l: (string, string), h: Hashing): Label {
    Label(l.0, l.1, if h.labels then h.hash(l.1) else 0)
  }

  /** The labels of a series and the bytes its fingerprint is taken from. */
  function DecodeLabels(fields: seq<SeriesField>, h: Hashing): Option<(seq<Label>, string)> {
    if fields == [] then Some(([], ""))
    else
      match DecodeLabels(fields[..|fields| - 1], h) {
        case None => None
        case Some(d) =>
          match fields[|fields| - 1]
          case LabelMessage(raw, msg) =>
            (match DecodeLabel(msg)
             case None => None
             case Some(l) => Some((d.0 + [LabelOf(l, h)], d.1 + raw)))
          case OtherInSeries => Some(d)
          case BadInSeries => None
      }
  }

  function DecodeSeries(fields: seq<SeriesField>, h: Hashing): Option<TimeSerie> {
    match DecodeLabels(fields, h)
    case None => None
    case Some(d) => Some(TimeSerie(d.0, h.hash(d.1)))
  }

  function Decode(fields: seq<RequestField>, h: Hashing): Option<seq<TimeSerie>> {
    if fields == [] then Some([])
    else
      match Decode(fields[..|fields| - 1], h) {
        case None => None
        case Some(tss) =>
          match fields[|fields| - 1]
          case SeriesMessage(series) =>
            (match DecodeSeries(series, h)
             case None => None
             case Some(ts) => Some(tss + [ts]))
          case OtherInRequest => Some(tss)
          case BadInRequest => None
      }
  }

  /** Once a prefix is bad the whole is bad. */
  lemma {:induction false} BadLabelStays(fields: seq<LabelField>, n: nat)
    requires n <= |fields| && DecodeLabel(fields[..n]) == None
    ensures DecodeLabel(fields) == None
  {
    if n < |fields| {
      assert fields[..|fields| - 1][..n] == fields[..n];
      BadLabelStays(fields[..|fields| - 1], n);
    } else {
      assert fields[..n] == fields;
    }
  }

  lemma {:induction false} BadLabelsStay(fields: seq<SeriesField>, h: Hashing, n: nat)
    requires n <= |fields| && DecodeLabels(fields[..n], h) == None
    ensures DecodeLabels(fields, h) == None
  {
    if n < |fields| {
      assert fields[..|fields| - 1][..n] == fields[..n];
      BadLabelsStay(fields[..|fields| - 1], h, n);
    } else {
      assert fields[..n] == fields;
    }
  }

  lemma {:induction false} BadSeriesStays(fields: seq<RequestField>, h: Hashing, n: nat)
    requires n <= |fields| && Decode(fields[..n], h) == None
    ensures Decode(fields, h) == None
  {
    if n < |fields| {
      assert fields[..|fields| - 1][..n] == fields[..n];
      BadSeriesStays(fields[..|fields| - 1], h, n);
    } else {
      assert fields[..n] == fields;
    }
  }

  /* What a request means, field by field */

  /** x is the last element with the property. */
  ghost predicate IsLast<T>(s: seq<T>, p: T -> bool, x: T) {
    exists i | 0 <= i < |s| :: s[i] == x && forall j | i < j < |s| :: !p(s[j])
  }

  ghost predicate NoneOf<T>(s: seq<T>, p: T -> bool) {
    forall i | 0 <= i < |s| :: !p(s[i])
  }

  ghost function IsName(): LabelField -> bool { (f: LabelField) => f.Name? }

  ghost function IsValue(): LabelField -> bool { (f: LabelField) => f.Value? }

  /** The name is that of the last field with one, or empty. */
  ghost predicate LastName(fields: seq<LabelField>, name: string) {
    (name == "" && NoneOf(fields, IsName())) || IsLast(fields, IsName(), Name(name))
  }

  ghost predicate LastValue(fields: seq<LabelField>, value: string) {
    (value == "" && NoneOf(fields, IsValue())) || IsLast(fields, IsValue(), Value(value))
  }

  ghost predicate LabelMeans(fields: seq<LabelField>, h: Hashing, l: Label) {
    && LastName(fields, l.name) && LastValue(fields, l.value)
    && l.fingerprint == if h.labels then h.hash(l.value) else 0
  }

  /** The places of s with the property, in order, and for each of them the item it means. */
  ghost predicate Corresponds<T(!new), U>(at: seq<nat>, s: seq<T>, p: T -> bool, items: seq<U>, means: (T, U) -> bool) {
    && (forall k | 0 <= k < |at| :: at[k] < |s| && p(s[at[k]]))
    && (forall j, k | 0 <= j < k < |at| :: at[j] < at[k])
    && (forall i | 0 <= i < |s| && p(s[i]) :: i in at)
    && |items| == |at| && forall k | 0 <= k < |at| :: means(s[at[k]], items[k])
  }

  ghost function Concat(parts: seq<string>): string {
    if parts == [] then "" else parts[0] + Concat(parts[1..])
  }

  ghost function IsLabel(): SeriesField -> bool { (f: SeriesField) => f.LabelMessage? }

  ghost function IsSeries(): RequestField -> bool { (f: RequestField) => f.SeriesMessage? }

  ghost function MeansLabel(h: Hashing): (SeriesField, Label) -> bool {
    (f: SeriesField, l: Label) => f.LabelMessage? && LabelMeans(f.fields, h, l)
  }

  ghost function HasRaw(): (SeriesField, string) -> bool {
    (f: SeriesField, raw: string) => f.LabelMessage? && f.raw == raw
  }

  ghost function MeansSeries(h: Hashing): (RequestField, TimeSerie) -> bool {
    (f: RequestField, ts: TimeSerie) => f.SeriesMessage? && SeriesMeans(f.fields, h, ts)
  }

  /** The labels and the raw bytes are those of the label messages, in order. */
  ghost predicate LabelsMean(fields: seq<SeriesField>, h: Hashing, labels: seq<Label>, at: seq<nat>,
                             raws: seq<string>)
  {
    Corresponds(at, fields, IsLabel(), labels, MeansLabel(h)) && Corresponds(at, fields, IsLabel(), raws, HasRaw())
  }

  /** The fingerprint is the hash of all label messages one after the other. */
  ghost predicate SeriesMeans(fields: seq<SeriesField>, h: Hashing, ts: TimeSerie) {
    exists at, raws :: LabelsMean(fields, h, ts.labels, at, raws) && ts.fingerprint == h.hash(Concat(raws))
  }

  /** The series are those of the series messages, in order. */
  ghost predicate RequestMeans(fields: seq<RequestField>, h: Hashing, tss: seq<TimeSerie>) {
    exists at :: Corresponds(at, fields, IsSeries(), tss, MeansSeries(h))
  }

  /** No field is bad, and none inside it. */
  ghost predicate GoodSeries(fields: seq<SeriesField>) {
    forall f | f in fields :: f != BadInSeries && (f.LabelMessage? ==> BadInLabel !in f.fields)
  }

  ghost predicate GoodRequest(fields: seq<RequestField>) {
    forall f | f in fields :: f != BadInRequest && (f.SeriesMessage? ==> GoodSeries(f.fields))
  }

  lemma AllButLast<T>(s: seq<T>, x: T)
    requires s != []
    ensures x in s <==> x in s[..|s| - 1] || x == s[|s| - 1]
  {
    assert s == s[..|s| - 1] + [s[|s| - 1]];
  }

  lemma NoneYet<T(!new), U>(p: T -> bool, means: (T, U) -> bool)
    ensures Corresponds([], [], p, [], means)
  {
  }

  lemma OneMore<T(!new), U>(at: seq<nat>, s: seq<T>, p: T -> bool, items: seq<U>, means: (T, U) -> bool, x: U)
    requires s != [] && Corresponds(at, s[..|s| - 1], p, items, means) && p(s[|s| - 1]) && means(s[|s| - 1], x)
    ensures Corresponds(at + [|s| - 1], s, p, items + [x], means)
  {
    var n := |s| - 1;
    forall i | 0 <= i < |s| && p(s[i]) ensures i in at + [n] {
      if i < n {
        assert s[..n][i] == s[i];
      }
    }
  }

  lemma NoMore<T(!new), U>(at: seq<nat>, s: seq<T>, p: T -> bool, items: seq<U>, means: (T, U) -> bool)
    requires s != [] && Corresponds(at, s[..|s| - 1], p, items, means) && !p(s[|s| - 1])
    ensures Corresponds(at, s, p, items, means)
  {
    var n := |s| - 1;
    forall i | 0 <= i < |s| && p(s[i]) ensures i in at {
      assert s[..n][i] == s[i];
    }
  }

  lemma {:induction false} ConcatSnoc(parts: seq<string>, part: string)
    ensures Concat(parts + [part]) == Concat(parts) + part
  {
    var more := parts + [part];
    if parts == [] {
      assert more[1..] == [];
    } else {
      assert more[1..] == parts[1..] + [part];
      ConcatSnoc(parts[1..], part);
    }
  }

  /** One more element without the property leaves the last one with it. */
  lemma LastStays<T>(s: seq<T>, p: T -> bool, x: T)
    requires s != [] && !p(s[|s| - 1])
    ensures IsLast(s[..|s| - 1], p, x) ==> IsLast(s, p, x)
    ensures NoneOf(s[..|s| - 1], p) ==> NoneOf(s, p)
  {
    var n := |s| - 1;
    if i :| 0 <= i < n && s[..n][i] == x && forall j | i < j < n :: !p(s[..n][j]) {
      assert forall j | i < j < n :: s[j] == s[..n][j];
      assert s[i] == x;
    }
    assert forall j | 0 <= j < n :: s[j] == s[..n][j];
  }

  /** And one with it is the last. */
  lemma LastIsLast<T>(s: seq<T>, p: T -> bool)
    requires s != []
    ensures IsLast(s, p, s[|s| - 1])
  {
  }

  lemma {:induction false} LabelDecodes(fields: seq<LabelField>)
    ensures DecodeLabel(fields).Some? <==> BadInLabel !in fields
    ensures DecodeLabel(fields).Some? ==>
              LastName(fields, DecodeLabel(fields).value.0) && LastValue(fields, DecodeLabel(fields).value.1)
  {
    if fields != [] {
      var n := |fields| - 1;
      LabelDecodes(fields[..n]);
      AllButLast(fields, BadInLabel);
      if DecodeLabel(fields).Some? {
        var l := DecodeLabel(fields[..n]).value;
        NameStays(fields, l.0);
        ValueStays(fields, l.1);
      }
    }
  }

  lemma NameStays(fields: seq<LabelField>, name: string)
    requires fields != [] && LastName(fields[..|fields| - 1], name)
    ensures var last := fields[|fields| - 1]; LastName(fields, if last.Name? then last.name else name)
  {
    if fields[|fields| - 1].Name? {
      LastIsLast(fields, IsName());
    } else {
      LastStays(fields, IsName(), Name(name));
    }
  }

  lemma ValueStays(fields: seq<LabelField>, value: string)
    requires fields != [] && LastValue(fields[..|fields| - 1], value)
    ensures var last := fields[|fields| - 1]; LastValue(fields, if last.Value? then last.value else value)
  {
    if fields[|fields| - 1].Value? {
      LastIsLast(fields, IsValue());
    } else {
      LastStays(fields, IsValue(), Value(value));
    }
  }

  lemma {:induction false} LabelsDecode(fields: seq<SeriesField>, h: Hashing)
    ensures DecodeLabels(fields, h).Some? <==> GoodSeries(fields)
  {
    if fields != [] {
      var n := |fields| - 1;
      LabelsDecode(fields[..n], h);
      forall f ensures f in fields <==> f in fields[..n] || f == fields[n] {
        AllButLast(fields, f);
      }
      if fields[n].LabelMessage? {
        LabelDecodes(fields[n].fields);
      }
    }
  }

  lemma {:induction false} LabelsMeanDecoded(fields: seq<SeriesField>, h: Hashing)
    returns (at: seq<nat>, raws: seq<string>)
    requires DecodeLabels(fields, h).Some?
    ensures LabelsMean(fields, h, DecodeLabels(fields, h).value.0, at, raws)
    ensures DecodeLabels(fields, h).value.1 == Concat(raws)
  {
    if fields == [] {
      at, raws := [], [];
      NoneYet(IsLabel(), MeansLabel(h));
      NoneYet(IsLabel(), HasRaw());
    } else {
      var n := |fields| - 1;
      at, raws := LabelsMeanDecoded(fields[..n], h);
      var labels := DecodeLabels(fields[..n], h).value.0;
      if fields[n].LabelMessage? {
        LabelDecodes(fields[n].fields);
        OneMore(at, fields, IsLabel(), labels, MeansLabel(h), LabelOf(DecodeLabel(fields[n].fields).value, h));
        OneMore(at, fields, IsLabel(), raws, HasRaw(), fields[n].raw);
        ConcatSnoc(raws, fields[n].raw);
        at, raws := at + [n], raws + [fields[n].raw];
      } else {
        NoMore(at, fields, IsLabel(), labels, MeansLabel(h));
        NoMore(at, fields, IsLabel(), raws, HasRaw());
      }
    }
  }

  lemma SeriesDecodes(fields: seq<SeriesField>, h: Hashing)
    ensures DecodeSeries(fields, h).Some? <==> GoodSeries(fields)
    ensures DecodeSeries(fields, h).Some? ==> SeriesMeans(fields, h, DecodeSeries(fields, h).value)
  {
    LabelsDecode(fields, h);
    if DecodeLabels(fields, h).Some? {
      var at, raws := LabelsMeanDecoded(fields, h);
    }
  }

  lemma {:induction false} RequestDecodesIff(fields: seq<RequestField>, h: Hashing)
    ensures Decode(fields, h).Some? <==> GoodRequest(fields)
  {
    if fields != [] {
      var n := |fields| - 1;
      RequestDecodesIff(fields[..n], h);
      forall f ensures f in fields <==> f in fields[..n] || f == fields[n] {
        AllButLast(fields, f);
      }
      if fields[n].SeriesMessage? {
        SeriesDecodes(fields[n].fields, h);
      }
    }
  }

  lemma {:induction false} RequestMeansDecoded(fields: seq<RequestField>, h: Hashing) returns (at: seq<nat>)
    requires Decode(fields, h).Some?
    ensures Corresponds(at, fields, IsSeries(), Decode(fields, h).value, MeansSeries(h))
  {
    if fields == [] {
      at := [];
      NoneYet(IsSeries(), MeansSeries(h));
    } else {
      var n := |fields| - 1;
      at := RequestMeansDecoded(fields[..n], h);
      var before := Decode(fields[..n], h).value;
      if fields[n].SeriesMessage? {
        SeriesDecodes(fields[n].fields, h);
        OneMore(at, fields, IsSeries(), before, MeansSeries(h), DecodeSeries(fields[n].fields, h).value);
        at := at + [n];
      } else {
        NoMore(at, fields, IsSeries(), before, MeansSeries(h));
      }
    }
  }

  /** A request decodes exactly if nothing in it is bad, and then to what its fields mean. */
  lemma RequestDecodes(fields: seq<RequestField>, h: Hashing)
    ensures Decode(fields, h).Some? <==> GoodRequest(fields)
    ensures Decode(fields, h).Some? ==> RequestMeans(fields, h, Decode(fields, h).value)
  {
    RequestDecodesIff(fields, h);
    if Decode(fields, h).Some? {
      var at := RequestMeansDecoded(fields, h);
    }
  }

  /* Slices of the arena */

  const BLANK := Label("", "", 0)

  /** A series slot: a slice of whatever array the arena was at the time, and the fingerprint. */
  datatype Slot = Slot(arr: array?<Label>, lo: nat, hi: nat, fingerprint: Uint64)

  const ZERO_SLOT := Slot(null, 0, 0, 0)

  ghost predicate Shows(s: Slot, ts: TimeSerie)
    reads s.arr
  {
    && s.arr != null && s.lo <= s.hi <= s.arr.Length
    && s.arr[s.lo..s.hi] == ts.labels && s.fingerprint == ts.fingerprint
  }

  /** Appends to the first len elements, in place while there is room, else in a larger copy. */
  method AppendLabel(arr: array<Label>, len: nat, l: Label) returns (r: array<Label>)
    requires len <= arr.Length
    modifies arr
    ensures len < r.Length && r[..len + 1] == old(arr[..len]) + [l]
    ensures arr[..len] == old(arr[..len])
    ensures if len < arr.Length then r == arr else fresh(r)
  {
    r := arr;
    if len == arr.Length {
      r := new Label[2 * len + 1](i => BLANK);
      var i := 0;
      while i < len
        invariant 0 <= i <= len && r[..i] == arr[..i]
        invariant arr[..] == old(arr[..])
      {
        r[i] := arr[i];
        i := i + 1;
      }
    }
    r[len] := l;
  }

  /** The same, seen from the slice that starts at lo; what lies before it stays in the old array. */
  method AppendToSlice(arr: array<Label>, lo: nat, len: nat, l: Label) returns (r: array<Label>)
    requires lo <= len <= arr.Length
    modifies arr
    ensures len < r.Length && r[lo..len + 1] == old(arr[lo..len]) + [l] && (r == arr || fresh(r))
    ensures arr[..lo] == old(arr[..lo])
  {
    ghost var all, slice := arr[..len], arr[lo..len];
    r := AppendLabel(arr, len, l);
    assert r[lo..len + 1] == r[..len + 1][lo..] == (all + [l])[lo..] == slice + [l];
    assert arr[..lo] == arr[..len][..lo] == all[..lo];
  }

  method ParseLabel(fields: seq<LabelField>) returns (r: Option<(string, string)>)
    ensures r == DecodeLabel(fields)
  {
    var name, value := "", "";
    var i := 0;
    while i < |fields|
      invariant 0 <= i <= |fields| && DecodeLabel(fields[..i]) == Some((name, value))
    {
      assert fields[..i + 1][..i] == fields[..i];
      match fields[i] {
        case Name(n) => name := n;
        case Value(v) => value := v;
        case OtherInLabel =>
        case BadInLabel =>
          BadLabelStays(fields, i + 1);
          return None;
      }
      i := i + 1;
    }
    assert fields[..i] == fields;
    return Some((name, value));
  }

  /** Appends the labels of one series to the arena. What was in the arena stays as it was, in the
      old array as well if the arena moves to a larger one. */
  method UnmarshalSeries(fields: seq<SeriesField>, pool: array<Label>, poolLen: nat, h: Hashing)
    returns (arr: array<Label>, len: nat, fingerprint: Uint64, ok: bool)
    requires poolLen <= pool.Length
    modifies pool
    ensures poolLen <= len <= arr.Length && (arr == pool || fresh(arr))
    ensures pool[..poolLen] == old(pool[..poolLen])
    ensures ok <==> DecodeSeries(fields, h).Some?
    ensures ok ==> DecodeSeries(fields, h) == Some(TimeSerie(arr[poolLen..len], fingerprint))
  {
    arr, len, fingerprint := pool, poolLen, 0;
    var digest := "";
    ghost var before := pool[..poolLen];
    assert arr[poolLen..len] == [];
    var i := 0;
    while i < |fields|
      invariant 0 <= i <= |fields|
      invariant poolLen <= len <= arr.Length && (arr == pool || fresh(arr))
      invariant pool[..poolLen] == before
      invariant DecodeLabels(fields[..i], h) == Some((arr[poolLen..len], digest))
    {
      assert fields[..i + 1][..i] == fields[..i];
      match fields[i] {
        case LabelMessage(raw, msg) =>
          var l := ParseLabel(msg);
          if l.None? {
            BadLabelsStay(fields, h, i + 1);
            ok := false;
            return;
          }
          digest := digest + raw;
          arr := AppendToSlice(arr, poolLen, len, LabelOf(l.value, h));
          len := len + 1;
        case OtherInSeries =>
        case BadInSeries =>
          BadLabelsStay(fields, h, i + 1);
          ok := false;
          return;
      }
      i := i + 1;
    }
    assert fields[..i] == fields;
    fingerprint := h.hash(digest);
    ok := true;
  }

  /** The slice lies in memory the arena will not write again: in the part of it that is in use,
      or in an array it has left behind. */
  ghost predicate Settled(s: Slot, arena: array<Label>, len: nat) {
    s.arr == arena ==> s.hi <= len
  }

  /** The first slots show the decoded series, and nothing appended later will change them. */
  ghost predicate ShowAll(slots: seq<Slot>, tss: seq<TimeSerie>, arena: array<Label>, len: nat)
    reads set s | s in slots :: s.arr
  {
    && |slots| == |tss|
    && forall i | 0 <= i < |slots| :: Shows(slots[i], tss[i]) && Settled(slots[i], arena, len)
  }

  /** Room for one more slot: a recycled one, whatever it holds, or a larger copy. */
  method NextSlot(slots: array<Slot>, len: nat) returns (r: array<Slot>)
    requires len <= slots.Length
    ensures len < r.Length && r[..len] == slots[..len] && (r == slots || fresh(r))
  {
    if len < slots.Length {
      return slots;
    }
    r := new Slot[2 * len + 1](i => ZERO_SLOT);
    var i := 0;
    while i < len
      invariant 0 <= i <= len && r[..i] == slots[..i]
    {
      r[i] := slots[i];
      i := i + 1;
    }
  }

  lemma Subslice<T>(s: seq<T>, len: nat, lo: nat, hi: nat)
    requires lo <= hi <= len <= |s|
    ensures s[lo..hi] == s[..len][lo..hi]
  {
  }

  /** Reads one series into the next slot. */
  method ReadSeries(fields: seq<SeriesField>, tss: array<Slot>, n: nat, arena: array<Label>, len: nat, h: Hashing,
                    ghost decoded: seq<TimeSerie>)
    returns (slots: array<Slot>, arr: array<Label>, more: nat, ok: bool)
    requires n <= tss.Length && len <= arena.Length && ShowAll(tss[..n], decoded, arena, len)
    modifies tss, arena
    ensures (slots == tss || fresh(slots)) && (arr == arena || fresh(arr)) && more <= arr.Length
    ensures ok <==> DecodeSeries(fields, h).Some?
    ensures ok ==> n < slots.Length && ShowAll(slots[..n + 1], decoded + [DecodeSeries(fields, h).value], arr, more)
  {
    slots := NextSlot(tss, n);
    ghost var before := slots[..n];
    var fingerprint;
    arr, more, fingerprint, ok := UnmarshalSeries(fields, arena, len, h);
    if ok {
      slots[n] := Slot(arr, len, more, fingerprint);
      assert slots[..n] == before;
      forall i | 0 <= i < n ensures Shows(slots[i], decoded[i]) && Settled(slots[i], arr, more) {
        var s := old(tss[i]);
        assert slots[i] == s == old(tss[..n])[i];
        assert old(Shows(s, decoded[i])) && Settled(s, arena, len);
        if s.arr == arena {
          Subslice(arena[..], len, s.lo, s.hi);
          Subslice(old(arena[..]), len, s.lo, s.hi);
        } else {
          assert s.arr[s.lo..s.hi] == old(s.arr[s.lo..s.hi]);
        }
      }
    }
  }

  /** Reads one field of a request: a series into the next slot, or nothing. */
  method ReadMessage(fields: seq<RequestField>, i: nat, tss: array<Slot>, n: nat, arena: array<Label>, len: nat,
                     h: Hashing)
    returns (slots: array<Slot>, m: nat, arr: array<Label>, more: nat, ok: bool)
    requires i < |fields| && n <= tss.Length && len <= arena.Length
    requires Decode(fields[..i], h).Some? && ShowAll(tss[..n], Decode(fields[..i], h).value, arena, len)
    modifies tss, arena
    ensures (slots == tss || fresh(slots)) && (arr == arena || fresh(arr)) && m <= slots.Length && more <= arr.Length
    ensures ok ==> Decode(fields[..i + 1], h).Some? && ShowAll(slots[..m], Decode(fields[..i + 1], h).value, arr, more)
    ensures !ok ==> Decode(fields, h).None?
  {
    slots, m, arr, more, ok := tss, n, arena, len, true;
    ghost var decoded := Decode(fields[..i], h).value;
    assert fields[..i + 1][..i] == fields[..i];
    match fields[i] {
      case SeriesMessage(series) =>
        slots, arr, more, ok := ReadSeries(series, tss, n, arena, len, h, decoded);
        if ok {
          m := n + 1;
        }
      case OtherInRequest =>
      case BadInRequest =>
        ok := false;
    }
    if !ok {
      m, more := 0, 0;
      BadSeriesStays(fields, h, i + 1);
    }
  }

  class Unmarshaler {
    /** The arena: its first labelsLen elements are in use. */
    var labels: array<Label>
    var labelsLen: nat
    /** The series slots: the first tssLen are the request. */
    var slots: array<Slot>
    var tssLen: nat

    /** All a recycled unmarshaler promises: its lengths are within its arrays, which may hold
        anything left over from earlier requests, read or failed. */
    ghost predicate Valid()
      reads this
    {
      labelsLen <= labels.Length && tssLen <= slots.Length
    }

    constructor ()
      ensures Valid() && fresh(labels) && fresh(slots) && labelsLen == tssLen == 0
    {
      labels, labelsLen := new Label[4096](i => BLANK), 0;
      slots, tssLen := new Slot[0](i => ZERO_SLOT), 0;
    }

    /** Clears what is in use, and only that. */
    method Reset()
      requires Valid()
      modifies this, labels, slots
      ensures Valid() && labelsLen == tssLen == 0 && labels == old(labels) && slots == old(slots)
    {
      var i := 0;
      while i < tssLen
        invariant 0 <= i <= tssLen <= slots.Length && slots == old(slots) && labels == old(labels)
        invariant labelsLen <= labels.Length
      {
        slots[i] := ZERO_SLOT;
        i := i + 1;
      }
      i := 0;
      while i < labelsLen
        invariant 0 <= i <= labelsLen <= labels.Length && slots == old(slots) && labels == old(labels)
      {
        labels[i] := BLANK;
        i := i + 1;
      }
      labelsLen, tssLen := 0, 0;
    }

    /** Reads the fields one after the other, up to the first bad one. */
    method ReadAll(fields: seq<RequestField>, h: Hashing) returns (ok: bool)
      requires Valid()
      modifies this, labels, slots
      ensures Valid() && (ok <==> Decode(fields, h).Some?)
      ensures ok ==> ShowAll(slots[..tssLen], Decode(fields, h).value, labels, labelsLen)
      ensures !ok ==> tssLen == labelsLen == 0
    {
      Reset();
      var tss, arr := slots, labels;
      var n: nat, len: nat := 0, 0;
      var i := 0;
      while i < |fields|
        invariant 0 <= i <= |fields| && n <= tss.Length && len <= arr.Length
        invariant Valid() && labelsLen == tssLen == 0 && labels == old(labels) && slots == old(slots)
        invariant (arr == labels || fresh(arr)) && (tss == slots || fresh(tss))
        invariant Decode(fields[..i], h).Some? && ShowAll(tss[..n], Decode(fields[..i], h).value, arr, len)
      {
        var good;
        tss, n, arr, len, good := ReadMessage(fields, i, tss, n, arr, len, h);
        if !good {
          return false;
        }
        i := i + 1;
      }
      assert fields[..i] == fields;
      slots, tssLen, labels, labelsLen := tss, n, arr, len;
      ok := true;
    }

    /** A recycled unmarshaler reads a request exactly if no field of it is bad, and then its slots show
        what the fields mean. A failed read leaves no series, and the arrays for the next one. */
    method UnmarshalProtobuf(fields: seq<RequestField>, h: Hashing) returns (ok: bool)
      requires Valid()
      modifies this, labels, slots
      ensures Valid() && (ok <==> GoodRequest(fields))
      ensures ok ==> exists tss :: RequestMeans(fields, h, tss) && ShowAll(slots[..tssLen], tss, labels, labelsLen)
      ensures !ok ==> tssLen == labelsLen == 0
    {
      RequestDecodes(fields, h);
      ok := ReadAll(fields, h);
    }
  }
}
