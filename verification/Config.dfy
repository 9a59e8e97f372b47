/** Normalising and validating the stream configuration. */
module Config {
  import opened Base
  import opened Strings
  import opened EstimatorId
  import Loading
  import RotationLoops

  const SECOND: int := 1_000_000_000

  datatype StreamConfig = StreamConfig(
    filter: string,
    groupBy: seq<string>,
    groupLimit: int,
    labels: map<string, string>,
    interval: int,
    calculateChurn: bool,
    buckets: int,
    hllPrecision: int,
    hllSparse: Option<bool>,
    minCardinality: int)

  datatype Problem =
    | InvalidPrecision(stream: nat)
    | LabelKeywordTwice(stream: nat)
    | ReservedLabel(stream: nat)
    | SameIdentity(first: nat, second: nat)

  function DefaultBuckets(cpus: nat): int {
    var buckets := if 64 < 2 * cpus then 64 else 2 * cpus;
    if 4 < buckets then buckets else 4
  }

  function WithDefaults(s: StreamConfig, cpus: nat): StreamConfig {
    s.(interval := if s.interval == 0 then 300 * SECOND else s.interval,
       groupLimit := if s.groupLimit <= 0 then 10000 else s.groupLimit,
       buckets := if s.buckets <= 0 then DefaultBuckets(cpus) else s.buckets,
       hllPrecision := if s.hllPrecision == 0 then 14 else s.hllPrecision,
       hllSparse := if s.hllSparse.None? then Some(true) else s.hllSparse)
  }

  predicate PrecisionOk(s: StreamConfig) { s.hllPrecision == 0 || 4 <= s.hllPrecision <= 18 }

  predicate Reserved(name: string) {
    name in {"interval", "filter", "group_by_keys", "group_by_values"} || "by_" <= name
  }

  /* Group-by lists */

  function Without<T(==)>(names: seq<T>, name: T): seq<T> {
    if names == [] then []
    else Without(names[..|names| - 1], name) + if names[|names| - 1] == name then [] else [names[|names| - 1]]
  }

  /** The names in sorted order, the label keyword last. */
  function CanonicalGroupBy(groupBy: seq<string>): seq<string> {
    Without(Sort(groupBy), LABEL_KEYWORD) + if LABEL_KEYWORD in groupBy then [LABEL_KEYWORD] else []
  }

  lemma CountSnoc<T>(s: seq<T>, last: T, x: T)
    ensures multiset(s + [last])[x] == multiset(s)[x] + if x == last then 1 else 0
  {
  }

  lemma {:induction false} WithoutCounts<T>(names: seq<T>, name: T, x: T)
    ensures multiset(Without(names, name))[x] == if x == name then 0 else multiset(names)[x]
  {
    if names != [] {
      var n := |names| - 1;
      WithoutCounts(names[..n], name, x);
      assert names == names[..n] + [names[n]];
      CountSnoc(names[..n], names[n], x);
      CountSnoc(Without(names[..n], name), names[n], x);
    }
  }

  lemma WithoutElements<T(!new)>(names: seq<T>, name: T)
    ensures name !in Without(names, name)
    ensures multiset(Without(names, name))[name := multiset(names)[name]] == multiset(names)
  {
    forall x ensures multiset(Without(names, name))[x] == if x == name then 0 else multiset(names)[x] {
      WithoutCounts(names, name, x);
    }
    assert multiset(Without(names, name))[name] == 0;
  }

  /** A canonical list keeps the names it was made from, and has the keyword at most at its end. */
  lemma CanonicalKeeps(groupBy: seq<string>)
    requires multiset(groupBy)[LABEL_KEYWORD] <= 1
    ensures multiset(CanonicalGroupBy(groupBy)) == multiset(groupBy)
    ensures forall i | 0 <= i < |CanonicalGroupBy(groupBy)| - 1 :: CanonicalGroupBy(groupBy)[i] != LABEL_KEYWORD
  {
    SortSorts(groupBy);
    var sorted := Sort(groupBy);
    WithoutElements(sorted, LABEL_KEYWORD);
    assert LABEL_KEYWORD in groupBy <==> LABEL_KEYWORD in multiset(groupBy);
    var rest := Without(sorted, LABEL_KEYWORD);
    assert multiset(rest)[LABEL_KEYWORD] == 0;
    forall i | 0 <= i < |rest| ensures rest[i] != LABEL_KEYWORD {
      assert rest[i] in rest;
    }
  }

  /** Reordering group-by changes nothing. */
  lemma CanonicalIgnoresOrder(a: seq<string>, b: seq<string>)
    requires multiset(a) == multiset(b)
    ensures CanonicalGroupBy(a) == CanonicalGroupBy(b)
  {
    SortIsCanonical(a, b);
    assert LABEL_KEYWORD in a <==> LABEL_KEYWORD in multiset(a);
    assert LABEL_KEYWORD in b <==> LABEL_KEYWORD in multiset(b);
  }

  /* Streams */

  predicate StreamOk(s: StreamConfig) { PrecisionOk(s) && multiset(s.groupBy)[LABEL_KEYWORD] <= 1 }

  function Normalized(s: StreamConfig, cpus: nat): StreamConfig {
    WithDefaults(s.(groupBy := CanonicalGroupBy(s.groupBy)), cpus)
  }

  /** Normalising twice is normalising once, and what was valid stays valid. */
  lemma {:induction false} NormalizedIsIdempotent(s: StreamConfig, cpus: nat)
    requires StreamOk(s)
    ensures StreamOk(Normalized(s, cpus)) && Normalized(Normalized(s, cpus), cpus) == Normalized(s, cpus)
  {
    CanonicalKeeps(s.groupBy);
    CanonicalIgnoresOrder(s.groupBy, CanonicalGroupBy(s.groupBy));
  }

  /** What the rest of the program gets: room for groups, buckets, a valid precision, and the label
      keyword only at the end of group-by. The rotation loop also needs a positive period, which the
      stream has exactly if each of its buckets gets two nanoseconds of the interval. */
  lemma NormalizedIsUsable(s: StreamConfig, cpus: nat)
    requires StreamOk(s)
    ensures var t := Normalized(s, cpus);
            && t.interval != 0 && t.groupLimit > 0 && t.buckets > 0 && 4 <= t.hllPrecision <= 18 && t.hllSparse.Some?
            && (s.buckets <= 0 ==> 4 <= t.buckets <= 64)
            && (forall i | 0 <= i < |t.groupBy| - 1 :: t.groupBy[i] != LABEL_KEYWORD)
            && (0 < RotationLoops.Period(t.interval, t.buckets) <==> 2 * t.buckets <= t.interval)
            && (RotationLoops.Period(t.interval, t.buckets) == 0 <==> -2 * t.buckets < t.interval < 2 * t.buckets)
  {
    CanonicalKeeps(s.groupBy);
    RotationLoops.PeriodSign(Normalized(s, cpus).interval, Normalized(s, cpus).buckets);
  }

  /** A normalised stream has all its defaults, so an estimator created from it keeps it as it is. */
  lemma NormalizedIsSettled(s: StreamConfig, cpus: nat)
    ensures WithDefaults(Normalized(s, cpus), cpus) == Normalized(s, cpus)
  {
  }

  /** What is configured is kept; only what is missing is filled in. */
  lemma NormalizedKeeps(s: StreamConfig, cpus: nat)
    ensures var t := Normalized(s, cpus);
            && t.filter == s.filter && t.labels == s.labels && t.calculateChurn == s.calculateChurn
            && t.minCardinality == s.minCardinality
            && t.interval == (if s.interval != 0 then s.interval else 300_000_000_000)
            && t.groupLimit == (if s.groupLimit > 0 then s.groupLimit else 10_000)
            && t.hllPrecision == (if s.hllPrecision != 0 then s.hllPrecision else 14)
            && t.hllSparse == (if s.hllSparse.Some? then s.hllSparse else Some(true))
            && (s.buckets > 0 ==> t.buckets == s.buckets)
            && (s.buckets <= 0 ==>
                  t.buckets == if cpus <= 2 then 4 else if cpus >= 32 then 64 else 2 * cpus)
    ensures StreamOk(s) ==> multiset(Normalized(s, cpus).groupBy) == multiset(s.groupBy)
  {
    if StreamOk(s) {
      CanonicalKeeps(s.groupBy);
    }
  }

  function IdOf(s: StreamConfig, format: int -> string): string {
    Id(s.labels, s.groupBy, format(s.interval), s.filter)
  }

  /** Reordering group-by gives the same identity. */
  lemma {:induction false} IdIgnoresGroupByOrder(s: StreamConfig, groupBy: seq<string>, cpus: nat,
                                                 format: int -> string)
    requires multiset(s.groupBy) == multiset(groupBy)
    ensures IdOf(Normalized(s, cpus), format) == IdOf(Normalized(s.(groupBy := groupBy), cpus), format)
  {
    CanonicalIgnoresOrder(s.groupBy, groupBy);
  }

  ghost predicate Clean(s: StreamConfig, format: int -> string) {
    CleanLabels(s.labels) && CleanGroupBy(s.groupBy) && '\0' !in format(s.interval)
  }

  /** Clean streams are taken for the same exactly if they agree on labels, group-by, interval and
      filter, provided that different intervals are formatted differently. */
  lemma SameIdentityIff(s: StreamConfig, t: StreamConfig, format: int -> string)
    requires Clean(s, format) && Clean(t, format)
    requires format(s.interval) == format(t.interval) ==> s.interval == t.interval
    ensures IdOf(s, format) == IdOf(t, format)
            <==> s.labels == t.labels && s.groupBy == t.groupBy && s.interval == t.interval && s.filter == t.filter
  {
    IdIsInjective(s.labels, s.groupBy, format(s.interval), s.filter,
                  t.labels, t.groupBy, format(t.interval), t.filter);
  }

  function NormalizedBy(cpus: nat): StreamConfig -> StreamConfig {
    s => Normalized(s, cpus)
  }

  function ValidStream(): StreamConfig -> bool {
    s => StreamOk(s)
  }

  function IdBy(format: int -> string): StreamConfig -> string {
    s => IdOf(s, format)
  }

  ghost function NormalizedAll(streams: seq<StreamConfig>, cpus: nat): (r: seq<StreamConfig>)
    ensures |r| == |streams|
  {
    Mapped(NormalizedBy(cpus), streams)
  }

  ghost predicate Same<T>(s: seq<T>, i: nat, j: nat)
    requires i < |s| && j < |s|
  {
    s[i] == s[j]
  }

  /** The table has the first i elements of all, each with its position; no two are the same. */
  ghost predicate Registered<T(!new)>(table: map<T, nat>, all: seq<T>, i: nat) {
    && i <= |all|
    && (forall j | 0 <= j < i :: all[j] in table)
    && (forall x | x in table :: table[x] < i && all[table[x]] == x)
    && Distinct(all[..i])
  }

  lemma Register<T(!new)>(table: map<T, nat>, all: seq<T>, i: nat)
    requires Registered(table, all, i) && i < |all|
    ensures if all[i] in table then table[all[i]] < i && all[table[all[i]]] == all[i] && !Distinct(all)
            else Registered(table[all[i] := i], all, i + 1)
  {
    if all[i] !in table {
      var more := table[all[i] := i];
      forall j | 0 <= j < i + 1 ensures all[j] in more {
      }
      forall x | x in more ensures more[x] < i + 1 && all[more[x]] == x {
      }
    }
  }

  lemma AllRegistered<T(!new)>(table: map<T, nat>, all: seq<T>)
    requires Registered(table, all, |all|)
    ensures Distinct(all)
  {
    assert all[..|all|] == all;
  }

  ghost predicate LabelsOk(s: StreamConfig) {
    forall k | k in s.labels :: !Reserved(k)
  }

  ghost function FreeLabels(): StreamConfig -> bool {
    s => LabelsOk(s)
  }

  /** The configurations that are accepted. */
  ghost predicate Acceptable(streams: seq<StreamConfig>, cpus: nat, format: int -> string) {
    && AllHold(ValidStream(), streams) && AllHold(FreeLabels(), streams)
    && Distinct(Mapped(IdBy(format), NormalizedAll(streams, cpus)))
  }

  /** `__label__` is there twice. */
  ghost predicate KeywordTwice(groupBy: seq<string>) {
    exists i, j | 0 <= i < j < |groupBy| :: groupBy[i] == "__label__" == groupBy[j]
  }

  /** The precision is in range if given, `__label__` is there at most once, and no label is named like
      one the program writes itself. */
  ghost predicate Sound(s: StreamConfig) {
    && (s.hllPrecision == 0 || 4 <= s.hllPrecision <= 18) && !KeywordTwice(s.groupBy)
    && forall k | k in s.labels ::
         k != "interval" && k != "filter" && k != "group_by_keys" && k != "group_by_values" && !("by_" <= k)
  }

  lemma {:induction false} CountAtMostOnce<T>(s: seq<T>, x: T)
    ensures multiset(s)[x] == 0 <==> x !in s
    ensures multiset(s)[x] <= 1 <==> !exists i, j | 0 <= i < j < |s| :: s[i] == x == s[j]
  {
    if s != [] {
      var n := |s| - 1;
      CountAtMostOnce(s[..n], x);
      assert s == s[..n] + [s[n]];
      CountSnoc(s[..n], s[n], x);
      if s[n] == x && x in s[..n] {
        var i :| 0 <= i < n && s[..n][i] == x;
        assert s[i] == x == s[n];
      }
      if i, j :| 0 <= i < j < n && s[..n][i] == x == s[..n][j] {
        assert s[i] == x == s[j];
      }
      if i, j :| 0 <= i < j < |s| && s[i] == x == s[j] {
        assert s[..n][i] == x && (j < n ==> s[..n][j] == x);
      }
    }
  }

  lemma SoundIff(s: StreamConfig)
    ensures Sound(s) <==> StreamOk(s) && LabelsOk(s)
  {
    CountAtMostOnce(s.groupBy, LABEL_KEYWORD);
  }

  /** A configuration is accepted exactly if each stream is sound and no two have the same identity
      once they are normalised. */
  lemma AcceptableIff(streams: seq<StreamConfig>, cpus: nat, format: int -> string)
    ensures Acceptable(streams, cpus, format) <==>
              && (forall i | 0 <= i < |streams| :: Sound(streams[i]))
              && forall i, j | 0 <= i < j < |streams| ::
                   IdOf(Normalized(streams[i], cpus), format) != IdOf(Normalized(streams[j], cpus), format)
  {
    AllHoldAt(ValidStream(), streams);
    AllHoldAt(FreeLabels(), streams);
    forall i | 0 <= i < |streams| ensures Sound(streams[i]) <==> ValidStream()(streams[i]) && FreeLabels()(streams[i]) {
      SoundIff(streams[i]);
    }
    var ids := Mapped(IdBy(format), NormalizedAll(streams, cpus));
    forall i | 0 <= i < |streams| ensures ids[i] == IdOf(Normalized(streams[i], cpus), format) {
      MappedAt(IdBy(format), NormalizedAll(streams, cpus), i);
      MappedAt(NormalizedBy(cpus), streams, i);
    }
  }

  /** Normalising leaves the labels alone. */
  lemma {:induction false} SameLabels(streams: seq<StreamConfig>, cpus: nat)
    ensures AllHold(FreeLabels(), NormalizedAll(streams, cpus)) == AllHold(FreeLabels(), streams)
  {
    if streams != [] {
      var n := |streams| - 1;
      SameLabels(streams[..n], cpus);
      assert NormalizedAll(streams, cpus)[..n] == NormalizedAll(streams[..n], cpus);
    }
  }

  lemma {:induction false} NormalizedAllIsIdempotent(streams: seq<StreamConfig>, cpus: nat)
    requires AllHold(ValidStream(), streams)
    ensures AllHold(ValidStream(), NormalizedAll(streams, cpus))
    ensures NormalizedAll(NormalizedAll(streams, cpus), cpus) == NormalizedAll(streams, cpus)
  {
    if streams != [] {
      var n := |streams| - 1;
      NormalizedAllIsIdempotent(streams[..n], cpus);
      NormalizedIsIdempotent(streams[n], cpus);
      assert NormalizedAll(streams, cpus)[..n] == NormalizedAll(streams[..n], cpus);
    }
  }

  /** Accepting is stable: an accepted configuration, normalised, is accepted as it is. */
  lemma {:induction false} AcceptedStaysAccepted(streams: seq<StreamConfig>, cpus: nat, format: int -> string)
    requires Acceptable(streams, cpus, format)
    ensures Acceptable(NormalizedAll(streams, cpus), cpus, format)
  {
    NormalizedAllIsIdempotent(streams, cpus);
    SameLabels(streams, cpus);
  }

  /* What is not checked */

  lemma OneStreamAcceptable(s: StreamConfig, cpus: nat, format: int -> string)
    ensures Acceptable([s], cpus, format) <==> StreamOk(s) && LabelsOk(s)
  {
    AllHoldAt(ValidStream(), [s]);
    AllHoldAt(FreeLabels(), [s]);
    assert [s][0] == s;
  }

  /** Any interval is accepted, also one on which the rotation loop divides by zero. */
  lemma IntervalIsNotChecked(s: StreamConfig, interval: int, cpus: nat, format: int -> string)
    requires Acceptable([s], cpus, format)
    ensures Acceptable([s.(interval := interval)], cpus, format)
  {
    OneStreamAcceptable(s, cpus, format);
    OneStreamAcceptable(s.(interval := interval), cpus, format);
  }

  const PLAIN := StreamConfig("", [], 0, map[], 0, false, 0, 0, None, 0)

  /** One nanosecond is accepted, and gives the rotation loop a period of zero; minus one second is
      accepted as well, and its period is negative. */
  lemma TinyIntervalIsAccepted(cpus: nat, format: int -> string)
    ensures var tiny := PLAIN.(interval := 1);
            && Acceptable([tiny], cpus, format)
            && RotationLoops.Period(Normalized(tiny, cpus).interval, Normalized(tiny, cpus).buckets) == 0
    ensures var negative := PLAIN.(interval := -SECOND);
            && Acceptable([negative], cpus, format)
            && RotationLoops.Period(Normalized(negative, cpus).interval, Normalized(negative, cpus).buckets) < 0
  {
    OneStreamAcceptable(PLAIN, cpus, format);
    IntervalIsNotChecked(PLAIN, 1, cpus, format);
    IntervalIsNotChecked(PLAIN, -SECOND, cpus, format);
    RotationLoops.PeriodSign(1, DefaultBuckets(cpus));
    RotationLoops.PeriodSign(-SECOND, DefaultBuckets(cpus));
  }

  lemma PlainId(labels: map<string, string>, cpus: nat, format: int -> string)
    ensures IdOf(Normalized(PLAIN.(labels := labels), cpus), format)
            == Id(labels, CanonicalGroupBy([]), format(300 * SECOND), "")
  {
  }

  lemma PlainAcceptable(name: string, value: string, cpus: nat, format: int -> string)
    requires !Reserved(name)
    ensures Acceptable([PLAIN.(labels := map[name := value])], cpus, format)
  {
    OneStreamAcceptable(PLAIN.(labels := map[name := value]), cpus, format);
  }

  /** Names that make identities collide are accepted; two streams that collide are then refused as
      duplicates although their labels differ. */
  lemma {:induction false} CollidingStreamsAreRefused(cpus: nat, format: int -> string)
    ensures var a, b := PLAIN.(labels := map["a=b" := "c"]), PLAIN.(labels := map["a" := "b=c"]);
            && a.labels != b.labels
            && Acceptable([a], cpus, format) && Acceptable([b], cpus, format)
            && !Acceptable([a, b], cpus, format)
  {
    var a, b := PLAIN.(labels := map["a=b" := "c"]), PLAIN.(labels := map["a" := "b=c"]);
    assert "a=b"[0] == 'a' && "by_"[0] == 'b';
    PlainAcceptable("a=b", "c", cpus, format);
    PlainAcceptable("a", "b=c", cpus, format);
    EqualsInNameCollides(CanonicalGroupBy([]), format(300 * SECOND), "");
    PlainId(a.labels, cpus, format);
    PlainId(b.labels, cpus, format);
    SameIdIsRefused(a, b, cpus, format);
  }

  lemma SameIdIsRefused(a: StreamConfig, b: StreamConfig, cpus: nat, format: int -> string)
    requires IdOf(Normalized(a, cpus), format) == IdOf(Normalized(b, cpus), format)
    ensures !Acceptable([a, b], cpus, format)
  {
    var all := NormalizedAll([a, b], cpus);
    MappedAt(NormalizedBy(cpus), [a, b], 0);
    MappedAt(NormalizedBy(cpus), [a, b], 1);
    MappedAt(IdBy(format), all, 0);
    MappedAt(IdBy(format), all, 1);
    var ids := Mapped(IdBy(format), all);
    assert ids[0] == ids[1];
  }

  /** Whether an estimator can be created from a stream: at most five group-by names, none of them
      reserved, and a filter that compiles. */
  predicate Creatable(s: StreamConfig, compiles: string -> bool) {
    && |s.groupBy| <= 5
    && (forall g | g in s.groupBy :: g != "__global__" && g != "__group__")
    && compiles(s.filter)
  }

  function CreatableBy(compiles: string -> bool): StreamConfig -> bool {
    s => Creatable(s, compiles)
  }

  /** An accepted configuration is what loading needs: no two streams with the same identity. */
  lemma AcceptedCanBeLoaded(streams: seq<StreamConfig>, cpus: nat, format: int -> string)
    requires Acceptable(streams, cpus, format)
    ensures Loading.DistinctIds(NormalizedAll(streams, cpus), IdBy(format))
  {
    var all := NormalizedAll(streams, cpus);
    forall i, j | 0 <= i < j < |all| ensures IdBy(format)(all[i]) != IdBy(format)(all[j]) {
      MappedAt(IdBy(format), all, i);
      MappedAt(IdBy(format), all, j);
      assert Mapped(IdBy(format), all)[i] != Mapped(IdBy(format), all)[j];
    }
  }

  lemma SameDistinctIds(cfgs: seq<StreamConfig>, f: StreamConfig -> string, g: StreamConfig -> string)
    requires Loading.DistinctIds(cfgs, f) && forall s :: f(s) == g(s)
    ensures Loading.DistinctIds(cfgs, g)
  {
    forall i, j | 0 <= i < j < |cfgs| ensures g(cfgs[i]) != g(cfgs[j]) {
      assert f(cfgs[i]) != f(cfgs[j]);
    }
  }

  /* The code */

  /** Counts one name, the label keyword, and keeps the others in order. */
  method SplitGroupBy<T(==)>(groupBy: seq<T>, keyword: T) returns (newGroupBy: seq<T>, count: nat)
    ensures newGroupBy == Without(groupBy, keyword) && count == multiset(groupBy)[keyword]
  {
    newGroupBy, count := [], 0;
    var i := 0;
    while i < |groupBy|
      invariant 0 <= i <= |groupBy|
      invariant newGroupBy == Without(groupBy[..i], keyword) && count == multiset(groupBy[..i])[keyword]
    {
      assert groupBy[..i + 1] == groupBy[..i] + [groupBy[i]];
      if groupBy[i] == keyword {
        count := count + 1;
      } else {
        newGroupBy := newGroupBy + [groupBy[i]];
      }
      i := i + 1;
    }
    assert groupBy[..i] == groupBy;
  }

  method HasReservedLabel(labels: map<string, string>) returns (found: bool)
    ensures found <==> exists k | k in labels :: Reserved(k)
  {
    var todo := labels.Keys;
    while todo != {}
      invariant todo <= labels.Keys && forall k | k in labels && k !in todo :: !Reserved(k)
    {
      var k :| k in todo;
      todo := todo - {k};
      if Reserved(k) {
        return true;
      }
    }
    return false;
  }

  /** Sorts group-by, moves the label keyword to its end, and fills in defaults. */
  method NormalizeStream(stream: StreamConfig, i: nat, cpus: nat) returns (problem: Option<Problem>, r: StreamConfig)
    ensures problem.None? <==> ValidStream()(stream)
    ensures problem.None? ==> r == NormalizedBy(cpus)(stream)
    ensures !PrecisionOk(stream) ==> problem == Some(InvalidPrecision(i))
    ensures PrecisionOk(stream) && !StreamOk(stream) ==> problem == Some(LabelKeywordTwice(i))
  {
    var sorted := Sort(stream.groupBy);
    SortSorts(stream.groupBy);
    r := stream.(groupBy := sorted);
    if stream.hllPrecision != 0 && (stream.hllPrecision < 4 || stream.hllPrecision > 18) {
      return Some(InvalidPrecision(i)), r;
    }
    var newGroupBy, count := SplitGroupBy(sorted, LABEL_KEYWORD);
    if count > 1 {
      return Some(LabelKeywordTwice(i)), r;
    }
    CountedOnce(stream.groupBy);
    if count == 1 {
      newGroupBy := newGroupBy + [LABEL_KEYWORD];
    }
    assert newGroupBy == CanonicalGroupBy(stream.groupBy);
    r := WithDefaults(stream.(groupBy := newGroupBy), cpus);
    problem := None;
  }

  lemma CountedOnce(names: seq<string>)
    ensures LABEL_KEYWORD in names <==> multiset(names)[LABEL_KEYWORD] > 0
    ensures Without(Sort(names), LABEL_KEYWORD) + [] == Without(Sort(names), LABEL_KEYWORD)
  {
    assert LABEL_KEYWORD in names <==> LABEL_KEYWORD in multiset(names);
  }

  method IdentityOf(ec: StreamConfig, format: int -> string) returns (id: string)
    ensures id == IdOf(ec, format)
  {
    id := EstimatorID(ec.labels, ec.groupBy, format(ec.interval), ec.filter);
  }

  /** Looks for reserved labels in one stream and for an earlier one with the same identity. */
  method CheckStream(stream: StreamConfig, ids: map<string, nat>, i: nat, format: int -> string, ghost all: seq<string>)
    returns (problem: Option<Problem>, more: map<string, nat>)
    requires Registered(ids, all, i) && i < |all| && all[i] == IdBy(format)(stream)
    ensures problem.None? ==> FreeLabels()(stream) && Registered(more, all, i + 1)
    ensures problem.Some? ==> !FreeLabels()(stream) || !Distinct(all)
    ensures problem.Some? && problem.value.SameIdentity? ==>
              problem.value.first < problem.value.second == i && Same(all, problem.value.first, i)
  {
    more := ids;
    var reserved := HasReservedLabel(stream.labels);
    if reserved {
      return Some(ReservedLabel(i)), more;
    }
    var id := IdentityOf(stream, format);
    Register(ids, all, i);
    if id in ids {
      return Some(SameIdentity(ids[id], i)), more;
    }
    return None, ids[id := i];
  }

  /** Looks for reserved labels and for streams with the same identity. */
  method CheckIds(streams: seq<StreamConfig>, format: int -> string) returns (problem: Option<Problem>)
    ensures problem.None? <==> AllHold(FreeLabels(), streams) && Distinct(Mapped(IdBy(format), streams))
    ensures problem.Some? && problem.value.SameIdentity? ==>
              && problem.value.first < problem.value.second < |streams|
              && Same(Mapped(IdBy(format), streams), problem.value.first, problem.value.second)
  {
    ghost var all := Mapped(IdBy(format), streams);
    var ids: map<string, nat> := map[];
    var i := 0;
    while i < |streams|
      invariant 0 <= i <= |streams| && AllHold(FreeLabels(), streams[..i]) && Registered(ids, all, i)
    {
      MappedAt(IdBy(format), streams, i);
      AllHoldTake(FreeLabels(), streams, i);
      problem, ids := CheckStream(streams[i], ids, i, format, all);
      if problem.Some? {
        return;
      }
      i := i + 1;
    }
    assert streams[..i] == streams;
    AllRegistered(ids, all);
    return None;
  }

  class ConfigFile {
    var streams: seq<StreamConfig>

    constructor (streams: seq<StreamConfig>)
      ensures this.streams == streams
    {
      this.streams := streams;
    }

    /** Normalises the streams one by one, up to the first invalid one. */
    method NormalizeStreams(cpus: nat) returns (problem: Option<Problem>)
      modifies this
      ensures problem.None? <==> AllHold(ValidStream(), old(streams))
      ensures problem.None? ==> streams == NormalizedAll(old(streams), cpus)
    {
      ghost var original, f, p := streams, NormalizedBy(cpus), ValidStream();
      var i := 0;
      while i < |streams|
        invariant 0 <= i <= |streams| == |original| && Halfway(f, p, original, streams, i)
      {
        HalfwayStep(f, p, original, streams, i);
        var stream;
        problem, stream := NormalizeStream(streams[i], i, cpus);
        if problem.Some? {
          return;
        }
        streams := streams[i := stream];
        i := i + 1;
      }
      HalfwayDone(f, p, original, streams);
      problem := None;
    }

    /** Accepts exactly the acceptable configurations, and leaves them normalised. */
    method Prepare(cpus: nat, format: int -> string) returns (problem: Option<Problem>)
      modifies this
      ensures problem.None? <==> Acceptable(old(streams), cpus, format)
      ensures problem.None? ==> streams == NormalizedAll(old(streams), cpus)
    {
      ghost var original := streams;
      problem := NormalizeStreams(cpus);
      if problem.None? {
        problem := CheckIds(streams, format);
        SameLabels(original, cpus);
      }
    }
  }

  /** The loader tells streams apart by their identities and creates them under the program's conditions. */
  ghost predicate ForStreams(loader: Loading.Loader<StreamConfig, string>, format: int -> string,
                             compiles: string -> bool)
  {
    && (forall s :: loader.identify(s) == IdOf(s, format))
    && (forall s :: loader.creatable(s) == Creatable(s, compiles))
  }

  /** Some stream is not served and cannot be created. */
  ghost predicate NewStreamFails(handles: seq<Loading.Handle<StreamConfig>>, streams: seq<StreamConfig>,
                                 compiles: string -> bool)
  {
    exists i | 0 <= i < |streams| :: !Loading.Kept(handles, streams[i]) && !Creatable(streams[i], compiles)
  }

  lemma SameFailures(handles: seq<Loading.Handle<StreamConfig>>, streams: seq<StreamConfig>,
                     creatable: StreamConfig -> bool, compiles: string -> bool)
    requires forall s :: creatable(s) == Creatable(s, compiles)
    ensures Loading.NewFails(handles, streams, creatable) <==> NewStreamFails(handles, streams, compiles)
  {
  }

  method NewLoader(format: int -> string, compiles: string -> bool, perLabel: StreamConfig -> bool)
    returns (loader: Loading.Loader<StreamConfig, string>)
    ensures fresh(loader) && loader.Valid() && loader.active == [] && ForStreams(loader, format, compiles)
  {
    loader := new Loading.Loader(IdBy(format), CreatableBy(compiles), perLabel);
  }

  /** Loads accepted streams. */
  method LoadStreams(streams: seq<StreamConfig>, loader: Loading.Loader<StreamConfig, string>,
                     format: int -> string, ghost compiles: string -> bool, dedup: bool)
    returns (changed: bool, failed: bool)
    requires loader.Valid() && ForStreams(loader, format, compiles)
    requires Loading.DistinctIds(streams, IdBy(format))
    modifies loader
    ensures loader.Valid()
    ensures failed <==> NewStreamFails(old(loader.active), streams, compiles)
    ensures !failed ==>
              && Loading.SameSet(loader.active, streams)
              && (changed <==> !Loading.SameSet(old(loader.active), streams))
    ensures !failed ==> forall h | h in old(loader.active) && h.cfg in streams :: h in loader.active
    ensures !changed ==> loader.active == old(loader.active)
  {
    SameDistinctIds(streams, IdBy(format), loader.identify);
    SameFailures(loader.active, streams, loader.creatable, compiles);
    changed, failed := Loading.LoadKeeping(loader, streams, dedup);
  }

  /** A configuration file from reading to loading: either it is refused, or a new stream of it cannot
      be created, and the estimators stay as they are; or they serve its normalised streams, with the
      same objects for the streams served before. */
  method PrepareAndLoad(file: ConfigFile, loader: Loading.Loader<StreamConfig, string>, cpus: nat,
                        format: int -> string, ghost compiles: string -> bool, dedup: bool)
    returns (problem: Option<Problem>, changed: bool, failed: bool)
    requires loader.Valid() && ForStreams(loader, format, compiles)
    modifies file, loader
    ensures loader.Valid() && (problem.None? <==> Acceptable(old(file.streams), cpus, format))
    ensures problem.None? ==> file.streams == NormalizedAll(old(file.streams), cpus)
    ensures problem.Some? ==> !changed && !failed
    ensures problem.None? ==> (failed <==> NewStreamFails(old(loader.active), file.streams, compiles))
    ensures problem.None? && !failed ==>
              && Loading.SameSet(loader.active, file.streams)
              && (changed <==> !Loading.SameSet(old(loader.active), file.streams))
              && forall h | h in old(loader.active) && h.cfg in file.streams :: h in loader.active
    ensures !changed ==> loader.active == old(loader.active)
  {
    changed, failed := false, false;
    ghost var streams := file.streams;
    problem := file.Prepare(cpus, format);
    if problem.None? {
      AcceptedCanBeLoaded(streams, cpus, format);
      changed, failed := LoadStreams(file.streams, loader, format, compiles, dedup);
    }
  }
}
