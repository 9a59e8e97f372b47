/** Shared vocabulary: optional values, 64-bit words, and sums over sequences. */
module Base {

  datatype Option<+T> = None | Some(value: T)

  /** The number of filters of the deduplicator. */
  const SLOTS: nat := 10

  /** The number of groups in one batch of a snapshot. */
  const BATCH_SIZE: nat := 1000

  /** The group-by name that stands for every label of a series. */
  const LABEL_KEYWORD := "__label__"

  const TWO_TO_THE_32: nat := 0x1_0000_0000
  const TWO_TO_THE_64: nat := 0x1_0000_0000_0000_0000

  /** An unsigned 64-bit integer: fingerprints, group keys, Bloom hashes. */
  type Uint64 = n: nat | n < TWO_TO_THE_64

  lemma Distribute(a: int, b: int, d: int)
    ensures (a + b) * d == a * d + b * d
  {
  }

  /** The sum of f over the elements of s. */
  ghost function Sum<T>(f: T -> int, s: seq<T>): int {
    if s == [] then 0 else f(s[0]) + Sum(f, s[1..])
  }

  /** Replacing one element changes the sum by the difference of that element alone. */
  lemma {:induction false} SumUpdate<T>(f: T -> int, s: seq<T>, i: nat, x: T)
    requires i < |s|
    ensures Sum(f, s[i := x]) == Sum(f, s) - f(s[i]) + f(x)
  {
    var t := s[i := x];
    if i == 0 {
      assert t[1..] == s[1..];
    } else {
      assert t[1..] == s[1..][i - 1 := x];
      SumUpdate(f, s[1..], i - 1, x);
    }
  }

  /** A sum of terms between lo and hi lies between lo and hi times the length. */
  lemma {:induction false} SumBounds<T>(f: T -> int, s: seq<T>, lo: int, hi: int)
    requires forall x | x in s :: lo <= f(x) <= hi
    ensures lo * |s| <= Sum(f, s) <= hi * |s|
  {
    if s != [] {
      SumBounds(f, s[1..], lo, hi);
      assert lo * |s| == lo + lo * |s[1..]| && hi * |s| == hi + hi * |s[1..]|;
    }
  }

  lemma {:induction false} SumSnoc<T>(f: T -> int, s: seq<T>)
    requires s != []
    ensures Sum(f, s) == Sum(f, s[..|s| - 1]) + f(s[|s| - 1])
  {
    if |s| > 1 {
      SumSnoc(f, s[1..]);
      assert s[1..][..|s| - 2] == s[..|s| - 1][1..];
    }
  }

  /** A subset is no larger; a subset of the same size is the whole set. */
  lemma {:induction false} SubsetSize<T>(a: set<T>, b: set<T>)
    requires a <= b
    ensures |a| <= |b|
    ensures |a| == |b| ==> a == b
  {
    assert b == a + (b - a);
    assert |b| == |a| + |b - a|;
  }

  /** The numbers below n. */
  ghost function Below(n: nat): (r: set<nat>)
    ensures |r| == n
    ensures forall b :: b in r <==> 0 <= b < n
  {
    if n == 0 then {} else Below(n - 1) + {n - 1}
  }

  /** Equal multisets stay equal when one occurrence of the same element is taken from each. */
  lemma RemoveOne<T>(a: seq<T>, b: seq<T>) returns (i: nat)
    requires multiset(a) == multiset(b) && a != []
    ensures i < |b| && b[i] == a[0]
    ensures multiset(a[1..]) == multiset(b[..i] + b[i + 1..])
  {
    assert a[0] in multiset(b);
    i :| 0 <= i < |b| && b[i] == a[0];
    WithoutIndex(b, i);
    assert a == [a[0]] + a[1..];
  }

  lemma WithoutIndex<T>(s: seq<T>, i: nat)
    requires i < |s|
    ensures multiset(s[..i] + s[i + 1..]) == multiset(s) - multiset{s[i]}
  {
    assert s == s[..i] + [s[i]] + s[i + 1..];
  }

  /** The concatenation of f over the elements of s. */
  function FlatMap<A, B>(f: A -> seq<B>, s: seq<A>): seq<B> {
    if s == [] then [] else FlatMap(f, s[..|s| - 1]) + f(s[|s| - 1])
  }

  lemma {:induction false} FlatMapConcat<A, B>(f: A -> seq<B>, s: seq<A>, t: seq<A>)
    ensures FlatMap(f, s + t) == FlatMap(f, s) + FlatMap(f, t)
    decreases |t|
  {
    if t == [] {
      assert s + t == s;
    } else {
      var n := |t| - 1;
      assert (s + t)[..|s + t| - 1] == s + t[..n];
      FlatMapConcat(f, s, t[..n]);
    }
  }

  /** Starting somewhere else and wrapping around yields the same elements as often. */
  lemma {:induction false} FlatMapRotated<A, B>(f: A -> seq<B>, s: seq<A>, k: nat)
    requires k <= |s|
    ensures multiset(FlatMap(f, s[k..] + s[..k])) == multiset(FlatMap(f, s))
  {
    FlatMapConcat(f, s[k..], s[..k]);
    FlatMapConcat(f, s[..k], s[k..]);
    assert FlatMap(f, s[..k] + s[k..]) == FlatMap(f, s) by {
      assert s[..k] + s[k..] == s;
    }
    SwapParts(FlatMap(f, s[k..]), FlatMap(f, s[..k]));
  }

  lemma SwapParts<T>(a: seq<T>, b: seq<T>)
    ensures multiset(a + b) == multiset(b + a)
  {
  }

  lemma FlatMapTake<A, B>(f: A -> seq<B>, s: seq<A>, j: nat)
    requires j < |s|
    ensures FlatMap(f, s[..j + 1]) == FlatMap(f, s[..j]) + f(s[j])
  {
    assert s[..j + 1][..j] == s[..j];
  }

  lemma {:induction false} FlatMapMember<A, B>(f: A -> seq<B>, s: seq<A>, x: B)
    ensures x in FlatMap(f, s) <==> exists i | 0 <= i < |s| :: x in f(s[i])
  {
    if s != [] {
      var n := |s| - 1;
      FlatMapMember(f, s[..n], x);
      assert forall i | 0 <= i < n :: s[..n][i] == s[i];
    }
  }

  ghost function Mapped<A, B>(f: A -> B, s: seq<A>): (r: seq<B>)
    ensures |r| == |s|
  {
    if s == [] then [] else Mapped(f, s[..|s| - 1]) + [f(s[|s| - 1])]
  }

  lemma {:induction false} MappedAt<A, B>(f: A -> B, s: seq<A>, i: nat)
    requires i < |s|
    ensures Mapped(f, s)[i] == f(s[i])
  {
    if i < |s| - 1 {
      MappedAt(f, s[..|s| - 1], i);
    }
  }

  ghost predicate AllHold<A>(p: A -> bool, s: seq<A>) {
    s == [] || (AllHold(p, s[..|s| - 1]) && p(s[|s| - 1]))
  }

  lemma {:induction false} AllHoldAt<A>(p: A -> bool, s: seq<A>)
    ensures AllHold(p, s) <==> forall i | 0 <= i < |s| :: p(s[i])
  {
    if s != [] {
      var n := |s| - 1;
      AllHoldAt(p, s[..n]);
      assert forall i | 0 <= i < n :: s[..n][i] == s[i];
    }
  }

  lemma AllHoldTake<A>(p: A -> bool, s: seq<A>, i: nat)
    requires i < |s| && AllHold(p, s[..i])
    ensures AllHold(p, s[..i + 1]) <==> p(s[i])
    ensures !p(s[i]) ==> !AllHold(p, s)
  {
    assert s[..i + 1][..i] == s[..i];
    AllHoldAt(p, s);
  }

  /** The first i elements satisfy p and are mapped in place, the others are as they were. */
  ghost predicate Halfway<A>(f: A -> A, p: A -> bool, original: seq<A>, now: seq<A>, i: nat) {
    i <= |original| && AllHold(p, original[..i]) && now == Mapped(f, original[..i]) + original[i..]
  }

  lemma HalfwayStep<A>(f: A -> A, p: A -> bool, original: seq<A>, now: seq<A>, i: nat)
    requires Halfway(f, p, original, now, i) && i < |original|
    ensures |now| == |original| && now[i] == original[i]
    ensures p(original[i]) ==> Halfway(f, p, original, now[i := f(original[i])], i + 1)
    ensures !p(original[i]) ==> !AllHold(p, original)
  {
    assert original[..i + 1][..i] == original[..i];
    AllHoldTake(p, original, i);
  }

  lemma HalfwayDone<A>(f: A -> A, p: A -> bool, original: seq<A>, now: seq<A>)
    requires Halfway(f, p, original, now, |original|)
    ensures AllHold(p, original) && now == Mapped(f, original)
  {
    assert original[..|original|] == original;
  }

  ghost predicate Distinct<T>(s: seq<T>) {
    forall i, j | 0 <= i < j < |s| :: s[i] != s[j]
  }

  ghost function Elements<T>(s: seq<T>): set<T> {
    set i | 0 <= i < |s| :: s[i]
  }

  /** One more element: new if it is not among the others. */
  lemma ElementsSnoc<T>(s: seq<T>, x: T)
    ensures Elements(s + [x]) == Elements(s) + {x}
    ensures Distinct(s + [x]) <==> Distinct(s) && x !in Elements(s)
  {
    var more := s + [x];
    assert more[|s|] == x;
    forall y | y in Elements(s) ensures y in Elements(more) {
      var i :| 0 <= i < |s| && s[i] == y;
      assert more[i] == y;
    }
    forall i | 0 <= i < |s| ensures more[i] in Elements(s) {
      assert more[i] == s[i];
    }
    if Distinct(more) {
      forall i, j | 0 <= i < j < |s| ensures s[i] != s[j] {
        assert more[i] != more[j];
      }
      forall i | 0 <= i < |s| ensures s[i] != x {
        assert more[i] != more[|s|];
      }
    }
  }

  lemma {:induction false} DistinctSize<T>(s: seq<T>)
    requires Distinct(s)
    ensures |Elements(s)| == |s|
  {
    if s == [] {
      assert Elements(s) == {};
    } else {
      var n := |s| - 1;
      assert s == s[..n] + [s[n]];
      ElementsSnoc(s[..n], s[n]);
      DistinctSize(s[..n]);
    }
  }
}
