/** Sorting of strings, and enumerating a set of them in sorted order. */
module Strings {

  /** Lexicographic order. */
  predicate Leq(a: string, b: string) {
    a == [] || (b != [] && (a[0] < b[0] || (a[0] == b[0] && Leq(a[1..], b[1..]))))
  }

  lemma {:induction false} LeqTotal(a: string, b: string)
    ensures Leq(a, b) || Leq(b, a)
  {
    if a != [] && b != [] && a[0] == b[0] {
      LeqTotal(a[1..], b[1..]);
    }
  }

  lemma {:induction false} LeqAntisymmetric(a: string, b: string)
    requires Leq(a, b) && Leq(b, a)
    ensures a == b
  {
    if a != [] && b != [] {
      LeqAntisymmetric(a[1..], b[1..]);
      assert a == [a[0]] + a[1..] && b == [b[0]] + b[1..];
    }
  }

  lemma {:induction false} LeqTransitive(a: string, b: string, c: string)
    requires Leq(a, b) && Leq(b, c)
    ensures Leq(a, c)
  {
    if a != [] && a[0] == b[0] == c[0] {
      LeqTransitive(a[1..], b[1..], c[1..]);
    }
  }

  function Placed(x: string, s: seq<string>): seq<string> {
    if s == [] then [x]
    else if Leq(x, s[0]) then [x] + s
    else [s[0]] + Placed(x, s[1..])
  }

  function Sort(s: seq<string>): seq<string> {
    if s == [] then [] else Placed(s[0], Sort(s[1..]))
  }

  predicate Sorted(s: seq<string>) {
    forall i | 0 < i < |s| :: Leq(s[i - 1], s[i])
  }

  lemma {:induction false} PlacedElements(x: string, s: seq<string>)
    ensures multiset(Placed(x, s)) == multiset{x} + multiset(s)
  {
    if s != [] {
      assert s == [s[0]] + s[1..];
      PlacedElements(x, s[1..]);
    }
  }

  lemma {:induction false} PlacedSorted(x: string, s: seq<string>)
    requires Sorted(s)
    ensures Sorted(Placed(x, s)) && Placed(x, s)[0] == if s == [] || Leq(x, s[0]) then x else s[0]
  {
    if s != [] && !Leq(x, s[0]) {
      LeqTotal(x, s[0]);
      PlacedSorted(x, s[1..]);
    }
  }

  lemma {:induction false} SortElements(s: seq<string>)
    ensures multiset(Sort(s)) == multiset(s)
  {
    if s != [] {
      SortElements(s[1..]);
      PlacedElements(s[0], Sort(s[1..]));
      assert s == [s[0]] + s[1..];
    }
  }

  /** Sorting sorts, and keeps every element as often. */
  lemma {:induction false} SortSorts(s: seq<string>)
    ensures Sorted(Sort(s)) && multiset(Sort(s)) == multiset(s) && |Sort(s)| == |s|
  {
    SortElements(s);
    assert |multiset(Sort(s))| == |multiset(s)|;
    if s != [] {
      SortSorts(s[1..]);
      PlacedSorted(s[0], Sort(s[1..]));
    }
  }

  lemma {:induction false} HeadIsLeast(s: seq<string>, i: nat)
    requires Sorted(s) && i < |s|
    ensures Leq(s[0], s[i])
  {
    if i == 0 {
      LeqTotal(s[0], s[0]);
    } else {
      HeadIsLeast(s, i - 1);
      LeqTransitive(s[0], s[i - 1], s[i]);
    }
  }

  lemma SameHead(a: seq<string>, b: seq<string>)
    requires Sorted(a) && Sorted(b) && multiset(a) == multiset(b) && a != [] && b != []
    ensures a[0] == b[0]
  {
    assert a[0] in multiset(b) && b[0] in multiset(a);
    var i :| 0 <= i < |b| && b[i] == a[0];
    var j :| 0 <= j < |a| && a[j] == b[0];
    HeadIsLeast(a, j);
    HeadIsLeast(b, i);
    LeqAntisymmetric(a[0], b[0]);
  }

  lemma Tail(a: seq<string>)
    requires a != []
    ensures multiset(a[1..]) == multiset(a) - multiset{a[0]}
  {
    assert a == [a[0]] + a[1..];
  }

  /** A multiset has one sorted sequence. */
  lemma {:induction false} SortedIsUnique(a: seq<string>, b: seq<string>)
    requires Sorted(a) && Sorted(b) && multiset(a) == multiset(b)
    ensures a == b
    decreases |a|
  {
    assert |multiset(a)| == |multiset(b)|;
    if a != [] {
      SameHead(a, b);
      Tail(a);
      Tail(b);
      SortedIsUnique(a[1..], b[1..]);
      assert a == [a[0]] + a[1..] && b == [b[0]] + b[1..];
    }
  }

  /** Sorting forgets the order it was given. */
  lemma SortIsCanonical(a: seq<string>, b: seq<string>)
    requires multiset(a) == multiset(b)
    ensures Sort(a) == Sort(b)
  {
    SortSorts(a);
    SortSorts(b);
    SortedIsUnique(Sort(a), Sort(b));
  }

  lemma SortIsIdempotent(a: seq<string>)
    requires Sorted(a)
    ensures Sort(a) == a
  {
    SortSorts(a);
    SortedIsUnique(Sort(a), a);
  }

  predicate IsLeast(x: string, s: set<string>) {
    x in s && forall y | y in s :: Leq(x, y)
  }

  /** A set that is not empty has one least member. */
  lemma {:induction false} HasLeast(s: set<string>) returns (x: string)
    requires s != {}
    ensures IsLeast(x, s) && forall y | IsLeast(y, s) :: y == x
  {
    x :| x in s;
    LeqTotal(x, x);
    if s != {x} {
      var least := HasLeast(s - {x});
      LeqTotal(x, least);
      if Leq(x, least) {
        forall y | y in s ensures Leq(x, y) {
          if y != x {
            LeqTransitive(x, least, y);
          }
        }
      } else {
        x := least;
      }
    }
    forall y | IsLeast(y, s) ensures y == x {
      LeqAntisymmetric(x, y);
    }
  }

  /** Lists a set, each member once. */
  function Enumerated(s: set<string>): (r: seq<string>)
    ensures multiset(r) == multiset(s)
  {
    if s == {} then [] else
      assert exists x :: IsLeast(x, s) && forall y | IsLeast(y, s) :: y == x by {
        var least := HasLeast(s);
      }
      var x :| IsLeast(x, s);
      assert s == {x} + (s - {x});
      [x] + Enumerated(s - {x})
  }

  /** The members of a set in sorted order. */
  function SortedKeys(s: set<string>): seq<string> {
    Sort(Enumerated(s))
  }

  /** Sorting the keys of a set gives the same sequence however they were enumerated. */
  lemma SortedKeysOf(s: set<string>, keys: seq<string>)
    requires multiset(keys) == multiset(s)
    ensures Sort(keys) == SortedKeys(s)
  {
    SortIsCanonical(keys, Enumerated(s));
  }

  lemma SortedKeysMembers(s: set<string>)
    ensures forall k :: k in SortedKeys(s) <==> k in s
  {
    SortSorts(Enumerated(s));
    forall k ensures k in SortedKeys(s) <==> k in s {
      assert k in SortedKeys(s) <==> k in multiset(SortedKeys(s));
      assert k in s <==> k in multiset(s);
    }
  }
}
