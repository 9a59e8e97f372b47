/** The identity string of an estimator, under which nodes recognise each other's snapshots. */
module EstimatorId {
  import opened Strings

  const GLOBAL := "__global__"

  function Join(names: seq<string>): string {
    if names == [] then ""
    else if |names| == 1 then names[0]
    else names[0] + "," + Join(names[1..])
  }

  function GroupByKey(groupBy: seq<string>): string {
    if groupBy == [] then GLOBAL else Join(groupBy)
  }

  function LabelsText(keys: seq<string>, labels: map<string, string>): string
    requires forall k | k in keys :: k in labels
  {
    if keys == [] then "" else keys[0] + "=" + labels[keys[0]] + "\0" + LabelsText(keys[1..], labels)
  }

  function LabelsKey(labels: map<string, string>): string {
    SortedKeysMembers(labels.Keys);
    LabelsText(SortedKeys(labels.Keys), labels)
  }

  function Id(labels: map<string, string>, groupBy: seq<string>, interval: string, filter: string): string {
    "\0labels=" + (LabelsKey(labels)
                   + "\0group_by=" + (GroupByKey(groupBy) + "\0interval=" + (interval + "\0filter=" + filter)))
  }

  lemma {:induction false} LabelsTextSnoc(keys: seq<string>, k: string, labels: map<string, string>)
    requires forall x | x in keys + [k] :: x in labels
    ensures LabelsText(keys + [k], labels) == LabelsText(keys, labels) + (k + "=" + labels[k] + "\0")
  {
    var more := keys + [k];
    if keys == [] {
      assert more[1..] == [];
      assert LabelsText(more, labels) == k + "=" + labels[k] + "\0" + "";
    } else {
      assert more[1..] == keys[1..] + [k];
      LabelsTextSnoc(keys[1..], k, labels);
      var head, last := keys[0] + "=" + labels[keys[0]] + "\0", k + "=" + labels[k] + "\0";
      var tail := LabelsText(keys[1..], labels);
      assert head + (tail + last) == (head + tail) + last;
    }
  }

  /** The label names in whatever order the map yields them. */
  method CollectKeys(labels: map<string, string>) returns (keys: seq<string>)
    ensures multiset(keys) == multiset(labels.Keys)
  {
    keys := [];
    var todo := labels.Keys;
    while todo != {}
      invariant todo <= labels.Keys && multiset(keys) + multiset(todo) == multiset(labels.Keys)
    {
      var k :| k in todo;
      keys, todo := keys + [k], todo - {k};
    }
  }

  method WriteLabel(written: string, keys: seq<string>, i: nat, labels: map<string, string>) returns (more: string)
    requires i < |keys| && (forall k | k in keys :: k in labels) && written == LabelsText(keys[..i], labels)
    ensures more == LabelsText(keys[..i + 1], labels)
  {
    LabelsTextSnoc(keys[..i], keys[i], labels);
    assert keys[..i + 1] == keys[..i] + [keys[i]];
    more := written + (keys[i] + "=" + labels[keys[i]] + "\0");
  }

  /** Sorts the names and writes each with its value, closed by NUL. */
  method WriteLabels(labels: map<string, string>) returns (labelsKey: string)
    ensures labelsKey == LabelsKey(labels)
  {
    var keys := CollectKeys(labels);
    SortedKeysOf(labels.Keys, keys);
    SortedKeysMembers(labels.Keys);
    keys := Sort(keys);
    labelsKey := "";
    var i := 0;
    while i < |keys|
      invariant 0 <= i <= |keys| && labelsKey == LabelsText(keys[..i], labels)
    {
      labelsKey := WriteLabel(labelsKey, keys, i, labels);
      i := i + 1;
    }
    assert keys[..i] == keys;
  }

  /** The identity does not depend on the order in which the label map is ranged over. */
  method EstimatorID(labels: map<string, string>, groupBy: seq<string>, interval: string, filter: string)
    returns (id: string)
    ensures id == Id(labels, groupBy, interval, filter)
  {
    var groupByKey := GLOBAL;
    if |groupBy| > 0 {
      groupByKey := Join(groupBy);
    }
    var labelsKey := WriteLabels(labels);
    id := "\0labels=" + (labelsKey + "\0group_by=" + (groupByKey + "\0interval=" + (interval + "\0filter=" + filter)));
  }

  /* When the string identifies its parts */

  ghost predicate CleanLabels(labels: map<string, string>) {
    forall k | k in labels :: '=' !in k && '\0' !in k && '\0' !in labels[k]
  }

  ghost predicate CleanGroupBy(groupBy: seq<string>) {
    && (forall g | g in groupBy :: ',' !in g && '\0' !in g)
    && groupBy != [GLOBAL]
  }

  /** A text cut at the first occurrence of a character is cut in one way. */
  lemma FirstCut(a: string, b: string, c: char, x: string, y: string)
    requires c !in a && c !in b && a + [c] + x == b + [c] + y
    ensures a == b && x == y
  {
    var s, t := a + [c] + x, b + [c] + y;
    assert s[|a|] == c && t[|b|] == c;
    assert |a| == |b|;
    assert s[..|a|] == a && t[..|b|] == b;
    assert s[|a| + 1..] == x && t[|b| + 1..] == y;
  }

  /** A text that goes on with a given suffix is cut there in one way if it has no NUL itself. */
  lemma CutAt(a: string, b: string, mark: string, x: string, y: string)
    requires mark != [] && mark[0] !in a && mark[0] !in b && a + mark + x == b + mark + y
    ensures a == b && x == y
  {
    assert a + mark + x == a + [mark[0]] + (mark[1..] + x);
    assert b + mark + y == b + [mark[0]] + (mark[1..] + y);
    FirstCut(a, b, mark[0], mark[1..] + x, mark[1..] + y);
    assert (mark[1..] + x)[|mark| - 1..] == x && (mark[1..] + y)[|mark| - 1..] == y;
  }

  ghost predicate CleanKeys(keys: seq<string>, labels: map<string, string>) {
    forall k | k in keys :: k in labels && '=' !in k && '\0' !in k && '\0' !in labels[k]
  }

  lemma CutLabel(k: string, v: string, r: string, l: string, w: string, t: string)
    requires '=' !in k && '\0' !in v && '=' !in l && '\0' !in w
    requires k + "=" + v + "\0" + r == l + "=" + w + "\0" + t
    ensures k == l && v == w && r == t
  {
    assert k + "=" + v + "\0" + r == k + "=" + (v + "\0" + r);
    assert l + "=" + w + "\0" + t == l + "=" + (w + "\0" + t);
    FirstCut(k, l, '=', v + "\0" + r, w + "\0" + t);
    FirstCut(v, w, '\0', r, t);
  }

  /** The label part ends where an entry would have to start with NUL. */
  lemma {:induction false} LabelsDecode(a: seq<string>, m: map<string, string>, x: string,
                                        b: seq<string>, n: map<string, string>, y: string)
    requires CleanKeys(a, m) && CleanKeys(b, n)
    requires LabelsText(a, m) + "\0" + x == LabelsText(b, n) + "\0" + y
    ensures a == b && x == y && forall k | k in a :: m[k] == n[k]
    decreases |a|
  {
    if a == [] || b == [] {
      EmptyOrNot(a, m, x);
      EmptyOrNot(b, n, y);
      assert ("" + "\0" + x)[1..] == x && ("" + "\0" + y)[1..] == y;
    } else {
      var k, l := a[0], b[0];
      assert k in a && l in b;
      var r, t := LabelsText(a[1..], m) + "\0" + x, LabelsText(b[1..], n) + "\0" + y;
      assert LabelsText(a, m) + "\0" + x == k + "=" + m[k] + "\0" + r;
      assert LabelsText(b, n) + "\0" + y == l + "=" + n[l] + "\0" + t;
      CutLabel(k, m[k], r, l, n[l], t);
      LabelsDecode(a[1..], m, x, b[1..], n, y);
      assert a == [k] + a[1..] && b == [l] + b[1..];
    }
  }

  /** The text goes on with NUL exactly if there is no entry left. */
  lemma EmptyOrNot(a: seq<string>, m: map<string, string>, x: string)
    requires CleanKeys(a, m)
    ensures (LabelsText(a, m) + "\0" + x)[0] == '\0' <==> a == []
  {
    if a != [] {
      assert a[0] in a;
      var text := a[0] + "=" + m[a[0]] + "\0" + LabelsText(a[1..], m) + "\0" + x;
      assert text[0] == if a[0] == [] then '=' else a[0][0];
    }
  }

  lemma {:induction false} JoinDecode(a: seq<string>, b: seq<string>)
    requires a != [] && b != [] && Join(a) == Join(b)
    requires forall g | g in a + b :: ',' !in g
    ensures a == b
    decreases |a|
  {
    assert a[0] in a + b && b[0] in a + b;
    if |a| == 1 || |b| == 1 {
      CommaOrNot(a);
      CommaOrNot(b);
      assert a == [a[0]] && b == [b[0]];
    } else {
      assert Join(a) == a[0] + [','] + Join(a[1..]) && Join(b) == b[0] + [','] + Join(b[1..]);
      FirstCut(a[0], b[0], ',', Join(a[1..]), Join(b[1..]));
      assert forall g | g in a[1..] + b[1..] :: g in a + b;
      JoinDecode(a[1..], b[1..]);
      assert a == [a[0]] + a[1..] && b == [b[0]] + b[1..];
    }
  }

  lemma CommaOrNot(a: seq<string>)
    requires a != [] && ',' !in a[0]
    ensures ',' in Join(a) <==> |a| > 1
  {
    if |a| > 1 {
      assert Join(a)[|a[0]|] == ',';
    }
  }

  lemma {:induction false} JoinHasNoNul(a: seq<string>)
    requires forall g | g in a :: '\0' !in g
    ensures '\0' !in Join(a)
  {
    if a != [] {
      assert a[0] in a;
      JoinHasNoNul(a[1..]);
    }
  }

  lemma JoinsToGlobal(a: seq<string>)
    requires a != [] && (forall g | g in a :: ',' !in g) && Join(a) == GLOBAL
    ensures a == [GLOBAL]
  {
    assert a[0] in a;
    CommaOrNot(a);
  }

  lemma GroupByDecode(a: seq<string>, b: seq<string>)
    requires CleanGroupBy(a) && CleanGroupBy(b) && GroupByKey(a) == GroupByKey(b)
    ensures a == b
  {
    if a != [] && b != [] {
      JoinDecode(a, b);
    } else if a != [] {
      JoinsToGlobal(a);
    } else if b != [] {
      JoinsToGlobal(b);
    }
  }

  lemma GroupByHasNoNul(a: seq<string>)
    requires CleanGroupBy(a)
    ensures '\0' !in GroupByKey(a)
  {
    JoinHasNoNul(a);
  }

  /** The rest of the string after its labels determines group-by, interval and filter. */
  lemma TailDecode(g: seq<string>, i: string, f: string, g': seq<string>, i': string, f': string)
    requires CleanGroupBy(g) && CleanGroupBy(g') && '\0' !in i && '\0' !in i'
    requires GroupByKey(g) + "\0interval=" + (i + "\0filter=" + f)
          == GroupByKey(g') + "\0interval=" + (i' + "\0filter=" + f')
    ensures g == g' && i == i' && f == f'
  {
    GroupByHasNoNul(g);
    GroupByHasNoNul(g');
    CutAt(GroupByKey(g), GroupByKey(g'), "\0interval=", i + "\0filter=" + f, i' + "\0filter=" + f');
    GroupByDecode(g, g');
    CutAt(i, i', "\0filter=", f, f');
  }

  lemma StripLabels(a: string, x: string, b: string, y: string)
    requires "\0labels=" + (a + "\0group_by=" + x) == "\0labels=" + (b + "\0group_by=" + y)
    ensures a + "\0" + ("group_by=" + x) == b + "\0" + ("group_by=" + y)
  {
    assert ("\0labels=" + (a + "\0group_by=" + x))[8..] == a + "\0group_by=" + x;
    assert ("\0labels=" + (b + "\0group_by=" + y))[8..] == b + "\0group_by=" + y;
    assert a + "\0group_by=" + x == a + "\0" + ("group_by=" + x);
    assert b + "\0group_by=" + y == b + "\0" + ("group_by=" + y);
  }

  /** The label map is given back by its sorted names and their values. */
  lemma {:induction false} SameMap(m: map<string, string>, m': map<string, string>)
    requires SortedKeys(m.Keys) == SortedKeys(m'.Keys)
    requires forall k | k in SortedKeys(m.Keys) :: k in m && k in m' && m[k] == m'[k]
    ensures m == m'
  {
    SortedKeysMembers(m.Keys);
    SortedKeysMembers(m'.Keys);
    assert m.Keys == m'.Keys;
  }

  /** The whole string splits into its label part and the rest. */
  lemma IdDecode(m: map<string, string>, x: string, m': map<string, string>, y: string)
    requires CleanLabels(m) && CleanLabels(m')
    requires "\0labels=" + (LabelsKey(m) + "\0group_by=" + x) == "\0labels=" + (LabelsKey(m') + "\0group_by=" + y)
    ensures m == m' && x == y
  {
    StripLabels(LabelsKey(m), x, LabelsKey(m'), y);
    SortedKeysMembers(m.Keys);
    SortedKeysMembers(m'.Keys);
    LabelsDecode(SortedKeys(m.Keys), m, "group_by=" + x, SortedKeys(m'.Keys), m', "group_by=" + y);
    SameMap(m, m');
    SameSuffix("group_by=", x, y);
  }

  lemma SameSuffix(p: string, x: string, y: string)
    requires p + x == p + y
    ensures x == y
  {
    assert (p + x)[|p|..] == x && (p + y)[|p|..] == y;
  }

  /** With clean names and values, the identity determines labels, group-by, interval and filter.
      The interval is given as it is formatted. */
  lemma IdIsInjective(m: map<string, string>, g: seq<string>, i: string, f: string,
                      m': map<string, string>, g': seq<string>, i': string, f': string)
    requires CleanLabels(m) && CleanLabels(m') && CleanGroupBy(g) && CleanGroupBy(g')
    requires '\0' !in i && '\0' !in i'
    ensures Id(m, g, i, f) == Id(m', g', i', f') <==> m == m' && g == g' && i == i' && f == f'
  {
    if Id(m, g, i, f) == Id(m', g', i', f') {
      IdDecode(m, GroupByKey(g) + "\0interval=" + (i + "\0filter=" + f),
               m', GroupByKey(g') + "\0interval=" + (i' + "\0filter=" + f'));
      TailDecode(g, i, f, g', i', f');
    }
  }

  /* Each condition is needed */

  lemma OneKey(k: string)
    ensures SortedKeys({k}) == [k]
  {
    SortedKeysOf({k}, [k]);
    assert Sort([k]) == Placed(k, Sort([k][1..]));
    assert [k][1..] == [];
  }

  lemma OneLabel(k: string, v: string)
    ensures LabelsKey(map[k := v]) == k + "=" + v + "\0"
  {
    OneKey(k);
    assert map[k := v].Keys == {k};
    assert [k][1..] == [];
    assert LabelsText([k], map[k := v]) == k + "=" + v + "\0" + "";
  }

  /** An equals sign in a name moves the border between name and value. */
  lemma {:induction false} EqualsInNameCollides(g: seq<string>, i: string, f: string)
    ensures Id(map["a=b" := "c"], g, i, f) == Id(map["a" := "b=c"], g, i, f)
    ensures map["a=b" := "c"] != map["a" := "b=c"]
  {
    OneLabel("a=b", "c");
    OneLabel("a", "b=c");
    assert "a=b" + "=" + "c" + "\0" == "a" + "=" + "b=c" + "\0";
    assert "a" !in map["a=b" := "c"];
  }

  lemma TwoKeys(k: string, l: string)
    requires k != l && Leq(k, l)
    ensures SortedKeys({k, l}) == [k, l]
  {
    assert multiset([k, l]) == multiset({k, l});
    SortedKeysOf({k, l}, [k, l]);
    SortIsIdempotent([k, l]);
  }

  lemma TwoLabels(k: string, v: string, l: string, w: string)
    requires k != l && Leq(k, l)
    ensures LabelsKey(map[k := v, l := w]) == k + "=" + v + "\0" + (l + "=" + w + "\0")
  {
    var m := map[k := v, l := w];
    TwoKeys(k, l);
    assert m.Keys == {k, l};
    LabelsTextSnoc([], k, m);
    LabelsTextSnoc([k], l, m);
    assert [] + [k] == [k] && [k] + [l] == [k, l];
    assert "" + (k + "=" + v + "\0") == k + "=" + v + "\0";
  }

  /** A NUL in a value can pose as the start of another label. */
  lemma {:induction false} NulInValueCollides(g: seq<string>, i: string, f: string)
    ensures Id(map["a" := "x\0b=y"], g, i, f) == Id(map["a" := "x", "b" := "y"], g, i, f)
  {
    OneLabel("a", "x\0b=y");
    TwoLabels("a", "x", "b", "y");
    assert "a" + "=" + "x\0b=y" + "\0" == "a" + "=" + "x" + "\0" + ("b" + "=" + "y" + "\0");
  }

  /** A comma in a group-by name, and the reserved name, collide as well. */
  lemma CommaOrGlobalCollides(m: map<string, string>, i: string, f: string)
    ensures Id(m, ["a,b"], i, f) == Id(m, ["a", "b"], i, f)
    ensures Id(m, [GLOBAL], i, f) == Id(m, [], i, f)
  {
    assert ["a", "b"][1..] == ["b"];
    assert Join(["a", "b"]) == "a" + "," + "b";
    assert Join(["a", "b"]) == "a,b";
  }
}
