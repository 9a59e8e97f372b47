/** Snapshots, their sketch objects and the sketch pool, with the sharing of objects between them. */
module SnapshotObjects {
  import opened Base
  import opened Snapshots

  class Sketch {
    const precision: nat
    const createdSparse: bool
    var sparse: bool
    var hashes: set<Uint64>

    constructor (precision: nat, sparse: bool)
      ensures this.precision == precision && this.createdSparse == this.sparse == sparse && hashes == {}
    {
      this.precision := precision;
      createdSparse := sparse;
      this.sparse := sparse;
      hashes := {};
    }

    ghost function Value(): SketchValue
      reads this
    {
      SketchValue(precision, hashes)
    }

    /** Nothing to merge is no error; other precisions are. Merging may turn a sketch dense. */
    method Merge(other: Sketch?) returns (ok: bool)
      modifies this
      ensures ok <==> other == null || other.precision == precision
      ensures hashes == if other != null && ok then old(hashes) + old(other.hashes) else old(hashes)
      ensures sparse ==> old(sparse)
    {
      if other == null {
        return true;
      }
      if precision != other.precision {
        return false;
      }
      hashes := hashes + other.hashes;
      var staysSparse: bool := *;
      sparse := sparse && other.sparse && staysSparse;
      ok := true;
    }

    method Clone() returns (c: Sketch)
      ensures fresh(c) && c.Value() == Value() && c.sparse == sparse
    {
      c := new Sketch(precision, createdSparse);
      c.hashes := hashes;
      c.sparse := sparse;
    }

    /** Empties the sketch; one created sparse is sparse again. */
    method Reset()
      modifies this
      ensures hashes == {} && sparse == (old(sparse) || createdSparse)
    {
      hashes := {};
      sparse := sparse || createdSparse;
    }
  }

  datatype SnapshotSketch = SnapshotSketch(values: seq<string>, sketch: Sketch)

  /** The fields a snapshot's generated id is made of. */
  datatype Meta = Meta(labels: map<string, string>, groupBy: seq<string>, interval: int, filter: string)

  /** The object owns its sketch objects: each belongs to one group, and to no other snapshot. */
  class Snapshot {
    var id: string
    var meta: Meta
    var calculateChurn: bool
    var groupLimit: int
    var groupRejectSize: int
    var minCardinality: int
    var sketches: map<Key, SnapshotSketch>
    ghost var owned: set<Sketch>

    constructor ()
      ensures Valid() && owned == {} && id == "" && Content() == EMPTY && meta.labels == map[]
    {
      id := "";
      meta := Meta(map[], [], 0, "");
      calculateChurn, groupLimit, groupRejectSize, minCardinality := false, 0, 0, 0;
      sketches, owned := map[], {};
    }

    ghost predicate Valid()
      reads `sketches, `owned
    {
      && (forall k | k in sketches :: sketches[k].sketch in owned)
      && (forall k, l | k in sketches && l in sketches && k != l :: sketches[k].sketch != sketches[l].sketch)
    }

    ghost function Entries(): map<Key, Entry>
      requires Valid()
      reads `sketches, `owned, owned
    {
      map k | k in sketches :: Entry(sketches[k].values, sketches[k].sketch.Value())
    }

    ghost function Content(): Core
      requires Valid()
      reads `sketches, `calculateChurn, `groupRejectSize, `minCardinality, `owned, owned
    {
      Core(Entries(), calculateChurn, groupRejectSize, minCardinality)
    }

    /** Group limit and description are those of the other snapshot, with its labels over the given ones. */
    ghost predicate TakenOver(other: Snapshot, labels: map<string, string>)
      reads `groupLimit, `meta, other`groupLimit, other`meta
    {
      groupLimit == other.groupLimit && meta == other.meta.(labels := labels + other.meta.labels)
    }

    /** Merges a sketch into the one kept for the group; the other groups keep theirs. */
    method MergeKept(key: Key, sketch: Sketch)
      requires Valid() && key in sketches && sketch !in owned
      modifies sketches[key].sketch
      ensures Entries() == old(Entries())[key := Entry(sketches[key].values,
                                                       Merged(old(sketches[key].sketch.Value()), sketch.Value()))]
    {
      var ok := sketches[key].sketch.Merge(sketch);
      forall k | k in sketches && k != key ensures sketches[k].sketch.Value() == old(sketches[k].sketch.Value()) {
        assert sketches[k].sketch != sketches[key].sketch;
      }
    }

    /** Keeps a clone for a group not seen before. */
    method KeepClone(key: Key, entry: SnapshotSketch)
      requires Valid() && key !in sketches
      modifies `sketches, `owned
      ensures Valid() && fresh(owned - old(owned)) && old(owned) <= owned
      ensures Entries() == old(Entries())[key := Entry(entry.values, entry.sketch.Value())]
    {
      var clone := entry.sketch.Clone();
      KeepSketch(key, SnapshotSketch(entry.values, clone));
    }

    /** Keeps a sketch that belongs to nobody yet. */
    method KeepSketch(key: Key, entry: SnapshotSketch)
      requires Valid() && key !in sketches && entry.sketch !in owned
      modifies `sketches, `owned
      ensures Valid() && owned == old(owned) + {entry.sketch}
      ensures Entries() == old(Entries())[key := Entry(entry.values, entry.sketch.Value())]
    {
      ghost var before := Entries();
      sketches := sketches[key := entry];
      owned := owned + {entry.sketch};
      forall k | k in before ensures Entries()[k] == before[k] {
        assert sketches[k] == old(sketches)[k];
      }
    }

    /** Takes over one group of another snapshot: merged into the sketch kept, or cloned. */
    method MergeEntry(key: Key, entry: SnapshotSketch)
      requires Valid() && entry.sketch !in owned
      modifies `sketches, `owned, owned
      ensures Valid() && fresh(owned - old(owned)) && old(owned) <= owned
      ensures Entries() == MergedEntries(old(Entries()), map[key := Entry(entry.values, entry.sketch.Value())])
    {
      MergedOne(Entries(), key, Entry(entry.values, entry.sketch.Value()));
      if key in sketches {
        MergeKept(key, entry.sketch);
      } else {
        KeepClone(key, entry);
      }
    }

    /** Takes over one more group of a snapshot of which the remaining ones are still to come. */
    method MergeNext(other: Snapshot, key: Key, ghost before: map<Key, Entry>, ghost remaining: set<Key>)
      requires Valid() && other.Valid() && other != this && owned !! other.owned
      requires key in other.sketches && key !in remaining
      requires Entries() == MergedEntries(before, Without(other.Entries(), remaining + {key}))
      modifies `sketches, `owned, owned
      ensures Valid() && fresh(owned - old(owned)) && old(owned) <= owned
      ensures other.Entries() == old(other.Entries())
      ensures Entries() == MergedEntries(before, Without(other.Entries(), remaining))
    {
      ghost var soFar, theirs := Entries(), other.Entries();
      MergeEntry(key, other.sketches[key]);
      MergeOneMore(before, theirs, soFar, remaining, key);
    }

    /** Merges all groups of another snapshot, visiting them in any order. */
    method MergeSketches(other: Snapshot)
      requires Valid() && other.Valid() && other != this && owned !! other.owned
      modifies `sketches, `owned, owned
      ensures Valid() && fresh(owned - old(owned)) && old(owned) <= owned
      ensures Entries() == MergedEntries(old(Entries()), old(other.Entries()))
    {
      var remaining := other.sketches.Keys;
      ghost var before, theirs := Entries(), other.Entries();
      NothingMerged(before, theirs);
      while remaining != {}
        invariant remaining <= other.sketches.Keys
        invariant Valid() && fresh(owned - old(owned)) && old(owned) <= owned
        invariant other.Entries() == theirs
        invariant Entries() == MergedEntries(before, Without(theirs, remaining))
      {
        var key :| key in remaining;
        assert remaining - {key} + {key} == remaining;
        remaining := remaining - {key};
        MergeNext(other, key, before, remaining);
      }
      AllMerged(theirs);
    }

    method MergeFields(other: Snapshot)
      requires other != this
      modifies `id, `meta, `calculateChurn, `groupLimit, `groupRejectSize, `minCardinality
      ensures id == other.id && groupLimit == MergedLimit(old(groupLimit), other.groupLimit)
      ensures meta == other.meta.(labels := old(meta.labels) + other.meta.labels)
      ensures calculateChurn == (old(calculateChurn) || other.calculateChurn)
      ensures groupRejectSize == old(groupRejectSize) + other.groupRejectSize
      ensures minCardinality == MergedMinCardinality(old(minCardinality), other.minCardinality)
    {
      if minCardinality < 0 || other.minCardinality < 0 {
        minCardinality := -1;
      } else if minCardinality < other.minCardinality {
        minCardinality := other.minCardinality;
      }
      id := other.id;
      calculateChurn := calculateChurn || other.calculateChurn;
      meta := Meta(meta.labels + other.meta.labels, other.meta.groupBy, other.meta.interval, other.meta.filter);
      groupLimit := other.groupLimit;
      groupRejectSize := groupRejectSize + other.groupRejectSize;
    }

    /** The program panics on snapshots of different ids. */
    method Merge(other: Snapshot)
      requires Valid() && other.Valid() && other != this && owned !! other.owned
      requires id == "" || id == other.id
      modifies this, owned
      ensures Valid() && owned !! other.owned && fresh(owned - old(owned)) && old(owned) <= owned
      ensures Content() == MergedCore(old(Content()), old(other.Content()))
      ensures id == other.id && groupLimit == MergedLimit(old(groupLimit), other.groupLimit)
      ensures meta == other.meta.(labels := old(meta.labels) + other.meta.labels)
    {
      ghost var mine, theirs := Content(), other.Content();
      MergeSketches(other);
      MergeFields(other);
      assert Content() == MergedCore(mine, theirs);
    }

    /** Makes the snapshot ready to be decoded into again. */
    method Reset()
      modifies this
      ensures Valid() && owned == {} && id == "" && Content() == EMPTY && groupLimit == 0
      ensures meta == Meta(map[], [], 0, "")
    {
      id := "";
      meta := Meta(map[], [], 0, "");
      calculateChurn, groupLimit, groupRejectSize, minCardinality := false, 0, 0, 0;
      sketches, owned := map[], {};
    }
  }

  ghost function Without(entries: map<Key, Entry>, keys: set<Key>): map<Key, Entry> {
    map k | k in entries && k !in keys :: entries[k]
  }

  lemma NothingMerged(before: map<Key, Entry>, theirs: map<Key, Entry>)
    ensures MergedEntries(before, Without(theirs, theirs.Keys)) == before
  {
  }

  lemma AllMerged(theirs: map<Key, Entry>)
    ensures Without(theirs, {}) == theirs
  {
  }

  lemma MergedOne(entries: map<Key, Entry>, key: Key, e: Entry)
    ensures MergedEntries(entries, map[key := e])
            == entries[key :=
                 if key in entries then entries[key].(sketch := Merged(entries[key].sketch, e.sketch)) else e]
  {
  }

  lemma MergedExtra(entries: map<Key, Entry>, other: map<Key, Entry>, key: Key, e: Entry)
    requires key !in other
    ensures MergedEntries(entries, other[key := e])
            == MergedEntries(entries, other)[key :=
                 if key in entries then entries[key].(sketch := Merged(entries[key].sketch, e.sketch)) else e]
  {
  }

  lemma MergeOneMore(before: map<Key, Entry>, theirs: map<Key, Entry>, soFar: map<Key, Entry>, remaining: set<Key>,
                     key: Key)
    requires key in theirs && key !in remaining
    requires soFar == MergedEntries(before, Without(theirs, remaining + {key}))
    ensures MergedEntries(soFar, map[key := theirs[key]]) == MergedEntries(before, Without(theirs, remaining))
  {
    assert Without(theirs, remaining) == Without(theirs, remaining + {key})[key := theirs[key]];
    MergedExtra(before, Without(theirs, remaining + {key}), key, theirs[key]);
    MergedOne(soFar, key, theirs[key]);
  }

  /** The merged snapshots, one per id, filled while the nodes answer. */
  class Collection {
    var m: map<string, Snapshot>
    const idOf: Meta -> string  // the id generated for snapshots that carry none

    constructor (idOf: Meta -> string)
      ensures Valid() && this.idOf == idOf && m == map[]
    {
      this.idOf := idOf;
      m := map[];
    }

    /** Different ids have different snapshots, and these share no sketch object. */
    ghost predicate Valid()
      reads this, m.Values
    {
      && (forall i | i in m :: m[i].id == i && m[i].Valid())
      && (forall i, j | i in m && j in m && i != j :: m[i] != m[j] && m[i].owned !! m[j].owned)
    }

    /** The snapshot shares nothing with the collected ones. */
    ghost predicate Apart(s: Snapshot)
      reads this, m.Values, s
    {
      forall i | i in m :: m[i] != s && m[i].owned !! s.owned
    }

    method MergeKnown(newS: Snapshot)
      requires Valid() && newS.Valid() && Apart(newS) && newS.id in m
      modifies m[newS.id], m[newS.id].owned
      ensures Valid() && Apart(newS)
      ensures m[newS.id].Content() == MergedCore(old(m[newS.id].Content()), newS.Content())
      ensures m[newS.id].TakenOver(newS, old(m[newS.id].meta.labels))
    {
      MergeInto(m[newS.id], newS);
    }

    /** One of the kept snapshots takes over another one; it still shares nothing with the rest. */
    method MergeInto(s: Snapshot, newS: Snapshot)
      requires Valid() && newS.Valid() && Apart(newS) && s.id in m && m[s.id] == s && s.id == newS.id
      modifies s, s.owned
      ensures Valid() && Apart(newS) && s.Content() == MergedCore(old(s.Content()), newS.Content())
      ensures s.TakenOver(newS, old(s.meta.labels))
    {
      ghost var mine, theirs := s.Content(), newS.Content();
      s.Merge(newS);
      assert s.Content() == MergedCore(mine, theirs) && newS.Content() == theirs;
    }

    static method FreshMerge(newS: Snapshot) returns (s: Snapshot)
      requires newS.Valid()
      ensures fresh(s) && fresh(s.owned) && s.Valid() && s.id == newS.id
      ensures s.Content() == MergedCore(EMPTY, newS.Content()) && s.TakenOver(newS, map[])
    {
      s := new Snapshot();
      s.Merge(newS);
    }

    /** A fresh snapshot shares nothing with what is kept or with the one it was merged from. */
    method MergeFresh(newS: Snapshot) returns (s: Snapshot)
      requires Valid() && newS.Valid() && Apart(newS)
      ensures s.Valid() && s.id == newS.id && s.Content() == MergedCore(EMPTY, newS.Content())
      ensures Apart(s) && s != newS && s.owned !! newS.owned && s.TakenOver(newS, map[])
    {
      s := FreshMerge(newS);
    }

    method Install(s: Snapshot, ghost newS: Snapshot)
      requires Valid() && s.Valid() && Apart(s) && s.id !in m
      requires newS.Valid() && Apart(newS) && s != newS && s.owned !! newS.owned
      modifies this
      ensures Valid() && Apart(newS) && m == old(m)[s.id := s]
      ensures s.Valid() && s.id == old(s.id) && s.Content() == old(s.Content())
      ensures newS.Valid() && newS.id == old(newS.id) && newS.Content() == old(newS.Content())
      ensures old(s.TakenOver(newS, map[])) ==> s.TakenOver(newS, map[])
    {
      m := m[s.id := s];
    }

    method KeepNew(newS: Snapshot)
      requires Valid() && newS.Valid() && Apart(newS) && newS.id !in m
      modifies this
      ensures Valid() && Apart(newS)
      ensures newS.id in m && m == old(m)[newS.id := m[newS.id]]
      ensures m[newS.id].Content() == MergedCore(EMPTY, newS.Content()) && m[newS.id].TakenOver(newS, map[])
    {
      var s := MergeFresh(newS);
      ghost var merged := s.Content();
      Install(s, newS);
      assert s.Content() == merged;
    }

    /** The id a snapshot is filed under; older versions send none and it is generated. */
    function IdFor(newS: Snapshot): string
      reads newS
    {
      if newS.id == "" then idOf(newS.meta) else newS.id
    }

    /** The objects kept for an id. */
    ghost function Kept(id: string): set<object>
      reads this, m.Values
    {
      if id in m then {m[id]} + m[id].owned else {}
    }

    ghost function ContentFor(id: string): Core
      requires Valid()
      reads this, m.Values, Kept(id)
    {
      if id in m then m[id].Content() else EMPTY
    }

    /** The labels of the snapshot kept for an id. */
    ghost function LabelsFor(id: string): map<string, string>
      reads this, m.Values
    {
      if id in m then m[id].meta.labels else map[]
    }

    method EnsureId(newS: Snapshot)
      requires Valid() && newS.Valid() && Apart(newS)
      modifies newS`id
      ensures Valid() && newS.Valid() && Apart(newS)
      ensures newS.id == old(IdFor(newS))
      ensures ContentFor(newS.id) == old(ContentFor(IdFor(newS)))
      ensures LabelsFor(newS.id) == old(LabelsFor(IdFor(newS)))
    {
      newS.id := IdFor(newS);
    }

    method AddNamed(newS: Snapshot)
      requires Valid() && newS.Valid() && Apart(newS)
      modifies this, Kept(newS.id)
      ensures Valid() && Apart(newS) && m.Keys == old(m.Keys) + {newS.id}
      ensures forall i | i in old(m) :: m[i] == old(m[i])
      ensures ContentFor(newS.id) == MergedCore(old(ContentFor(newS.id)), newS.Content())
      ensures m[newS.id].TakenOver(newS, old(LabelsFor(newS.id)))
    {
      if newS.id in m {
        MergeKnown(newS);
      } else {
        KeepNew(newS);
      }
    }

    /** Merges an arriving snapshot into the one kept for its id. Nothing of the arriving snapshot
        is kept, so its buffer may be decoded into again; what is kept for other ids is not touched. */
    method Add(newS: Snapshot)
      requires Valid() && newS.Valid() && Apart(newS)
      modifies this, newS`id, Kept(IdFor(newS))
      ensures Valid() && newS.Valid() && Apart(newS)
      ensures newS.id == old(IdFor(newS)) && m.Keys == old(m.Keys) + {newS.id}
      ensures forall i | i in old(m) :: m[i] == old(m[i])
      ensures ContentFor(newS.id) == MergedCore(old(ContentFor(IdFor(newS))), newS.Content())
      ensures m[newS.id].TakenOver(newS, old(LabelsFor(IdFor(newS))))
    {
      EnsureId(newS);
      AddNamed(newS);
    }
  }

  /* The pool */

  class SketchesPool {
    const precision: nat
    var sparseSketches: seq<Sketch>
    var denseSketches: seq<Sketch>

    ghost function Pooled(): set<Sketch>
      reads this
    {
      (set sk | sk in sparseSketches) + (set sk | sk in denseSketches)
    }

    /** Pooled sketches are empty, of the pool's precision, and no object is pooled twice. */
    ghost predicate Valid()
      reads this, Pooled()
    {
      && (forall sk | sk in Pooled() :: sk.precision == precision && sk.hashes == {})
      && (forall sk | sk in sparseSketches :: sk.sparse)
      && (forall sk | sk in denseSketches :: !sk.sparse && !sk.createdSparse)
      && (forall i, j | 0 <= i < j < |sparseSketches| :: sparseSketches[i] != sparseSketches[j])
      && (forall i, j | 0 <= i < j < |denseSketches| :: denseSketches[i] != denseSketches[j])
    }

    constructor (precision: nat, size: nat)
      ensures Valid() && fresh(Pooled()) && this.precision == precision && |sparseSketches| == size
    {
      this.precision := precision;
      sparseSketches, denseSketches := [], [];
      new;
      for i := 0 to size
        invariant Valid() && fresh(Pooled()) && |sparseSketches| == i && denseSketches == []
      {
        var sk := new Sketch(precision, true);
        sparseSketches := sparseSketches + [sk];
      }
    }

    method GetSparse() returns (sk: Sketch)
      requires Valid()
      modifies this
      ensures Valid() && sk !in Pooled() && Pooled() <= old(Pooled())
      ensures sk in old(Pooled()) || fresh(sk)
      ensures sk.hashes == {} && sk.precision == precision && sk.sparse
      ensures old(Pooled()) <= Pooled() + {sk}
    {
      var n := |sparseSketches|;
      if n == 0 {
        sk := new Sketch(precision, true);
        return;
      }
      sk := sparseSketches[n - 1];
      assert sparseSketches == sparseSketches[..n - 1] + [sk];
      sparseSketches := sparseSketches[..n - 1];
    }

    method GetDense() returns (sk: Sketch)
      requires Valid()
      modifies this
      ensures Valid() && sk !in Pooled() && Pooled() <= old(Pooled())
      ensures sk in old(Pooled()) || fresh(sk)
      ensures sk.hashes == {} && sk.precision == precision && !sk.sparse
      ensures old(Pooled()) <= Pooled() + {sk}
    {
      var n := |denseSketches|;
      if n == 0 {
        sk := new Sketch(precision, false);
        return;
      }
      sk := denseSketches[n - 1];
      assert denseSketches == denseSketches[..n - 1] + [sk];
      denseSketches := denseSketches[..n - 1];
    }

    /** An empty sketch of the same form as the other one, owned by the caller alone. */
    method GetForMerge(other: Sketch) returns (sk: Sketch)
      requires Valid()
      modifies this
      ensures Valid() && sk !in Pooled() && Pooled() <= old(Pooled()) <= Pooled() + {sk}
      ensures sk in old(Pooled()) || fresh(sk)
      ensures sk.hashes == {} && sk.precision == precision && sk.sparse == other.sparse
    {
      if other.sparse {
        sk := GetSparse();
      } else {
        sk := GetDense();
      }
    }

    /** The caller gives its sketch up; the pool empties it. */
    method Put(sk: Sketch)
      requires Valid() && sk !in Pooled() && sk.precision == precision
      modifies this, sk
      ensures Valid() && Pooled() == old(Pooled()) + {sk}
    {
      sk.Reset();
      if sk.sparse {
        sparseSketches := sparseSketches + [sk];
      } else {
        denseSketches := denseSketches + [sk];
      }
    }
  }
}
