/** One Bloom filter of the deduplicator, used by one thread at a time.

    A 64-bit word of the bit array is the set of its bits: `w & (1 << bit)` is non-zero exactly when
    the set has the bit, and `w | (1 << bit)` adds it. */
module Bloom {
  import opened Base

  type Word = set<nat>

  const HASHES_COUNT: nat := 4
  const BITS_PER_ITEM: nat := 16

  /** The i-th bit index of a hash: 64-bit arithmetic on its two 32-bit halves. */
  function Position(h: Uint64, i: nat, maxBits: nat): (p: nat)
    requires 0 < maxBits
    ensures p < maxBits
  {
    (h % TWO_TO_THE_32 + i * (h / TWO_TO_THE_32)) % TWO_TO_THE_64 % maxBits
  }

  /** The 64-bit sum never wraps, so the index is the true remainder. */
  lemma PositionDoesNotOverflow(h: Uint64, i: nat, maxBits: nat)
    requires 0 < maxBits && i < HASHES_COUNT
    ensures Position(h, i, maxBits) == (h % TWO_TO_THE_32 + i * (h / TWO_TO_THE_32)) % maxBits
  {
    assert h / TWO_TO_THE_32 < TWO_TO_THE_32;
    assert i * (h / TWO_TO_THE_32) <= 3 * (TWO_TO_THE_32 - 1);
  }

  ghost function Positions(h: Uint64, maxBits: nat): set<nat>
    requires 0 < maxBits
  {
    set i: nat | i < HASHES_COUNT :: Position(h, i, maxBits)
  }

  lemma InPositions(h: Uint64, maxBits: nat, p: nat)
    requires 0 < maxBits
    ensures p in Positions(h, maxBits) <==>
              || p == Position(h, 0, maxBits) || p == Position(h, 1, maxBits)
              || p == Position(h, 2, maxBits) || p == Position(h, 3, maxBits)
  {
    if p in Positions(h, maxBits) {
      var i: nat :| i < HASHES_COUNT && Position(h, i, maxBits) == p;
      assert i == 0 || i == 1 || i == 2 || i == 3;
    }
  }

  /** The four indices of a hash, from its lower and its upper half. */
  lemma PositionsAre(h: Uint64, maxBits: nat, p: nat)
    requires 0 < maxBits
    ensures var low, high := h % 0x1_0000_0000, h / 0x1_0000_0000;
            p in Positions(h, maxBits) <==>
              || p == low % maxBits || p == (low + high) % maxBits
              || p == (low + 2 * high) % maxBits || p == (low + 3 * high) % maxBits
  {
    InPositions(h, maxBits, p);
    PositionDoesNotOverflow(h, 0, maxBits);
    PositionDoesNotOverflow(h, 1, maxBits);
    PositionDoesNotOverflow(h, 2, maxBits);
    PositionDoesNotOverflow(h, 3, maxBits);
  }

  /** Four indices give at most four positions. */
  lemma {:induction false} ImageSize(f: nat -> nat, n: nat)
    ensures |set i: nat | i < n :: f(i)| <= n
  {
    var image := set i: nat | i < n :: f(i);
    if n == 0 {
      assert image == {};
    } else {
      ImageSize(f, n - 1);
      assert image == (set i: nat | i < n - 1 :: f(i)) + {f(n - 1)};
    }
  }

  lemma PositionsSize(h: Uint64, maxBits: nat)
    requires 0 < maxBits
    ensures |Positions(h, maxBits)| <= HASHES_COUNT
  {
    var f: nat -> nat := i => Position(h, i, maxBits);
    ImageSize(f, HASHES_COUNT);
    var image := set i: nat | i < HASHES_COUNT :: f(i);
    forall p ensures p in Positions(h, maxBits) <==> p in image {
      if p in Positions(h, maxBits) {
        var i: nat :| i < HASHES_COUNT && Position(h, i, maxBits) == p;
        assert f(i) == p;
      }
    }
    assert Positions(h, maxBits) == image;
  }

  /** The bits set in an array of words, numbered through: bit p is bit p % 64 of word p / 64. */
  ghost function SetBits(words: seq<Word>): (r: set<nat>)
    ensures forall p :: p in r <==> 0 <= p < 64 * |words| && p % 64 in words[p / 64]
  {
    set p: nat | p < 64 * |words| && p % 64 in words[p / 64]
  }

  lemma SetBitAdds(words: seq<Word>, p: nat)
    requires p < 64 * |words|
    ensures SetBits(words[p / 64 := words[p / 64] + {p % 64}]) == SetBits(words) + {p}
  {
    var after := words[p / 64 := words[p / 64] + {p % 64}];
    forall q: nat ensures q in SetBits(after) <==> q in SetBits(words) || q == p {
      if q / 64 == p / 64 && q % 64 == p % 64 {
        assert q == p;
      }
    }
    assert SetBits(after) == SetBits(words) + {p};
  }

  /** The number of words for maxItems, as the 64-bit arithmetic has it. */
  function WordCount(maxItems: Uint64): nat {
    ((maxItems * BITS_PER_ITEM) % TWO_TO_THE_64 + 63) % TWO_TO_THE_64 / 64
  }

  /** The array has sixteen bits for each item, unless 64-bit arithmetic wraps. */
  lemma WordCountSuffices(maxItems: Uint64)
    requires 0 < maxItems
    ensures maxItems <= TWO_TO_THE_64 / 16 - 4 ==> 16 * maxItems <= 64 * WordCount(maxItems) < 16 * maxItems + 64
    ensures maxItems * 16 + 63 >= TWO_TO_THE_64 ==> 64 * WordCount(maxItems) < 16 * maxItems
  {
  }

  /** The union of the positions of every recorded hash. */
  ghost function AllPositions(recorded: set<Uint64>, maxBits: nat): set<nat>
    requires 0 < maxBits
  {
    set h, p | h in recorded && p in Positions(h, maxBits) :: p
  }

  lemma AllPositionsAdd(recorded: set<Uint64>, h: Uint64, maxBits: nat)
    requires 0 < maxBits
    ensures AllPositions(recorded + {h}, maxBits) == AllPositions(recorded, maxBits) + Positions(h, maxBits)
  {
  }

  class BloomFilter {
    var size: nat
    const bits: array<Word>
    ghost var contents: set<nat>        // the bits that are set
    ghost var recorded: set<Uint64>     // the hashes added

    ghost function MaxBits(): nat { 64 * bits.Length }

    /** The bits are exactly the positions of the recorded hashes, and size brackets their number. */
    ghost predicate Valid()
      reads this, bits
    {
      && 0 < bits.Length
      && contents == SetBits(bits[..]) == AllPositions(recorded, MaxBits())
      && size <= |contents| <= HASHES_COUNT * size
    }

    constructor (maxItems: Uint64)
      requires 0 < WordCount(maxItems)
      ensures Valid() && fresh(bits)
      ensures contents == {} && size == 0 && recorded == {} && bits.Length == WordCount(maxItems)
    {
      bits := new Word[WordCount(maxItems)](_ => {});
      size := 0;
      contents, recorded := {}, {};
      new;
      assert SetBits(bits[..]) == {};
    }

    method TestBit(idx: nat) returns (isSet: bool)
      requires Valid() && idx < MaxBits()
      ensures isSet <==> idx in contents
    {
      isSet := idx % 64 in bits[idx / 64];
    }

    method Contains(h: Uint64) returns (r: bool)
      requires Valid()
      ensures r <==> Positions(h, MaxBits()) <= contents
    {
      var maxBits := 64 * bits.Length;
      for i := 0 to HASHES_COUNT
        invariant forall j: nat | j < i :: Position(h, j, maxBits) in contents
      {
        var idx := Position(h, i, maxBits);
        var isSet := TestBit(idx);
        if !isSet {
          assert idx in Positions(h, maxBits);
          return false;
        }
      }
      return true;
    }

    /** Sets one bit unless it is set already, in which case nothing is written. */
    method SetBit(idx: nat) returns (flipped: bool)
      requires idx < MaxBits()
      modifies bits
      ensures SetBits(bits[..]) == old(SetBits(bits[..])) + {idx}
      ensures flipped <==> idx !in old(SetBits(bits[..]))
    {
      ghost var before := bits[..];
      flipped := idx % 64 !in bits[idx / 64];
      if flipped {
        bits[idx / 64] := bits[idx / 64] + {idx % 64};
        assert bits[..] == before[idx / 64 := before[idx / 64] + {idx % 64}];
      }
      SetBitAdds(before, idx);
      assert !flipped ==> before[idx / 64] + {idx % 64} == before[idx / 64];
    }

    /** Sets the bits of the four positions; reports whether any of them was clear. */
    method SetPositions(h: Uint64) returns (isNew: bool)
      requires 0 < bits.Length
      modifies bits
      ensures SetBits(bits[..]) == old(SetBits(bits[..])) + Positions(h, MaxBits())
      ensures isNew <==> !(Positions(h, MaxBits()) <= old(SetBits(bits[..])))
    {
      var maxBits := 64 * bits.Length;
      isNew := false;
      ghost var added: set<nat> := {};
      for i := 0 to HASHES_COUNT
        invariant added == set j: nat | j < i :: Position(h, j, maxBits)
        invariant SetBits(bits[..]) == old(SetBits(bits[..])) + added
        invariant isNew <==> !(added <= old(SetBits(bits[..])))
      {
        var flipped := SetBit(Position(h, i, maxBits));
        isNew := isNew || flipped;
        added := added + {Position(h, i, maxBits)};
      }
      assert added == Positions(h, maxBits);
    }

    /** Sets the four bits; reports, and counts, whether any of them was clear. */
    method Add(h: Uint64) returns (isNew: bool)
      requires Valid()
      modifies this, bits
      ensures Valid() && recorded == old(recorded) + {h}
      ensures contents == old(contents) + Positions(h, MaxBits())
      ensures isNew <==> !(Positions(h, MaxBits()) <= old(contents))
      ensures size == old(size) + if isNew then 1 else 0
    {
      isNew := SetPositions(h);
      contents := contents + Positions(h, MaxBits());
      recorded := recorded + {h};
      AllPositionsAdd(old(recorded), h, MaxBits());
      PositionsSize(h, MaxBits());
      NewBitsCounted(old(contents), Positions(h, MaxBits()));
      if isNew {
        size := size + 1;
      }
    }
  }

  /** Adding at most four positions, one of them absent, adds between one and four bits. */
  lemma NewBitsCounted(view: set<nat>, added: set<nat>)
    requires |added| <= HASHES_COUNT
    ensures |view| <= |view + added| <= |view| + HASHES_COUNT
    ensures !(added <= view) ==> |view| + 1 <= |view + added|
    ensures added <= view ==> |view + added| == |view|
  {
    var fresh' := added - view;
    assert view + added == view + fresh';
    SubsetSize(fresh', added);
    if added <= view {
      assert view + added == view;
    } else {
      var p :| p in added && p !in view;
      SubsetSize({p}, fresh');
    }
  }
}
