/** Sharding when rotations come in full rounds: each batch is one epoch, whatever its order. */
module Rounds {
  import opened Base
  import opened Snapshots
  import opened EstimatorModel
  import opened Sharding

  ghost function Rotations(order: seq<nat>): seq<Op> {
    seq(|order|, j requires 0 <= j < |order| => Rotate(order[j]))
  }

  /** A full rotation: every bucket once, in any order. */
  ghost predicate IsFull(order: seq<nat>, buckets: nat) {
    Distinct(order) && Elements(order) == Below(buckets)
  }

  /** A batch in the order it was visited, and the full rotation that ended its epoch. */
  datatype Round = Round(batch: seq<Op>, order: seq<nat>)

  ghost function OpsOf(rounds: seq<Round>): seq<Op> {
    if rounds == [] then []
    else var r := rounds[|rounds| - 1]; OpsOf(rounds[..|rounds| - 1]) + (r.batch + Rotations(r.order))
  }

  ghost function Previous(rounds: seq<Round>): seq<Op> {
    if rounds == [] then [] else rounds[|rounds| - 1].batch
  }

  /** Rounds of inserts and full rotations in which two epochs always fit under the limit. */
  ghost predicate Fits(rounds: seq<Round>, buckets: nat, limit: int) {
    rounds == [] ||
    (var before, r := rounds[..|rounds| - 1], rounds[|rounds| - 1];
     && Fits(before, buckets, limit)
     && OnlyInserts(r.batch) && IsFull(r.order, buckets)
     && |KeysOf(Previous(before)) + KeysOf(r.batch)| <= limit)
  }

  lemma HashesUnderSnoc(ops: seq<Op>, k: Key)
    requires ops != []
    ensures var op, before := ops[|ops| - 1], HashesUnder(ops[..|ops| - 1], k);
            HashesUnder(ops, k) == if op.Insert? && op.key == k then before + {op.fp} else before
  {
    var n := |ops| - 1;
    forall h: Uint64 ensures h in HashesUnder(ops, k)
      <==> h in HashesUnder(ops[..n], k) || (ops[n].Insert? && ops[n].key == k && h == ops[n].fp)
    {
      if h in HashesUnder(ops[..n], k) {
        var j :| 0 <= j < n && ops[..n][j].Insert? && ops[..n][j].key == k && ops[..n][j].fp == h;
        assert ops[j] == ops[..n][j];
      }
      if h in HashesUnder(ops, k) && !(ops[n].Insert? && ops[n].key == k && h == ops[n].fp) {
        var j :| 0 <= j < |ops| && ops[j].Insert? && ops[j].key == k && ops[j].fp == h;
        assert ops[..n][j] == ops[j];
      }
    }
  }

  /** A batch adds its hashes to the current epoch. */
  lemma {:induction false} EpochsOfBatch(start: TwoEpochs, batch: seq<Op>, b: nat, k: Key)
    requires OnlyInserts(batch)
    ensures Epochs(start, batch, b, k) == TwoEpochs(start.cur + HashesUnder(batch, k), start.prev)
  {
    if batch == [] {
      assert HashesUnder(batch, k) == {};
    } else {
      assert batch[|batch| - 1] in batch;
      EpochsOfBatch(start, batch[..|batch| - 1], b, k);
      HashesUnderSnoc(batch, k);
    }
  }

  /** Distinct rotations move the current epoch back once if they include the bucket. */
  lemma {:induction false} EpochsOfRotations(start: TwoEpochs, order: seq<nat>, b: nat, k: Key)
    requires Distinct(order)
    ensures Epochs(start, Rotations(order), b, k) == if b in Elements(order) then TwoEpochs({}, start.cur) else start
    decreases |order|
  {
    if order == [] {
      assert Elements(order) == {};
    } else {
      var n := |order| - 1;
      assert order == order[..n] + [order[n]];
      ElementsSnoc(order[..n], order[n]);
      assert Rotations(order)[..n] == Rotations(order[..n]);
      EpochsOfRotations(start, order[..n], b, k);
    }
  }

  lemma {:induction false} EpochsOfRounds(rounds: seq<Round>, buckets: nat, limit: int, b: nat, k: Key)
    requires Fits(rounds, buckets, limit) && b < buckets
    ensures Epochs(NOTHING, OpsOf(rounds), b, k) == TwoEpochs({}, HashesUnder(Previous(rounds), k))
    decreases |rounds|
  {
    if rounds == [] {
      assert HashesUnder([], k) == {};
    } else {
      var n := |rounds| - 1;
      var r, before := rounds[n], Epochs(NOTHING, OpsOf(rounds[..n]), b, k);
      EpochsOfRounds(rounds[..n], buckets, limit, b, k);
      EpochsAppend(NOTHING, OpsOf(rounds[..n]), r.batch + Rotations(r.order), b, k);
      EpochsAppend(before, r.batch, Rotations(r.order), b, k);
      EpochsOfBatch(before, r.batch, b, k);
      EpochsOfRotations(Epochs(before, r.batch, b, k), r.order, b, k);
      assert {} + HashesUnder(r.batch, k) == HashesUnder(r.batch, k);
    }
  }

  /** After rounds and one more batch exactly that batch and the one before it are held. */
  lemma HeldAfterRounds(rounds: seq<Round>, last: seq<Op>, buckets: nat, limit: int, k: Key)
    requires 0 < buckets && Fits(rounds, buckets, limit) && OnlyInserts(last)
    ensures HeldHashes(OpsOf(rounds) + last, RouteBy(buckets), k)
            == HashesUnder(last, k) + HashesUnder(Previous(rounds), k)
  {
    var ops, b := OpsOf(rounds) + last, RouteBy(buckets)(k);
    HeldMeans(ops, RouteBy(buckets), k);
    EpochsAppend(NOTHING, OpsOf(rounds), last, b, k);
    EpochsOfRounds(rounds, buckets, limit, b, k);
    EpochsOfBatch(Epochs(NOTHING, OpsOf(rounds), b, k), last, b, k);
    assert {} + HashesUnder(last, k) == HashesUnder(last, k);
  }

  /* Two epochs that fit under the limit leave room throughout */

  lemma {:induction false} EpochsBound(start: TwoEpochs, ops: seq<Op>, b: nat, k: Key)
    ensures var e := Epochs(start, ops, b, k);
            e != NOTHING ==> start != NOTHING || k in KeysOf(ops)
  {
    if ops != [] {
      var n := |ops| - 1;
      EpochsBound(start, ops[..n], b, k);
      if k in KeysOf(ops[..n]) {
        var i :| 0 <= i < n && ops[..n][i].Insert? && ops[..n][i].key == k;
        assert ops[i].Insert? && ops[i].key == k;
      }
    }
  }

  lemma KeysOfParts(x: seq<Op>, y: seq<Op>, all: seq<Op>)
    requires all == x + y
    ensures KeysOf(x) <= KeysOf(all) && KeysOf(all) <= KeysOf(x) + KeysOf(y)
  {
    forall k | k in KeysOf(x) ensures k in KeysOf(all) {
      var i :| 0 <= i < |x| && x[i].Insert? && x[i].key == k;
      assert all[i] == x[i];
    }
    forall k | k in KeysOf(all) ensures k in KeysOf(x) + KeysOf(y) {
      var i :| 0 <= i < |all| && all[i].Insert? && all[i].key == k;
      assert if i < |x| then all[i] == x[i] else all[i] == y[i - |x|];
    }
  }

  lemma RoomSnoc(x: seq<Op>, y: seq<Op>, route: Key -> nat, limit: int)
    requires y != [] && Room(x + y[..|y| - 1], route, limit) && |HeldKeys(x + y, route)| <= limit
    ensures Room(x + y, route, limit)
  {
    assert (x + y)[..|x + y| - 1] == x + y[..|y| - 1];
  }

  lemma FewerKeys(held: set<Key>, y: seq<Op>, limit: int)
    requires y != [] && |held + KeysOf(y)| <= limit
    ensures |held + KeysOf(y[..|y| - 1])| <= limit
  {
    var n := |y| - 1;
    KeysOfParts(y[..n], [y[n]], y);
    SubsetSize(held + KeysOf(y[..n]), held + KeysOf(y));
  }

  lemma {:induction false} RoomAppend(x: seq<Op>, y: seq<Op>, route: Key -> nat, limit: int)
    requires Room(x, route, limit) && |HeldKeys(x, route) + KeysOf(y)| <= limit
    ensures Room(x + y, route, limit)
    decreases |y|
  {
    if y == [] {
      assert x + y == x;
    } else {
      FewerKeys(HeldKeys(x, route), y, limit);
      RoomAppend(x, y[..|y| - 1], route, limit);
      HeldFits(x, y, route, limit);
      RoomSnoc(x, y, route, limit);
    }
  }

  lemma HeldFits(x: seq<Op>, y: seq<Op>, route: Key -> nat, limit: int)
    requires |HeldKeys(x, route) + KeysOf(y)| <= limit
    ensures |HeldKeys(x + y, route)| <= limit
  {
    HeldBound(x, y, route);
    SubsetSize(HeldKeys(x + y, route), HeldKeys(x, route) + KeysOf(y));
  }

  lemma HeldBound(x: seq<Op>, y: seq<Op>, route: Key -> nat)
    ensures HeldKeys(x + y, route) <= HeldKeys(x, route) + KeysOf(y)
  {
    HeldKeysMean(x, route);
    HeldKeysMean(x + y, route);
    forall k | k in HeldKeys(x + y, route) ensures k in HeldKeys(x, route) + KeysOf(y) {
      EpochsAppend(NOTHING, x, y, route(k), k);
      EpochsBound(Epochs(NOTHING, x, route(k), k), y, route(k), k);
    }
  }

  lemma KeysOfRound(r: Round)
    ensures KeysOf(r.batch + Rotations(r.order)) == KeysOf(r.batch)
  {
    assert KeysOf(Rotations(r.order)) == {};
    KeysOfParts(r.batch, Rotations(r.order), r.batch + Rotations(r.order));
  }

  lemma KeysUnder(ops: seq<Op>, k: Key)
    ensures k in KeysOf(ops) <==> HashesUnder(ops, k) != {}
  {
    if i :| 0 <= i < |ops| && ops[i].Insert? && ops[i].key == k {
      assert ops[i].fp in HashesUnder(ops, k);
    }
  }

  lemma {:induction false} HeldKeysAfterRounds(rounds: seq<Round>, buckets: nat, limit: int)
    requires 0 < buckets && Fits(rounds, buckets, limit)
    ensures HeldKeys(OpsOf(rounds), RouteBy(buckets)) == KeysOf(Previous(rounds))
  {
    HeldKeysMean(OpsOf(rounds), RouteBy(buckets));
    forall k: Key ensures k in HeldKeys(OpsOf(rounds), RouteBy(buckets)) <==> k in KeysOf(Previous(rounds)) {
      EpochsOfRounds(rounds, buckets, limit, RouteBy(buckets)(k), k);
      KeysUnder(Previous(rounds), k);
    }
  }

  lemma {:induction false} RoundsHaveRoom(rounds: seq<Round>, buckets: nat, limit: int)
    requires 0 < buckets && Fits(rounds, buckets, limit)
    ensures Room(OpsOf(rounds), RouteBy(buckets), limit)
    decreases |rounds|
  {
    if rounds != [] {
      var n := |rounds| - 1;
      var r := rounds[n];
      RoundsHaveRoom(rounds[..n], buckets, limit);
      HeldKeysAfterRounds(rounds[..n], buckets, limit);
      KeysOfRound(r);
      RoomAppend(OpsOf(rounds[..n]), r.batch + Rotations(r.order), RouteBy(buckets), limit);
    }
  }

  lemma BatchHasRoom(rounds: seq<Round>, last: seq<Op>, buckets: nat, limit: int)
    requires 0 < buckets && Fits(rounds, buckets, limit)
    requires |KeysOf(Previous(rounds)) + KeysOf(last)| <= limit
    ensures Room(OpsOf(rounds) + last, RouteBy(buckets), limit)
  {
    RoundsHaveRoom(rounds, buckets, limit);
    HeldKeysAfterRounds(rounds, buckets, limit);
    RoomAppend(OpsOf(rounds), last, RouteBy(buckets), limit);
  }

  /* Main results */

  lemma SameHashes(a: seq<Op>, b: seq<Op>, k: Key)
    requires multiset(a) == multiset(b)
    ensures HashesUnder(a, k) <= HashesUnder(b, k)
  {
    forall h | h in HashesUnder(a, k) ensures h in HashesUnder(b, k) {
      var i :| 0 <= i < |a| && a[i].Insert? && a[i].key == k && a[i].fp == h;
      assert a[i] in multiset(b);
      var j :| 0 <= j < |b| && b[j] == a[i];
    }
  }

  /** Two instances whose last two batches have the same inserts, in any order, hold the same. */
  lemma SameBatchesHeld(rounds: seq<Round>, last: seq<Op>, buckets: nat, limit: int,
                        rounds': seq<Round>, last': seq<Op>, buckets': nat, limit': int, k: Key)
    requires 0 < buckets && Fits(rounds, buckets, limit) && OnlyInserts(last)
    requires 0 < buckets' && Fits(rounds', buckets', limit') && OnlyInserts(last')
    requires multiset(Previous(rounds)) == multiset(Previous(rounds')) && multiset(last) == multiset(last')
    ensures HeldHashes(OpsOf(rounds) + last, RouteBy(buckets), k)
            == HeldHashes(OpsOf(rounds') + last', RouteBy(buckets'), k)
  {
    HeldAfterRounds(rounds, last, buckets, limit, k);
    HeldAfterRounds(rounds', last', buckets', limit', k);
    SameHashes(last, last', k);
    SameHashes(last', last, k);
    SameHashes(Previous(rounds), Previous(rounds'), k);
    SameHashes(Previous(rounds'), Previous(rounds), k);
  }

  /** Two instances fed the same batches, with different bucket counts, limits, visiting orders and
      rotation orders, show the same snapshot after each batch. */
  lemma {:induction false} SameContentEverywhere(precision: nat, limit: nat, buckets: nat, rounds: seq<Round>,
                                                 last: seq<Op>, limit': nat, buckets': nat, rounds': seq<Round>,
                                                 last': seq<Op>, val: Key -> seq<string>)
    requires 0 < buckets && Fits(rounds, buckets, limit) && OnlyInserts(last)
    requires 0 < buckets' && Fits(rounds', buckets', limit') && OnlyInserts(last')
    requires |KeysOf(Previous(rounds)) + KeysOf(last)| <= limit
    requires |KeysOf(Previous(rounds')) + KeysOf(last')| <= limit'
    requires Functional(OpsOf(rounds) + last, val) && Functional(OpsOf(rounds') + last', val)
    requires multiset(Previous(rounds)) == multiset(Previous(rounds')) && multiset(last) == multiset(last')
    ensures var t := Run(Empty(precision, limit, buckets), OpsOf(rounds) + last);
            var t' := Run(Empty(precision, limit', buckets'), OpsOf(rounds') + last');
            Content(t) == Content(t')
  {
    BatchHasRoom(rounds, last, buckets, limit);
    BatchHasRoom(rounds', last', buckets', limit');
    forall k: Key ensures HeldHashes(OpsOf(rounds) + last, RouteBy(buckets), k)
                          == HeldHashes(OpsOf(rounds') + last', RouteBy(buckets'), k)
    {
      SameBatchesHeld(rounds, last, buckets, limit, rounds', last', buckets', limit', k);
    }
    SameHeldSameContent(precision, limit, buckets, OpsOf(rounds) + last,
                        limit', buckets', OpsOf(rounds') + last', val);
  }
}
