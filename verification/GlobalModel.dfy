/** Streams without group-by: each bucket holds one sketch per epoch, and a snapshot unites them. */
module GlobalModel {
  import opened Base
  import opened EstimatorModel
  import Sharding

  /** Before its first rotation a bucket has no previous sketch at all. */
  datatype Cell = Cell(sketch: set<Uint64>, prev: Option<set<Uint64>>)

  type Cells = g: seq<Cell> | |g| > 0 witness [Cell({}, None)]

  datatype CellOp = InsertHash(fp: Uint64) | RotateCell(i: nat) | ResetCell(i: nat)

  /** Without a previous sketch the reset of a bucket panics before it changes anything. */
  function ResetOne(c: Cell): Cell {
    if c.prev.Some? then Cell({}, Some({})) else c
  }

  function Step(g: Cells, op: CellOp): (r: Cells)
    ensures |r| == |g|
  {
    match op
    case InsertHash(fp) =>
      var i := RouteBy(|g|)(fp);
      g[i := g[i].(sketch := g[i].sketch + {fp})]
    case RotateCell(i) => if i < |g| then g[i := Cell({}, Some(g[i].sketch))] else g
    case ResetCell(i) => if i < |g| then g[i := ResetOne(g[i])] else g
  }

  function Run(g: Cells, ops: seq<CellOp>): (r: Cells)
    ensures |r| == |g|
  {
    if ops == [] then g else Step(Run(g, ops[..|ops| - 1]), ops[|ops| - 1])
  }

  function Fresh(buckets: nat): Cells
    requires 0 < buckets
  {
    seq(buckets, i => Cell({}, None))
  }

  function Before(c: Cell): set<Uint64> {
    if c.prev.Some? then c.prev.value else {}
  }

  function Shown(c: Cell): set<Uint64> { c.sketch + Before(c) }

  /** What a snapshot shows: all sketches of all buckets, united. */
  function Content(g: seq<Cell>): set<Uint64> {
    if g == [] then {} else Content(g[..|g| - 1]) + Shown(g[|g| - 1])
  }

  lemma {:induction false} ContentMember(g: seq<Cell>, fp: Uint64)
    ensures fp in Content(g) <==> exists i | 0 <= i < |g| :: fp in Shown(g[i])
  {
    if g != [] {
      var n := |g| - 1;
      ContentMember(g[..n], fp);
      assert forall i | 0 <= i < n :: g[..n][i] == g[i];
    }
  }

  /* What is held */

  /** The run as operations on a grouped estimator that has each fingerprint as a key of its own; a
      reset that panics is none. */
  ghost function AsOps(ops: seq<CellOp>): seq<Op> {
    if ops == [] then []
    else
      var before := ops[..|ops| - 1];
      AsOps(before) + match ops[|ops| - 1] {
        case InsertHash(fp) => [Insert(fp, fp, [])]
        case RotateCell(i) => [Rotate(i)]
        case ResetCell(i) => if RotateCell(i) in before then [ResetBucket(i)] else []
      }
  }

  /** The fingerprint was inserted, and since then bucket b rotated age times and was not reset. */
  ghost predicate Aged(ops: seq<CellOp>, fp: Uint64, b: nat, age: nat) {
    Sharding.Aged(AsOps(ops), fp, fp, b, age)
  }

  /** The fingerprint was inserted with at most one rotation and no reset of its own bucket since. */
  ghost predicate Held(ops: seq<CellOp>, fp: Uint64, route: Uint64 -> nat) {
    Sharding.Held(AsOps(ops), route, fp, fp)
  }

  lemma AgedStep(ops: seq<CellOp>, fp: Uint64, b: nat, age: nat)
    requires ops != []
    ensures var before, op := ops[..|ops| - 1], ops[|ops| - 1];
            Aged(ops, fp, b, age) <==>
              || (op == InsertHash(fp) && age == 0)
              || (!(op == ResetCell(b) && RotateCell(b) in before)
                  && if op == RotateCell(b) then age > 0 && Aged(before, fp, b, age - 1) else Aged(before, fp, b, age))
  {
    var before, op := ops[..|ops| - 1], ops[|ops| - 1];
    var all, less := AsOps(ops), AsOps(before);
    if op.ResetCell? && RotateCell(op.i) !in before {
      assert all == less;
    } else {
      assert all[..|all| - 1] == less;
      Sharding.AgedSnoc(all, fp, fp, b, age);
    }
  }

  /** A bucket has a previous sketch exactly if it ever rotated. */
  lemma {:induction false} HasPrevious(buckets: nat, ops: seq<CellOp>, i: nat)
    requires i < buckets
    ensures Run(Fresh(buckets), ops)[i].prev.Some? <==> RotateCell(i) in ops
  {
    if ops != [] {
      HasPrevious(buckets, ops[..|ops| - 1], i);
      assert ops == ops[..|ops| - 1] + [ops[|ops| - 1]];
    }
  }

  /** Each fingerprint is in its own bucket only, by the number of rotations since it came. */
  lemma {:induction false} CellsHold(buckets: nat, ops: seq<CellOp>, fp: Uint64, i: nat)
    requires i < buckets
    ensures var c, home := Run(Fresh(buckets), ops)[i], RouteBy(buckets)(fp);
            && (fp in c.sketch <==> i == home && Aged(ops, fp, home, 0))
            && (fp in Before(c) <==> i == home && Aged(ops, fp, home, 1))
  {
    if ops != [] {
      CellsHold(buckets, ops[..|ops| - 1], fp, i);
      HasPrevious(buckets, ops[..|ops| - 1], i);
      AgedStep(ops, fp, RouteBy(buckets)(fp), 0);
      AgedStep(ops, fp, RouteBy(buckets)(fp), 1);
    }
  }

  /** Any number of buckets, any mix of inserts and of rotations and resets of single buckets: a
      snapshot shows exactly what was inserted with at most one rotation and no reset of its own bucket
      since. */
  lemma ShardingInvisible(buckets: nat, ops: seq<CellOp>, fp: Uint64)
    requires 0 < buckets
    ensures fp in Content(Run(Fresh(buckets), ops)) <==> Held(ops, fp, RouteBy(buckets))
  {
    var g, home := Run(Fresh(buckets), ops), RouteBy(buckets)(fp);
    ContentMember(g, fp);
    Sharding.HeldIsAged(AsOps(ops), RouteBy(buckets), fp, fp);
    CellsHold(buckets, ops, fp, home);
    if i :| 0 <= i < |g| && fp in Shown(g[i]) {
      CellsHold(buckets, ops, fp, i);
    }
  }

  /* Resets */

  /** A reset of the whole stream gets through. */
  ghost predicate Resettable(g: seq<Cell>) {
    forall i | 0 <= i < |g| :: g[i].prev.Some?
  }

  /** That is exactly when every bucket has rotated before; a stream that has just started panics. */
  lemma ResettableIff(buckets: nat, ops: seq<CellOp>)
    requires 0 < buckets
    ensures Resettable(Run(Fresh(buckets), ops)) <==> forall i: nat | i < buckets :: RotateCell(i) in ops
    ensures !Resettable(Fresh(buckets))
  {
    assert Fresh(buckets)[0].prev.None?;
    forall i: nat | i < buckets ensures Run(Fresh(buckets), ops)[i].prev.Some? <==> RotateCell(i) in ops {
      HasPrevious(buckets, ops, i);
    }
  }

  /* Full rounds */

  /** The fingerprints of the epoch that is open after the run and of the one before it; rotated
      tells which buckets have closed the open one already. A full rotation opens the next. */
  datatype Epochs = Epochs(cur: set<Uint64>, prev: set<Uint64>, rotated: set<nat>)

  ghost function Seen(buckets: nat, ops: seq<CellOp>): Epochs {
    if ops == [] then Epochs({}, {}, {})
    else
      var e := Seen(buckets, ops[..|ops| - 1]);
      match ops[|ops| - 1]
      case InsertHash(fp) => e.(cur := e.cur + {fp})
      case RotateCell(i) =>
        var rotated := e.rotated + {i};
        if rotated == Below(buckets) then Epochs({}, e.cur, {}) else e.(rotated := rotated)
      case ResetCell(_) => e
  }

  /** Runs without resets in which rotations come in full rounds: each bucket once, with no insert in
      between. */
  ghost predicate InRounds(buckets: nat, ops: seq<CellOp>) {
    ops == [] ||
    (var before, op := ops[..|ops| - 1], ops[|ops| - 1];
     && InRounds(buckets, before)
     && match op {
          case InsertHash(_) => Seen(buckets, before).rotated == {}
          case RotateCell(i) => i < buckets && i !in Seen(buckets, before).rotated
          case ResetCell(_) => false
        })
  }

  lemma {:induction false} AgedInRounds(buckets: nat, ops: seq<CellOp>, fp: Uint64, b: nat)
    requires b < buckets && InRounds(buckets, ops)
    ensures var e := Seen(buckets, ops);
            && (Aged(ops, fp, b, 0) <==> fp in e.cur && b !in e.rotated)
            && (Aged(ops, fp, b, 1) <==> fp in if b in e.rotated then e.cur else e.prev)
  {
    if ops != [] {
      var before, op := ops[..|ops| - 1], ops[|ops| - 1];
      AgedInRounds(buckets, before, fp, b);
      AgedStep(ops, fp, b, 0);
      AgedStep(ops, fp, b, 1);
      if op.RotateCell? {
        LastOfRound(Seen(buckets, before).rotated, op.i, b, buckets);
      }
    }
  }

  /** The rotation that completes a round comes after those of all other buckets. */
  lemma LastOfRound(rotated: set<nat>, i: nat, b: nat, buckets: nat)
    requires b < buckets
    ensures rotated + {i} == Below(buckets) ==> b == i || b in rotated
  {
    assert b in Below(buckets);
  }

  /** So between full rotations a snapshot shows the open epoch and the one before it, whatever the
      number of buckets and the order of inserts and rotations. */
  lemma FullRoundsShown(buckets: nat, ops: seq<CellOp>)
    requires 0 < buckets && InRounds(buckets, ops) && Seen(buckets, ops).rotated == {}
    ensures var e := Seen(buckets, ops); Content(Run(Fresh(buckets), ops)) == e.cur + e.prev
  {
    var e := Seen(buckets, ops);
    forall fp: Uint64 ensures fp in Content(Run(Fresh(buckets), ops)) <==> fp in e.cur + e.prev {
      ShardingInvisible(buckets, ops, fp);
      Sharding.HeldIsAged(AsOps(ops), RouteBy(buckets), fp, fp);
      AgedInRounds(buckets, ops, fp, RouteBy(buckets)(fp));
    }
  }
}
