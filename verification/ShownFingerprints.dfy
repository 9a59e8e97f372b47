/** From the labels of the series to the snapshot: what is shown for a group are fingerprints that series
    inserted under its values, and what a recent batch inserted is shown. */
module ShownFingerprints {
  import opened Base
  import opened Series
  import opened Snapshots
  import opened EstimatorModel
  import opened GroupKeys
  import opened Contributions
  import opened SeriesFeeds
  import Sharding

  ghost predicate Shown(shown: map<Key, Entry>, fp: Uint64, values: seq<string>) {
    exists k :: k in shown && shown[k].values == values && fp in shown[k].sketch.hashes
  }

  ghost function Fed(feeds: seq<Feed>): seq<TimeSerie> { FlatMap(SeriesOf(), feeds) }

  /** How often bucket b rotates. */
  ghost function TurnsOf(feeds: seq<Feed>, b: nat): nat {
    if feeds == [] then 0
    else TurnsOf(feeds[..|feeds| - 1], b) + if feeds[|feeds| - 1] == Turn(b) then 1 else 0
  }

  /** Since then no bucket has rotated twice, and none was reset. */
  ghost predicate Recent(since: seq<Feed>) {
    forall b: nat :: TurnsOf(since, b) <= 1 && Drop(b) !in since
  }

  lemma {:induction false} TurnsAppend(x: seq<Op>, y: seq<Op>, b: nat)
    ensures Sharding.Turns(x + y, b) == Sharding.Turns(x, b) + Sharding.Turns(y, b)
    decreases |y|
  {
    if y == [] {
      assert x + y == x;
    } else {
      assert (x + y)[..|x + y| - 1] == x + y[..|y| - 1];
      TurnsAppend(x, y[..|y| - 1], b);
    }
  }

  lemma {:induction false} InsertsDoNotTurn(ops: seq<Op>, b: nat)
    requires forall op | op in ops :: op.Insert?
    ensures Sharding.Turns(ops, b) == 0 && ResetBucket(b) !in ops
  {
    if ops != [] {
      assert ops[|ops| - 1] in ops;
      InsertsDoNotTurn(ops[..|ops| - 1], b);
    }
  }

  lemma TurnsOfFeed(s: Stream, feed: Feed, b: nat)
    ensures Sharding.Turns(FeedOps(s)(feed), b) == if feed == Turn(b) then 1 else 0
  {
    if feed.Batch? {
      InsertsDoNotTurn(FeedOps(s)(feed), b);
    }
  }

  lemma {:induction false} TurnsOfFeeds(s: Stream, feeds: seq<Feed>, b: nat)
    ensures Sharding.Turns(AllOps(s, feeds), b) == TurnsOf(feeds, b)
  {
    if feeds != [] {
      var n := |feeds| - 1;
      TurnsOfFeeds(s, feeds[..n], b);
      TurnsOfFeed(s, feeds[n], b);
      TurnsAppend(AllOps(s, feeds[..n]), FeedOps(s)(feeds[n]), b);
    }
  }

  lemma ResetsOfFeeds(s: Stream, feeds: seq<Feed>, b: nat)
    ensures ResetBucket(b) in AllOps(s, feeds) ==> Drop(b) in feeds
  {
    FlatMapMember(FeedOps(s), feeds, ResetBucket(b));
  }

  lemma OpsOfBatch(s: Stream, tss: seq<TimeSerie>, start: nat, fp: Uint64, values: seq<string>)
    ensures OpInserts(BatchOps(s, tss, start), fp, values)
            <==> SomeInserts(Visited(tss, start), s.grouping.explicit, s.grouping.perLabel, s.matches, fp, values)
  {
    HashedInserts(BatchOffers(Visited(tss, start), s.grouping, s.matches), s.hash, fp, values);
    BatchInserts(Visited(tss, start), s.grouping, s.matches, fp, values);
  }

  /** Every insert of the feeds is of one of their series. */
  lemma OpOfFeeds(s: Stream, feeds: seq<Feed>, op: Op)
    requires op in AllOps(s, feeds) && op.Insert?
    ensures SomeInserts(Fed(feeds), s.grouping.explicit, s.grouping.perLabel, s.matches, op.fp, op.values)
  {
    FlatMapMember(FeedOps(s), feeds, op);
    var i :| 0 <= i < |feeds| && op in FeedOps(s)(feeds[i]);
    var tss, start := feeds[i].tss, feeds[i].start;
    assert OpInserts(BatchOps(s, tss, start), op.fp, op.values);
    OpsOfBatch(s, tss, start, op.fp, op.values);
    VisitedInserts(tss, start, s.grouping.explicit, s.grouping.perLabel, s.matches, op.fp, op.values);
    var j :| 0 <= j < |tss| && Inserts(tss[j], s.grouping.explicit, s.grouping.perLabel, s.matches, op.fp, op.values);
    SeriesOfFeed(feeds, i);
    assert tss[j] in Fed(feeds);
  }

  /** The hashes shown for a group are fingerprints that series of the feeds insert under its values. */
  lemma ShownAreInserted(s: Stream, precision: nat, limit: nat, buckets: nat, feeds: seq<Feed>,
                         fp: Uint64, values: seq<string>)
    requires 0 < buckets && Sharding.Room(AllOps(s, feeds), RouteBy(buckets), limit)
    requires Complete(s, Fed(feeds)) && NoCollision(s, AllOffers(s, feeds))
    requires Shown(Content(Run(Empty(precision, limit, buckets), AllOps(s, feeds))), fp, values)
    ensures SomeInserts(Fed(feeds), s.grouping.explicit, s.grouping.perLabel, s.matches, fp, values)
  {
    var ops, val := AllOps(s, feeds), ValuesBy(s, AllOffers(s, feeds));
    SeriesShown(s, precision, limit, buckets, feeds);
    FeedsAreFunctional(s, feeds, Fed(feeds));
    var k :| k in Sharding.Reference(precision, ops, RouteBy(buckets), val)
             && val(k) == values && fp in Sharding.HeldHashes(ops, RouteBy(buckets), k);
    var j :| 0 <= j < |ops| && ops[j].Insert? && ops[j].key == k && ops[j].fp == fp;
    OpOfFeeds(s, feeds, ops[j]);
  }

  lemma HeldAround(before: seq<Op>, now: seq<Op>, after: seq<Op>, i: nat, route: Key -> nat)
    requires i < |now| && (forall op | op in now :: op.Insert?)
    requires Sharding.Turns(after, route(now[i].key)) <= 1 && ResetBucket(route(now[i].key)) !in after
    ensures Sharding.Held(before + now + after, route, now[i].key, now[i].fp)
  {
    var ops, rest, b, j := before + now + after, now[i + 1..], route(now[i].key), |before| + i;
    assert ops[j] == now[i] && now[i] in now && ops[j + 1..] == rest + after;
    InsertsDoNotTurn(rest, b);
    TurnsAppend(rest, after, b);
    assert Sharding.InsertedAt(ops, j, now[i].key, now[i].fp, b, Sharding.Turns(after, b));
  }

  /** The inserts of a batch since which no bucket has rotated twice are held. */
  lemma RecentIsHeld(s: Stream, feeds: seq<Feed>, p: nat, route: Key -> nat, i: nat)
    requires p < |feeds| && feeds[p].Batch? && Recent(feeds[p + 1..]) && i < |FeedOps(s)(feeds[p])|
    ensures var op := FeedOps(s)(feeds[p])[i];
            op.Insert? && op in AllOps(s, feeds) && Sharding.Held(AllOps(s, feeds), route, op.key, op.fp)
  {
    var f, now := FeedOps(s), FeedOps(s)(feeds[p]);
    AllOpsAround(s, feeds, p);
    assert now[i].Insert? && now[i] in now;
    var b, since := route(now[i].key), feeds[p + 1..];
    TurnsOfFeeds(s, since, b);
    ResetsOfFeeds(s, since, b);
    assert TurnsOf(since, b) <= 1 && Drop(b) !in since;
    HeldAround(FlatMap(f, feeds[..p]), now, FlatMap(f, since), i, route);
  }

  lemma AllOpsAround(s: Stream, feeds: seq<Feed>, p: nat)
    requires p < |feeds|
    ensures var f := FeedOps(s);
            AllOps(s, feeds) == FlatMap(f, feeds[..p]) + f(feeds[p]) + FlatMap(f, feeds[p + 1..])
  {
    var f := FeedOps(s);
    assert feeds == feeds[..p + 1] + feeds[p + 1..];
    FlatMapTake(f, feeds, p);
    FlatMapConcat(f, feeds[..p + 1], feeds[p + 1..]);
  }

  /** And all that the series of such a batch insert is shown under its values. */
  lemma RecentIsShown(s: Stream, precision: nat, limit: nat, buckets: nat, feeds: seq<Feed>,
                      p: nat, fp: Uint64, values: seq<string>)
    requires 0 < buckets && Sharding.Room(AllOps(s, feeds), RouteBy(buckets), limit)
    requires Complete(s, Fed(feeds)) && NoCollision(s, AllOffers(s, feeds))
    requires p < |feeds| && feeds[p].Batch? && Recent(feeds[p + 1..])
    requires |feeds[p].tss| <= 0x8000_0000 && (feeds[p].tss != [] ==> feeds[p].start < |feeds[p].tss|)
    requires SomeInserts(feeds[p].tss, s.grouping.explicit, s.grouping.perLabel, s.matches, fp, values)
    ensures Shown(Content(Run(Empty(precision, limit, buckets), AllOps(s, feeds))), fp, values)
  {
    var ops, val := AllOps(s, feeds), ValuesBy(s, AllOffers(s, feeds));
    var tss, start := feeds[p].tss, feeds[p].start;
    OpsOfBatch(s, tss, start, fp, values);
    VisitedInserts(tss, start, s.grouping.explicit, s.grouping.perLabel, s.matches, fp, values);
    var now := BatchOps(s, tss, start);
    var i :| 0 <= i < |now| && now[i].Insert? && now[i].fp == fp && now[i].values == values;
    RecentIsHeld(s, feeds, p, RouteBy(buckets), i);
    FeedsAreFunctional(s, feeds, Fed(feeds));
    SeriesShown(s, precision, limit, buckets, feeds);
    HeldIsReferenced(precision, ops, RouteBy(buckets), val, now[i]);
  }

  lemma HeldIsReferenced(precision: nat, ops: seq<Op>, route: Key -> nat, val: Key -> seq<string>, op: Op)
    requires op in ops && op.Insert? && Sharding.Held(ops, route, op.key, op.fp) && Sharding.Functional(ops, val)
    ensures Shown(Sharding.Reference(precision, ops, route, val), op.fp, op.values)
  {
    var j :| 0 <= j < |ops| && ops[j] == op;
    assert ops[j].fp in Sharding.HashesUnder(ops, op.key);
    assert op.fp in Sharding.HeldHashes(ops, route, op.key);
    assert op.key in KeysOf(ops);
    assert op.key in Sharding.HeldKeys(ops, route);
    assert op.values == val(op.key);
    assert Sharding.Reference(precision, ops, route, val)[op.key].values == op.values;
  }
}
