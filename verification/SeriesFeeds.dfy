/** From series to snapshots: what an estimator shows of the batches it was fed, and when two
    estimators show the same. A group key then stands for its values because the hash tells the
    texts of the offered groups apart. */
module SeriesFeeds {
  import opened Base
  import opened Series
  import opened Snapshots
  import opened EstimatorModel
  import opened GroupKeys
  import Sharding
  import Rounds

  /** The stream: its grouping, its filter, and the digest its keys are taken from. */
  datatype Stream = Stream(grouping: Grouping, matches: seq<Label> -> bool, hash: string -> Uint64)

  /** What happens to an estimator: a batch from some start offset, or one bucket rotates or resets. */
  datatype Feed = Batch(tss: seq<TimeSerie>, start: nat) | Turn(bucket: nat) | Drop(bucket: nat)

  /** The inserts of one batch, in the order its series are visited. */
  function BatchOps(s: Stream, tss: seq<TimeSerie>, start: nat): seq<Op> {
    Hashed(BatchOffers(Visited(tss, start), s.grouping, s.matches), s.hash)
  }

  function FeedOps(s: Stream): Feed -> seq<Op> {
    (f: Feed) => match f
      case Batch(tss, start) => BatchOps(s, tss, start)
      case Turn(i) => [Rotate(i)]
      case Drop(i) => [ResetBucket(i)]
  }

  function SeriesOf(): Feed -> seq<TimeSerie> {
    (f: Feed) => if f.Batch? then f.tss else []
  }

  function AllOps(s: Stream, feeds: seq<Feed>): seq<Op> { FlatMap(FeedOps(s), feeds) }

  /** Everything the batches offer to the stream. */
  function AllOffers(s: Stream, feeds: seq<Feed>): seq<Offer> {
    BatchOffers(FlatMap(SeriesOf(), feeds), s.grouping, s.matches)
  }

  /** Every series carries all explicit names, and no name or value has a NUL. */
  ghost predicate Complete(s: Stream, tss: seq<TimeSerie>) {
    forall ts | ts in tss :: CleanValues(ts.labels) && CarriesAll(ts.labels, s.grouping.explicit)
  }

  /** The hash tells the offered texts apart. */
  ghost predicate NoCollision(s: Stream, offers: seq<Offer>) {
    forall o, p | o in offers && p in offers && s.hash(o.text) == s.hash(p.text) :: o.text == p.text
  }

  /** The values an offered key stands for. */
  ghost function ValuesBy(s: Stream, offers: seq<Offer>): Key -> seq<string> {
    k => if o :| o in offers && s.hash(o.text) == k then o.values else []
  }

  /* A key stands for its values */

  lemma SameTextSameValues(s: Stream, tss: seq<TimeSerie>, o: Offer, p: Offer)
    requires Complete(s, tss)
    requires o in BatchOffers(tss, s.grouping, s.matches) && p in BatchOffers(tss, s.grouping, s.matches)
    ensures o.text == p.text ==> o.values == p.values
  {
    FlatMapMember(OffersOf(s.grouping, s.matches), tss, o);
    FlatMapMember(OffersOf(s.grouping, s.matches), tss, p);
    var i :| 0 <= i < |tss| && o in OffersOf(s.grouping, s.matches)(tss[i]);
    var j :| 0 <= j < |tss| && p in OffersOf(s.grouping, s.matches)(tss[j]);
    OffersAreFunctional(tss[i], tss[j], s.grouping, s.matches, o, p);
  }

  /** An insert made from one of the offers has the values of its key. */
  lemma OfferedValues(s: Stream, tss: seq<TimeSerie>, o: Offer)
    requires var offers := BatchOffers(tss, s.grouping, s.matches);
             Complete(s, tss) && NoCollision(s, offers) && o in offers
    ensures ValuesBy(s, BatchOffers(tss, s.grouping, s.matches))(s.hash(o.text)) == o.values
  {
    var offers := BatchOffers(tss, s.grouping, s.matches);
    var p :| p in offers && s.hash(p.text) == s.hash(o.text)
             && ValuesBy(s, offers)(s.hash(o.text)) == p.values;
    SameTextSameValues(s, tss, o, p);
  }

  /** Visiting yields no series the batch does not have. */
  lemma VisitedInBatch(tss: seq<TimeSerie>, start: nat)
    ensures forall ts | ts in Visited(tss, start) :: ts in tss
  {
    var visited := Visited(tss, start);
    forall j: nat | j < |visited| ensures visited[j] in tss {
      assert visited[j] == tss[VisitIndex(start, j, |visited|)];
    }
  }

  lemma MoreOffers(s: Stream, some: seq<TimeSerie>, all: seq<TimeSerie>, o: Offer)
    requires (forall ts | ts in some :: ts in all) && o in BatchOffers(some, s.grouping, s.matches)
    ensures o in BatchOffers(all, s.grouping, s.matches)
  {
    var f := OffersOf(s.grouping, s.matches);
    FlatMapMember(f, some, o);
    FlatMapMember(f, all, o);
    var i :| 0 <= i < |some| && o in f(some[i]);
    assert some[i] in all;
  }

  /** Every insert of a batch was offered by one of its series. */
  lemma {:induction false} BatchIsFunctional(s: Stream, tss: seq<TimeSerie>, start: nat, all: seq<TimeSerie>)
    requires forall ts | ts in tss :: ts in all
    requires Complete(s, all) && NoCollision(s, BatchOffers(all, s.grouping, s.matches))
    ensures Sharding.Functional(BatchOps(s, tss, start), ValuesBy(s, BatchOffers(all, s.grouping, s.matches)))
  {
    var val := ValuesBy(s, BatchOffers(all, s.grouping, s.matches));
    var offers := BatchOffers(Visited(tss, start), s.grouping, s.matches);
    VisitedInBatch(tss, start);
    forall op | op in BatchOps(s, tss, start) ensures op.Insert? && op.values == val(op.key) {
      var i :| 0 <= i < |offers| && op == Insert(s.hash(offers[i].text), offers[i].fp, offers[i].values);
      MoreOffers(s, Visited(tss, start), all, offers[i]);
      OfferedValues(s, all, offers[i]);
    }
  }

  lemma {:induction false} FeedIsFunctional(s: Stream, feed: Feed, all: seq<TimeSerie>)
    requires feed.Batch? ==> forall ts | ts in feed.tss :: ts in all
    requires Complete(s, all) && NoCollision(s, BatchOffers(all, s.grouping, s.matches))
    ensures Sharding.Functional(FeedOps(s)(feed), ValuesBy(s, BatchOffers(all, s.grouping, s.matches)))
  {
    if feed.Batch? {
      BatchIsFunctional(s, feed.tss, feed.start, all);
    }
  }

  lemma {:induction false} FeedsAreFunctional(s: Stream, feeds: seq<Feed>, all: seq<TimeSerie>)
    requires forall ts | ts in FlatMap(SeriesOf(), feeds) :: ts in all
    requires Complete(s, all) && NoCollision(s, BatchOffers(all, s.grouping, s.matches))
    ensures Sharding.Functional(AllOps(s, feeds), ValuesBy(s, BatchOffers(all, s.grouping, s.matches)))
  {
    var val := ValuesBy(s, BatchOffers(all, s.grouping, s.matches));
    forall op | op in AllOps(s, feeds) && op.Insert? ensures op.values == val(op.key) {
      FlatMapMember(FeedOps(s), feeds, op);
      var i :| 0 <= i < |feeds| && op in FeedOps(s)(feeds[i]);
      SeriesOfFeed(feeds, i);
      FeedIsFunctional(s, feeds[i], all);
    }
  }

  lemma SeriesOfFeed(feeds: seq<Feed>, i: nat)
    requires i < |feeds|
    ensures feeds[i].Batch? ==> forall ts | ts in feeds[i].tss :: ts in FlatMap(SeriesOf(), feeds)
  {
    if feeds[i].Batch? {
      forall ts | ts in feeds[i].tss ensures ts in FlatMap(SeriesOf(), feeds) {
        FlatMapMember(SeriesOf(), feeds, ts);
        assert ts in SeriesOf()(feeds[i]);
      }
    }
  }

  /* Main results */

  /** While no insert is rejected, a snapshot shows for each group with something still held exactly
      its values and those hashes. */
  lemma {:induction false} SeriesShown(s: Stream, precision: nat, limit: nat, buckets: nat, feeds: seq<Feed>)
    requires 0 < buckets && Sharding.Room(AllOps(s, feeds), RouteBy(buckets), limit)
    requires Complete(s, FlatMap(SeriesOf(), feeds)) && NoCollision(s, AllOffers(s, feeds))
    ensures Content(Run(Empty(precision, limit, buckets), AllOps(s, feeds)))
            == Sharding.Reference(precision, AllOps(s, feeds), RouteBy(buckets), ValuesBy(s, AllOffers(s, feeds)))
  {
    FeedsAreFunctional(s, feeds, FlatMap(SeriesOf(), feeds));
    Sharding.ContentIsReference(precision, limit, buckets, AllOps(s, feeds), ValuesBy(s, AllOffers(s, feeds)));
  }

  /** Two estimators of a stream, with any bucket counts, limits, start offsets and rotations, show
      the same snapshot if they hold the same hashes of every key. */
  lemma {:induction false} SameSeriesSameSnapshot(s: Stream, precision: nat, limit: nat, buckets: nat,
                                                  feeds: seq<Feed>, limit': nat, buckets': nat, feeds': seq<Feed>)
    requires 0 < buckets && Sharding.Room(AllOps(s, feeds), RouteBy(buckets), limit)
    requires 0 < buckets' && Sharding.Room(AllOps(s, feeds'), RouteBy(buckets'), limit')
    requires var all := FlatMap(SeriesOf(), feeds) + FlatMap(SeriesOf(), feeds');
             Complete(s, all) && NoCollision(s, BatchOffers(all, s.grouping, s.matches))
    requires forall k: Key :: Sharding.HeldHashes(AllOps(s, feeds), RouteBy(buckets), k)
                              == Sharding.HeldHashes(AllOps(s, feeds'), RouteBy(buckets'), k)
    ensures Content(Run(Empty(precision, limit, buckets), AllOps(s, feeds)))
            == Content(Run(Empty(precision, limit', buckets'), AllOps(s, feeds')))
  {
    var all := FlatMap(SeriesOf(), feeds) + FlatMap(SeriesOf(), feeds');
    FeedsAreFunctional(s, feeds, all);
    FeedsAreFunctional(s, feeds', all);
    Sharding.SameHeldSameContent(precision, limit, buckets, AllOps(s, feeds), limit', buckets', AllOps(s, feeds'),
                                 ValuesBy(s, BatchOffers(all, s.grouping, s.matches)));
  }

  /* Full rounds of batches */

  /** A batch of series with its start offset, and the order of the full rotation that follows. */
  datatype SeriesRound = SeriesRound(tss: seq<TimeSerie>, start: nat, order: seq<nat>)

  ghost function RoundBy(s: Stream): SeriesRound -> Rounds.Round {
    (r: SeriesRound) => Rounds.Round(BatchOps(s, r.tss, r.start), r.order)
  }

  ghost function RoundsOf(s: Stream, rounds: seq<SeriesRound>): seq<Rounds.Round> { Mapped(RoundBy(s), rounds) }

  function RoundSeries(): SeriesRound -> seq<TimeSerie> {
    (r: SeriesRound) => r.tss
  }

  /** The series of all rounds and of the batch after them. */
  function AllSeries(rounds: seq<SeriesRound>, last: SeriesRound): seq<TimeSerie> {
    FlatMap(RoundSeries(), rounds) + last.tss
  }

  lemma FunctionalConcat(x: seq<Op>, y: seq<Op>, val: Key -> seq<string>)
    requires Sharding.Functional(x, val) && Sharding.Functional(y, val)
    ensures Sharding.Functional(x + y, val)
  {
  }

  lemma {:induction false} RoundsAreFunctional(s: Stream, rounds: seq<SeriesRound>, all: seq<TimeSerie>)
    requires forall ts | ts in FlatMap(RoundSeries(), rounds) :: ts in all
    requires Complete(s, all) && NoCollision(s, BatchOffers(all, s.grouping, s.matches))
    ensures Sharding.Functional(Rounds.OpsOf(RoundsOf(s, rounds)), ValuesBy(s, BatchOffers(all, s.grouping, s.matches)))
  {
    if rounds != [] {
      var n := |rounds| - 1;
      var r, val := rounds[n], ValuesBy(s, BatchOffers(all, s.grouping, s.matches));
      RoundsAreFunctional(s, rounds[..n], all);
      BatchIsFunctional(s, r.tss, r.start, all);
      assert RoundsOf(s, rounds)[..n] == RoundsOf(s, rounds[..n]);
      FunctionalConcat(BatchOps(s, r.tss, r.start), Rounds.Rotations(r.order), val);
      FunctionalConcat(Rounds.OpsOf(RoundsOf(s, rounds[..n])),
                       BatchOps(s, r.tss, r.start) + Rounds.Rotations(r.order), val);
    }
  }

  /** Rounds that fit: full rotations, and two epochs under the limit, the last batch included. */
  ghost predicate Fit(s: Stream, rounds: seq<SeriesRound>, last: SeriesRound, buckets: nat, limit: nat) {
    && Rounds.Fits(RoundsOf(s, rounds), buckets, limit)
    && |KeysOf(Rounds.Previous(RoundsOf(s, rounds))) + KeysOf(BatchOps(s, last.tss, last.start))| <= limit
  }

  /** The batch before the last one. */
  function PreviousBatch(rounds: seq<SeriesRound>): SeriesRound {
    if rounds == [] then SeriesRound([], 0, []) else rounds[|rounds| - 1]
  }

  ghost predicate Started(r: SeriesRound) {
    |r.tss| <= 0x8000_0000 && (r.tss != [] ==> r.start < |r.tss|)
  }

  lemma {:induction false} SameBatchOps(s: Stream, tss: seq<TimeSerie>, start: nat, start': nat)
    requires |tss| <= 0x8000_0000 && (tss != [] ==> start < |tss| && start' < |tss|)
    ensures multiset(BatchOps(s, tss, start)) == multiset(BatchOps(s, tss, start'))
  {
    StartOffsetIrrelevant(tss, start, s.grouping, s.matches);
    StartOffsetIrrelevant(tss, start', s.grouping, s.matches);
    HashedMultiset(BatchOffers(Visited(tss, start), s.grouping, s.matches),
                   BatchOffers(Visited(tss, start'), s.grouping, s.matches), s.hash);
  }

  lemma PreviousOps(s: Stream, rounds: seq<SeriesRound>)
    ensures Rounds.Previous(RoundsOf(s, rounds)) == BatchOps(s, PreviousBatch(rounds).tss, PreviousBatch(rounds).start)
  {
    if rounds == [] {
      assert Visited([], 0) == [];
    }
  }

  /** Fed the same batches of series, two estimators of a stream show the same after each batch,
      whatever their bucket counts, limits, start offsets and rotation orders. */
  lemma {:induction false} SameBatchesSameSnapshot(s: Stream, precision: nat, limit: nat, buckets: nat,
                                                   rounds: seq<SeriesRound>, last: SeriesRound, limit': nat,
                                                   buckets': nat, rounds': seq<SeriesRound>, last': SeriesRound)
    requires 0 < buckets && Fit(s, rounds, last, buckets, limit)
    requires 0 < buckets' && Fit(s, rounds', last', buckets', limit')
    requires Started(last) && Started(last') && last.tss == last'.tss
    requires Started(PreviousBatch(rounds)) && Started(PreviousBatch(rounds'))
    requires PreviousBatch(rounds).tss == PreviousBatch(rounds').tss
    requires var all := AllSeries(rounds, last) + AllSeries(rounds', last');
             Complete(s, all) && NoCollision(s, BatchOffers(all, s.grouping, s.matches))
    ensures var ops := Rounds.OpsOf(RoundsOf(s, rounds)) + BatchOps(s, last.tss, last.start);
            var ops' := Rounds.OpsOf(RoundsOf(s, rounds')) + BatchOps(s, last'.tss, last'.start);
            Content(Run(Empty(precision, limit, buckets), ops))
            == Content(Run(Empty(precision, limit', buckets'), ops'))
  {
    var all := AllSeries(rounds, last) + AllSeries(rounds', last');
    var val := ValuesBy(s, BatchOffers(all, s.grouping, s.matches));
    RoundsAreFunctional(s, rounds, all);
    RoundsAreFunctional(s, rounds', all);
    BatchIsFunctional(s, last.tss, last.start, all);
    BatchIsFunctional(s, last'.tss, last'.start, all);
    FunctionalConcat(Rounds.OpsOf(RoundsOf(s, rounds)), BatchOps(s, last.tss, last.start), val);
    FunctionalConcat(Rounds.OpsOf(RoundsOf(s, rounds')), BatchOps(s, last'.tss, last'.start), val);
    SameBatchOps(s, last.tss, last.start, last'.start);
    PreviousOps(s, rounds);
    PreviousOps(s, rounds');
    SameBatchOps(s, PreviousBatch(rounds).tss, PreviousBatch(rounds).start, PreviousBatch(rounds').start);
    Rounds.SameContentEverywhere(precision, limit, buckets, RoundsOf(s, rounds), BatchOps(s, last.tss, last.start),
                                 limit', buckets', RoundsOf(s, rounds'), BatchOps(s, last'.tss, last'.start), val);
  }
}
