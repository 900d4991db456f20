/** The application state: one rating bucket per (segment, context) and the
    log of votes. `vote` updates the active bucket in place and appends to
    the log. */
module Store {
  import opened Catalog
  import opened Buckets
  import opened Elo
  import Ranking

  /** One entry of `state.votes`, with the keys in the order `vote` writes them. */
  datatype VoteRecord = VoteRecord(ts: string, segmento: string, contexto: string, A: string, B: string, ganador: string)

  /** The recorded winner is one of the two songs of the duel. */
  predicate WinnerIsContender(v: VoteRecord) {
    v.ganador == v.A || v.ganador == v.B
  }

  /** A record `vote` can write: a segment and a context of the grid, two
      catalog songs, and one of them as the winner. */
  predicate LoggedVote(v: VoteRecord) {
    && v.segmento in SegmentKeys && v.contexto in ContextKeys
    && v.A in Songs && v.B in Songs
    && WinnerIsContender(v)
  }

  /** Every song at the baseline rating, and nothing else. */
  function InitialRatings(): map<string, real> {
    map c | c in Songs :: RatingInicial
  }

  /** No two keys share one bucket object. */
  ghost predicate Separate(bs: map<string, Bucket>) {
    forall k1, k2 :: k1 in bs && k2 in bs && k1 != k2 ==> bs[k1] != bs[k2]
  }

  /** Every bucket of the grid is present, keyed `SEG__CTX`, rates exactly
      the catalog, and is its own object. */
  ghost predicate GridOf(bs: map<string, Bucket>)
    reads bs.Values
  {
    && bs.Keys == GridKeys()
    && (forall k :: k in bs ==> bs[k].Valid() && bs[k].order == Songs)
    && Separate(bs)
  }

  /** Every record of the log is one `vote` can write. */
  predicate LogOf(votes: seq<VoteRecord>) {
    forall i :: 0 <= i < |votes| ==> LoggedVote(votes[i])
  }

  /** Appending a record `vote` can write keeps the log well formed. */
  lemma LogAppend(votes: seq<VoteRecord>, v: VoteRecord)
    requires LogOf(votes) && LoggedVote(v)
    ensures LogOf(votes + [v])
  {
  }

  /** Every bucket rates the catalog at the baseline, and no two keys share one. */
  ghost predicate DefaultBucketsOf(bs: map<string, Bucket>)
    reads bs.Values
  {
    && (forall k :: k in bs ==> bs[k].Valid() && bs[k].order == Songs && bs[k].ratings == InitialRatings())
    && Separate(bs)
  }

  /** A freshly filled bucket for every key of the grid. */
  ghost predicate IsDefaultGrid(bs: map<string, Bucket>)
    reads bs.Values
  {
    bs.Keys == GridKeys() && DefaultBucketsOf(bs)
  }

  lemma DefaultGridIsGrid(bs: map<string, Bucket>)
    requires IsDefaultGrid(bs)
    ensures GridOf(bs)
  {
  }

  /** Adding a default bucket that no key holds yet keeps the buckets default
      and separate. */
  lemma AddDefault(bs: map<string, Bucket>, key: string, bucket: Bucket)
    requires DefaultBucketsOf(bs)
    requires bucket.Valid() && bucket.order == Songs && bucket.ratings == InitialRatings()
    requires forall k :: k in bs ==> bs[k] != bucket
    ensures DefaultBucketsOf(bs[key := bucket])
  {
  }

  /** `buckets[key] = {}` followed by `canciones.forEach(c => buckets[key][c] = RATING_INICIAL)`. */
  method NewDefaultBucket() returns (bucket: Bucket)
    ensures fresh(bucket)
    ensures bucket.Valid() && bucket.order == Songs && bucket.ratings == InitialRatings()
  {
    CatalogFacts();
    bucket := new Bucket();
    for m := 0 to |Songs|
      invariant bucket.Valid()
      invariant bucket.order == Songs[..m]
      invariant bucket.ratings == map c | c in Songs[..m] :: RatingInicial
    {
      assert Songs[m] !in Songs[..m];
      bucket.Set(Songs[m], RatingInicial);
      assert Songs[..m + 1] == Songs[..m] + [Songs[m]];
    }
    assert Songs[..|Songs|] == Songs;
  }

  /** The `buckets` part of `defaultState()`: for each segment, for each
      context, a new object `SEG__CTX` that maps every song to the baseline. */
  method DefaultBuckets() returns (bs: map<string, Bucket>)
    ensures IsDefaultGrid(bs)
    ensures forall k :: k in bs ==> fresh(bs[k])
  {
    bs := map[];
    GridEmpty(SegmentKeys, ContextKeys);
    for i := 0 to |SegmentKeys|
      invariant bs.Keys == Grid(SegmentKeys[..i], ContextKeys)
      invariant DefaultBucketsOf(bs)
      invariant forall k :: k in bs ==> fresh(bs[k])
    {
      var seg := SegmentKeys[i];
      for j := 0 to |ContextKeys|
        invariant bs.Keys == Grid(SegmentKeys[..i], ContextKeys) + Row(seg, ContextKeys[..j])
        invariant DefaultBucketsOf(bs)
        invariant forall k :: k in bs ==> fresh(bs[k])
      {
        var key := BucketKey(seg, ContextKeys[j]);
        var bucket := NewDefaultBucket();
        RowStep(SegmentKeys, i, ContextKeys, j);
        AddDefault(bs, key, bucket);
        bs := bs[key := bucket];
      }
      GridStep(SegmentKeys, i, ContextKeys);
    }
  }

  /** The global `state`: the buckets and the vote log. */
  class State {
    var buckets: map<string, Bucket>
    var votes: seq<VoteRecord>

    /** The complete grid of separate buckets over the catalog, and a log of
        records `vote` can write. */
    ghost predicate Valid()
      reads this, buckets.Values
    {
      GridOf(buckets) && LogOf(votes)
    }

    /** The state `defaultState()` builds. */
    ghost predicate IsDefault()
      reads this, buckets.Values
    {
      IsDefaultGrid(buckets) && votes == []
    }

    /** `defaultState()`. */
    constructor ()
      ensures Valid() && IsDefault()
      ensures forall k :: k in buckets ==> fresh(buckets[k])
    {
      var bs := DefaultBuckets();
      DefaultGridIsGrid(bs);
      buckets := bs;
      votes := [];
    }

    /** The reset button: when the user confirms, `state = defaultState()`;
        otherwise nothing changes. */
    method Reset(confirmed: bool)
      requires Valid()
      modifies this
      ensures Valid()
      ensures confirmed ==> IsDefault() && forall k :: k in buckets ==> fresh(buckets[k])
      ensures !confirmed ==> buckets == old(buckets) && votes == old(votes)
    {
      if confirmed {
        var bs := DefaultBuckets();
        DefaultGridIsGrid(bs);
        buckets, votes := bs, [];
      }
    }

    /** `vote(winner)` with the selected segment and context, the duel's two
        songs and the time of the vote given as arguments: updates the
        ratings of the active bucket and appends one record to the log. */
    method Vote(pow: real -> real, seg: string, ctx: string, a: string, b: string, winner: string, ts: string)
      requires Valid() && IsPow10(pow)
      requires seg in SegmentKeys && ctx in ContextKeys
      requires a in Songs && b in Songs
      modifies this`votes, buckets[BucketKey(seg, ctx)]
      ensures Valid()
      ensures buckets == old(buckets)
      ensures votes == old(votes) + [VoteRecord(ts, seg, ctx, a, b, if winner == "A" then a else b)]
      ensures var key := BucketKey(seg, ctx);
        var (na, nb) := NewRatings(pow, old(buckets[key].ratings[a]), old(buckets[key].ratings[b]), winner);
        buckets[key].ratings == old(buckets[key].ratings)[a := na][b := nb]
      ensures forall s, c :: s in SegmentKeys && c in ContextKeys && (s != seg || c != ctx) ==>
        buckets[BucketKey(s, c)].ratings == old(buckets[BucketKey(s, c)].ratings)
    {
      var key := BucketKey(seg, ctx);
      GridKeyOf(seg, ctx);
      var bucket := buckets[key];
      assert a in bucket.order && b in bucket.order;
      UpdateElo(pow, bucket, a, b, winner);
      var v := VoteRecord(ts, seg, ctx, a, b, if winner == "A" then a else b);
      LogAppend(votes, v);
      votes := votes + [v];
      forall k | k in buckets ensures buckets[k].Valid() && buckets[k].order == Songs {
        if k != key {
          assert buckets[k] != bucket;
        }
      }
    }

    /** The ranking `renderTop` shows: `topN(state.buckets[bucketKey(seg, ctx)])`
        with the default `n = 10`, which covers the whole catalog. */
    function TopTen(seg: string, ctx: string): (top: seq<Ranking.Entry>)
      reads this, buckets.Values
      requires Valid()
      requires seg in SegmentKeys && ctx in ContextKeys
      ensures |top| == |Songs|
      ensures forall e :: e in top ==> e.item in Songs && e.rating == buckets[BucketKey(seg, ctx)].ratings[e.item]
      ensures forall i :: 0 <= i < |Songs| ==>
        Ranking.Entry(Songs[i], buckets[BucketKey(seg, ctx)].ratings[Songs[i]]) in top
      ensures Ranking.DistinctItems(top)
      ensures Ranking.Descending(top)
      ensures top == Ranking.SortDesc(Ranking.Entries(Songs, buckets[BucketKey(seg, ctx)].ratings))
    {
      GridKeyOf(seg, ctx);
      var bucket := buckets[BucketKey(seg, ctx)];
      CatalogFacts();
      KeyCount(bucket.order, bucket.ratings);
      Ranking.EntriesFacts(bucket.order, bucket.ratings);
      Ranking.SortFacts(Ranking.Entries(bucket.order, bucket.ratings));
      Ranking.SortCovers(bucket.order, bucket.ratings);
      Ranking.TopN(bucket.order, bucket.ratings, 10)
    }
  }
}
