/** The Elo rating update. `Math.pow(10, x)` is not computed: it is a
    parameter `pow`, and the model proves its results for every function
    that has the properties of the power of ten that the update relies on. */
module Elo {
  import opened Catalog
  import opened Buckets

  /** What the model knows of `Math.pow(10, x)`: it is positive, 10^x * 10^-x == 1,
      and it is strictly increasing. */
  ghost predicate IsPow10(pow: real -> real) {
    && (forall x :: 0.0 < pow(x))
    && (forall x, y :: x + y == 0.0 ==> pow(x) * pow(y) == 1.0)
    && (forall x, y :: x < y ==> pow(x) < pow(y))
  }

  /** The sign of a product. */
  lemma ProductSign(x: real, y: real)
    ensures x > 0.0 && y > 0.0 ==> x * y > 0.0
    ensures x < 0.0 && y > 0.0 ==> x * y < 0.0
  {
  }

  lemma PowZero(pow: real -> real)
    requires IsPow10(pow)
    ensures pow(0.0) == 1.0
  {
    var p := pow(0.0);
    assert p * p == 1.0;
    assert 0.0 < p;
    var u, v := p - 1.0, p + 1.0;
    assert u * v == p * p - 1.0;
    ProductSign(u, v);
  }

  /** `expectedScore(ra, rb)`: the probability, by the logistic curve, that
      the song rated `ra` beats the song rated `rb`. */
  function ExpectedScore(pow: real -> real, ra: real, rb: real): (e: real)
    requires IsPow10(pow)
    ensures 0.0 < e < 1.0
  {
    1.0 / (1.0 + pow((rb - ra) / 400.0))
  }

  /** The two expectations of a duel add up to one. */
  lemma ExpectedScoreSymmetric(pow: real -> real, ra: real, rb: real)
    requires IsPow10(pow)
    ensures ExpectedScore(pow, ra, rb) + ExpectedScore(pow, rb, ra) == 1.0
  {
    var p, q := pow((rb - ra) / 400.0), pow((ra - rb) / 400.0);
    assert p * q == 1.0 by {
      assert (rb - ra) / 400.0 + (ra - rb) / 400.0 == 0.0;
    }
    assert 1.0 / (1.0 + q) == p / (p + 1.0) by {
      assert p * (1.0 + q) == p + 1.0;
    }
    assert 1.0 / (1.0 + p) + p / (p + 1.0) == 1.0;
  }

  /** Equal ratings give an even duel. */
  lemma ExpectedScoreEven(pow: real -> real, r: real)
    requires IsPow10(pow)
    ensures ExpectedScore(pow, r, r) == 0.5
  {
    PowZero(pow);
    assert (r - r) / 400.0 == 0.0;
  }

  /** The higher-rated song is the favourite, and only it. */
  lemma ExpectedScoreFavours(pow: real -> real, ra: real, rb: real)
    requires IsPow10(pow)
    ensures ExpectedScore(pow, ra, rb) > 0.5 <==> ra > rb
    ensures ExpectedScore(pow, ra, rb) < 0.5 <==> ra < rb
  {
    PowZero(pow);
    var d := (rb - ra) / 400.0;
    var p := pow(d);
    if ra > rb {
      assert d < 0.0 && p < 1.0;
    } else if ra < rb {
      assert d > 0.0 && p > 1.0;
    } else {
      assert d == 0.0 && p == 1.0;
    }
  }

  /** The actual score of one side: 1 when `winner` names it, else 0. */
  function Score(winner: string, side: string): real {
    if winner == side then 1.0 else 0.0
  }

  /** The ratings of A and B after a duel rated `ra` against `rb`. */
  function NewRatings(pow: real -> real, ra: real, rb: real, winner: string): (real, real)
    requires IsPow10(pow)
  {
    var ea := ExpectedScore(pow, ra, rb);
    (ra + K * (Score(winner, "A") - ea), rb + K * (Score(winner, "B") - (1.0 - ea)))
  }

  /** The update is zero-sum exactly when the winner is "A" or "B"; any other
      winner takes K points out of the pair. */
  lemma EloZeroSum(pow: real -> real, ra: real, rb: real, winner: string)
    requires IsPow10(pow)
    ensures var (na, nb) := NewRatings(pow, ra, rb, winner);
      && (na + nb == ra + rb <==> winner == "A" || winner == "B")
      && (winner != "A" && winner != "B" ==> na + nb == ra + rb - K)
  {
  }

  /** The winner gains, the loser loses; with no valid winner both lose. */
  lemma EloWinnerGains(pow: real -> real, ra: real, rb: real, winner: string)
    requires IsPow10(pow)
    ensures var (na, nb) := NewRatings(pow, ra, rb, winner);
      && (winner == "A" ==> na > ra && nb < rb)
      && (winner == "B" ==> na < ra && nb > rb)
      && (winner != "A" && winner != "B" ==> na < ra && nb < rb)
  {
  }

  /** Between equal ratings the winner takes K / 2 = 16 points from the loser. */
  lemma EloEqualRatings(pow: real -> real, r: real)
    requires IsPow10(pow)
    ensures NewRatings(pow, r, r, "A") == (r + 16.0, r - 16.0)
    ensures NewRatings(pow, r, r, "B") == (r - 16.0, r + 16.0)
  {
    ExpectedScoreEven(pow, r);
  }

  /** The first vote of a bucket: 1000 against 1000, A wins. */
  lemma EloFirstVote(pow: real -> real)
    requires IsPow10(pow)
    ensures NewRatings(pow, RatingInicial, RatingInicial, "A") == (1016.0, 984.0)
  {
    EloEqualRatings(pow, RatingInicial);
  }

  /** Which song is shown as A does not matter: swapping the sides and the
      winner swaps the new ratings. */
  lemma EloSideSymmetric(pow: real -> real, ra: real, rb: real)
    requires IsPow10(pow)
    ensures var (na, nb) := NewRatings(pow, ra, rb, "A");
      NewRatings(pow, rb, ra, "B") == (nb, na)
    ensures var (na, nb) := NewRatings(pow, ra, rb, "B");
      NewRatings(pow, rb, ra, "A") == (nb, na)
  {
    ExpectedScoreSymmetric(pow, ra, rb);
  }

  /** `updateElo(bucket, a, b, winner)`: rewrites the ratings of `a` and `b` in place. */
  method UpdateElo(pow: real -> real, bucket: Bucket, a: string, b: string, winner: string)
    requires IsPow10(pow)
    requires bucket.Valid() && a in bucket.ratings && b in bucket.ratings
    modifies bucket
    ensures bucket.Valid() && bucket.order == old(bucket.order)
    ensures var (na, nb) := NewRatings(pow, old(bucket.ratings[a]), old(bucket.ratings[b]), winner);
      bucket.ratings == old(bucket.ratings)[a := na][b := nb]
    ensures bucket.ratings.Keys == old(bucket.ratings.Keys)
    ensures forall k :: k in bucket.ratings && k != a && k != b ==> bucket.ratings[k] == old(bucket.ratings[k])
    ensures a != b && (winner == "A" || winner == "B") ==>
      bucket.ratings[a] + bucket.ratings[b] == old(bucket.ratings[a] + bucket.ratings[b])
  {
    var ra, rb := bucket.ratings[a], bucket.ratings[b];
    var ea := ExpectedScore(pow, ra, rb);
    var sa := if winner == "A" then 1.0 else 0.0;
    var sb := if winner == "B" then 1.0 else 0.0;
    bucket.Set(a, ra + K * (sa - ea));
    bucket.Set(b, rb + K * (sb - (1.0 - ea)));
    EloZeroSum(pow, ra, rb, winner);
  }
}
