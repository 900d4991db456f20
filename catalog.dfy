/** The fixed data of the app: the song catalog, the audience segments and
    the question contexts (their keys only: the labels are display text),
    the rating constants, and the key that names one rating bucket. */
module Catalog {

  /** The catalog (`canciones`), in catalog order. */
  const Songs: seq<string> := [
    "Billie Jean",
    "Sweet Child O' Mine",
    "Take On Me",
    "Like a Prayer",
    "Livin' on a Prayer",
    "Every Breath You Take",
    "Girls Just Want to Have Fun",
    "Eye of the Tiger",
    "With or Without You",
    "Don't Stop Believin'"
  ]

  /** The keys of `segmentos`, in declaration order. */
  const SegmentKeys: seq<string> := ["POP", "ROCK", "FIESTA", "NOST", "GENZ"]

  /** The keys of `contextos`, in declaration order. */
  const ContextKeys: seq<string> := ["ICON", "BAIL", "HIST", "PLAY"]

  /** Baseline rating of every song in every bucket. */
  const RatingInicial: real := 1000.0

  /** The Elo sensitivity factor. */
  const K: real := 32.0

  predicate Distinct(s: seq<string>) {
    forall i, j :: 0 <= i < j < |s| ==> s[i] != s[j]
  }

  /** No segment key contains the separator character of a bucket key. */
  predicate NoSeparator(s: string) {
    '_' !in s
  }

  lemma CatalogFacts()
    ensures Distinct(Songs) && Distinct(SegmentKeys) && Distinct(ContextKeys)
    ensures forall s :: s in SegmentKeys ==> NoSeparator(s)
  {
  }

  /** A key made only of decimal digits, such as "0" or "42". JavaScript
      lists the keys of an object that are array indices first, in ascending
      numeric order, and all other keys after them in the order they were
      first assigned. */
  predicate IsIndexLike(s: string) {
    s != [] && forall i :: 0 <= i < |s| ==> '0' <= s[i] <= '9'
  }

  /** No song title is an array index, so a bucket lists its songs in the
      order they were first assigned. */
  lemma SongsAreNotIndices()
    ensures forall s :: s in Songs ==> !IsIndexLike(s)
  {
    forall s | s in Songs ensures s != [] && !('0' <= s[0] <= '9') {
    }
  }

  /** `bucketKey(seg, ctx)`: the key `SEG__CTX` of one bucket. */
  function BucketKey(seg: string, ctx: string): string {
    seg + "__" + ctx
  }

  /** Two bucket keys are equal exactly when their segments and contexts are,
      as long as the segments do not contain `_`: the first `_` of a key ends
      its segment. */
  lemma {:induction false} BucketKeyInjective(s1: string, c1: string, s2: string, c2: string)
    requires NoSeparator(s1) && NoSeparator(s2)
    ensures BucketKey(s1, c1) == BucketKey(s2, c2) <==> s1 == s2 && c1 == c2
  {
    if BucketKey(s1, c1) == BucketKey(s2, c2) {
      SegmentLength(s1, c1, s2, c2);
      SegmentLength(s2, c2, s1, c1);
      var x := BucketKey(s1, c1);
      assert s1 == x[..|s1|];
      assert c1 == x[|s1| + 2..];
    }
  }

  /** A key cannot end its segment earlier than another equal key. */
  lemma SegmentLength(s1: string, c1: string, s2: string, c2: string)
    requires NoSeparator(s2)
    requires BucketKey(s1, c1) == BucketKey(s2, c2)
    ensures |s1| >= |s2|
  {
    var x := BucketKey(s1, c1);
    assert x[|s1|] == '_';
    assert forall i :: 0 <= i < |s2| ==> x[i] == s2[i];
  }

  /** The keys of the buckets for every segment of `segs` and every context of `ctxs`. */
  function Grid(segs: seq<string>, ctxs: seq<string>): set<string> {
    set s, c | s in segs && c in ctxs :: BucketKey(s, c)
  }

  /** The keys of the buckets of one segment. */
  function Row(seg: string, ctxs: seq<string>): set<string> {
    set c | c in ctxs :: BucketKey(seg, c)
  }

  /** The keys of all buckets of the app. */
  function GridKeys(): set<string> {
    Grid(SegmentKeys, ContextKeys)
  }

  lemma GridExtend(segs: seq<string>, s: string, ctxs: seq<string>)
    ensures Grid(segs + [s], ctxs) == Grid(segs, ctxs) + Row(s, ctxs)
  {
    var l, r := Grid(segs + [s], ctxs), Grid(segs, ctxs) + Row(s, ctxs);
    forall k | k in l ensures k in r {
      var s', c' :| s' in segs + [s] && c' in ctxs && k == BucketKey(s', c');
      if s' != s { assert s' in segs; }
    }
  }

  lemma RowExtend(seg: string, ctxs: seq<string>, c: string)
    ensures Row(seg, ctxs + [c]) == Row(seg, ctxs) + {BucketKey(seg, c)}
  {
    var l := Row(seg, ctxs + [c]);
    forall k | k in l ensures k in Row(seg, ctxs) + {BucketKey(seg, c)} {
      var c' :| c' in ctxs + [c] && k == BucketKey(seg, c');
      if c' != c { assert c' in ctxs; }
    }
  }

  /** The keys after context `j` of segment `i`, from those before it. */
  lemma RowStep(segs: seq<string>, i: nat, ctxs: seq<string>, j: nat)
    requires i < |segs| && j < |ctxs|
    ensures Grid(segs[..i], ctxs) + Row(segs[i], ctxs[..j + 1])
      == Grid(segs[..i], ctxs) + Row(segs[i], ctxs[..j]) + {BucketKey(segs[i], ctxs[j])}
  {
    assert ctxs[..j + 1] == ctxs[..j] + [ctxs[j]];
    RowExtend(segs[i], ctxs[..j], ctxs[j]);
  }

  /** The keys after segment `i`, from those before it. */
  lemma GridStep(segs: seq<string>, i: nat, ctxs: seq<string>)
    requires i < |segs|
    ensures Grid(segs[..i + 1], ctxs) == Grid(segs[..i], ctxs) + Row(segs[i], ctxs[..|ctxs|])
  {
    assert segs[..i + 1] == segs[..i] + [segs[i]];
    assert ctxs[..|ctxs|] == ctxs;
    GridExtend(segs[..i], segs[i], ctxs);
  }

  lemma GridEmpty(segs: seq<string>, ctxs: seq<string>)
    ensures Grid(segs[..0], ctxs) == {}
    ensures forall s :: Row(s, ctxs[..0]) == {}
    ensures Grid(segs[..|segs|], ctxs) == Grid(segs, ctxs)
  {
    assert segs[..|segs|] == segs;
  }

  /** One segment has one bucket per context. */
  lemma {:induction false} RowSize(seg: string, ctxs: seq<string>)
    requires NoSeparator(seg) && Distinct(ctxs)
    ensures |Row(seg, ctxs)| == |ctxs|
    decreases |ctxs|
  {
    if ctxs == [] {
      assert Row(seg, ctxs) == {};
    } else {
      var init, c := ctxs[..|ctxs| - 1], ctxs[|ctxs| - 1];
      assert ctxs == init + [c];
      RowSize(seg, init);
      RowExtend(seg, init, c);
      if BucketKey(seg, c) in Row(seg, init) {
        var c' :| c' in init && BucketKey(seg, c) == BucketKey(seg, c');
        BucketKeyInjective(seg, c, seg, c');
        assert false;
      }
    }
  }

  /** Every segment and context of the app names a bucket of the grid, and
      no other pair names the same one. */
  lemma GridKeyOf(seg: string, ctx: string)
    requires seg in SegmentKeys && ctx in ContextKeys
    ensures BucketKey(seg, ctx) in GridKeys()
    ensures forall s, c :: s in SegmentKeys && c in ContextKeys && (s != seg || c != ctx) ==>
      BucketKey(s, c) != BucketKey(seg, ctx)
  {
    forall s, c | s in SegmentKeys && c in ContextKeys && (s != seg || c != ctx)
      ensures BucketKey(s, c) != BucketKey(seg, ctx)
    {
      CatalogFacts();
      BucketKeyInjective(s, c, seg, ctx);
    }
  }

  /** Distinct segments without `_` and distinct contexts give one bucket per pair. */
  lemma {:induction false} GridSize(segs: seq<string>, ctxs: seq<string>)
    requires Distinct(segs) && Distinct(ctxs)
    requires forall s :: s in segs ==> NoSeparator(s)
    ensures |Grid(segs, ctxs)| == |segs| * |ctxs|
    decreases |segs|
  {
    if segs == [] {
      assert Grid(segs, ctxs) == {};
    } else {
      var init, s := segs[..|segs| - 1], segs[|segs| - 1];
      assert segs == init + [s];
      LastNotInInit(segs);
      GridSize(init, ctxs);
      GridSizeStep(init, s, ctxs);
    }
  }

  /** The last of distinct names is not among the others, which are distinct too. */
  lemma LastNotInInit(segs: seq<string>)
    requires Distinct(segs) && segs != []
    ensures Distinct(segs[..|segs| - 1]) && segs[|segs| - 1] !in segs[..|segs| - 1]
  {
    var init := segs[..|segs| - 1];
    forall i | 0 <= i < |init| ensures init[i] != segs[|segs| - 1] {
      assert init[i] == segs[i];
    }
  }

  /** Adding a new segment adds one bucket per context. */
  lemma GridSizeStep(init: seq<string>, s: string, ctxs: seq<string>)
    requires Distinct(ctxs) && s !in init && NoSeparator(s)
    requires forall s' :: s' in init ==> NoSeparator(s')
    requires |Grid(init, ctxs)| == |init| * |ctxs|
    ensures |Grid(init + [s], ctxs)| == (|init| + 1) * |ctxs|
  {
    GridExtend(init, s, ctxs);
    RowSize(s, ctxs);
    RowDisjoint(init, s, ctxs);
    var g, r := Grid(init, ctxs), Row(s, ctxs);
    assert |g + r| == |g| + |r|;
    MulSucc(|init|, |ctxs|);
  }

  lemma MulSucc(a: nat, b: nat)
    ensures (a + 1) * b == a * b + b
  {
  }

  /** The buckets of a new segment are not among those of the earlier ones. */
  lemma RowDisjoint(segs: seq<string>, s: string, ctxs: seq<string>)
    requires s !in segs && NoSeparator(s)
    requires forall s' :: s' in segs ==> NoSeparator(s')
    ensures Grid(segs, ctxs) !! Row(s, ctxs)
  {
    forall k | k in Grid(segs, ctxs) ensures k !in Row(s, ctxs) {
      var s1, c1 :| s1 in segs && c1 in ctxs && k == BucketKey(s1, c1);
      if k in Row(s, ctxs) {
        var c2 :| c2 in ctxs && k == BucketKey(s, c2);
        BucketKeyInjective(s1, c1, s, c2);
        assert false;
      }
    }
  }

  /** The app has exactly 5 x 4 = 20 buckets. */
  lemma GridKeysCount()
    ensures |GridKeys()| == |SegmentKeys| * |ContextKeys| == 20
  {
    CatalogFacts();
    GridSize(SegmentKeys, ContextKeys);
  }
}
