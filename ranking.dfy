/** `topN(bucket, n)`: the entries of a bucket sorted by rating, highest
    first, by a stable sort (ties keep the bucket's key order), cut to `n`. */
module Ranking {
  import opened Catalog
  import opened Buckets

  datatype Entry = Entry(item: string, rating: real)

  /** `Object.entries(bucket).map(...)`: one entry per key, in key order. */
  function Entries(order: seq<string>, ratings: map<string, real>): seq<Entry>
    requires forall k :: k in order ==> k in ratings
  {
    seq(|order|, i requires 0 <= i < |order| => Entry(order[i], ratings[order[i]]))
  }

  /** Ratings never increase along `s`. */
  predicate Descending(s: seq<Entry>) {
    forall i, j :: 0 <= i < j < |s| ==> s[i].rating >= s[j].rating
  }

  predicate DistinctItems(s: seq<Entry>) {
    forall i, j :: 0 <= i < j < |s| ==> s[i].item != s[j].item
  }

  /** The entries of `s` rated `v`, in the order of `s`. */
  function WithRating(s: seq<Entry>, v: real): seq<Entry> {
    if s == [] then []
    else (if s[0].rating == v then [s[0]] else []) + WithRating(s[1..], v)
  }

  /** Puts `x`, which came before every entry of `s`, in front of the first
      entry of `s` that it is not rated below. */
  function Insert(x: Entry, s: seq<Entry>): (r: seq<Entry>)
    ensures multiset(r) == multiset(s) + multiset{x}
  {
    if s == [] || x.rating >= s[0].rating then [x] + s
    else
      assert s == [s[0]] + s[1..];
      [s[0]] + Insert(x, s[1..])
  }

  lemma {:induction false} InsertDescending(x: Entry, s: seq<Entry>)
    requires Descending(s)
    ensures Descending(Insert(x, s))
  {
    if s == [] || x.rating >= s[0].rating {
      HeadDominates(s);
      ConsDescending(x, s);
    } else {
      var rest := Insert(x, s[1..]);
      InsertCons(x, s);
      InsertDescending(x, s[1..]);
      InsertMembers(x, s[1..]);
      HeadDominates(s);
      ConsDescending(s[0], rest);
    }
  }

  /** The head of a descending list is rated at least as high as every entry. */
  lemma HeadDominates(s: seq<Entry>)
    requires Descending(s)
    ensures s != [] ==> forall e :: e in s ==> s[0].rating >= e.rating
  {
  }

  /** An entry rated at least as high as every entry of a descending list can
      go in front of it. */
  lemma ConsDescending(h: Entry, rest: seq<Entry>)
    requires Descending(rest)
    requires forall e :: e in rest ==> h.rating >= e.rating
    ensures Descending([h] + rest)
  {
    var l := [h] + rest;
    forall i, j | 0 <= i < j < |l| ensures l[i].rating >= l[j].rating {
      assert l[j] == rest[j - 1];
      if i > 0 {
        assert l[i] == rest[i - 1];
      }
    }
  }

  /** Past a head rated above `x`, insertion goes on in the tail. */
  lemma InsertCons(x: Entry, s: seq<Entry>)
    requires s != [] && x.rating < s[0].rating
    ensures Insert(x, s) == [s[0]] + Insert(x, s[1..])
  {
  }

  /** Insertion adds `x` and nothing else. */
  lemma InsertMembers(x: Entry, s: seq<Entry>)
    ensures forall e :: e in Insert(x, s) ==> e == x || e in s
  {
    forall e | e in Insert(x, s) ensures e == x || e in s {
      assert e in multiset(Insert(x, s));
    }
  }

  /** The stable sort by rating, highest first, that `Array.prototype.sort`
      performs with the comparator `(x, y) => y.rating - x.rating`. */
  function SortDesc(s: seq<Entry>): (r: seq<Entry>)
    ensures multiset(r) == multiset(s)
    ensures Descending(r)
  {
    if s == [] then []
    else
      assert s == [s[0]] + s[1..];
      InsertDescending(s[0], SortDesc(s[1..]));
      Insert(s[0], SortDesc(s[1..]))
  }

  /** Insertion is stable: `x`, which came first, lands before every entry
      rated as it is, and the entries of each rating keep their order. */
  lemma {:induction false} InsertStable(x: Entry, s: seq<Entry>, v: real)
    ensures x.rating == v ==> WithRating(Insert(x, s), v) == [x] + WithRating(s, v)
    ensures x.rating != v ==> WithRating(Insert(x, s), v) == WithRating(s, v)
  {
    if s == [] || x.rating >= s[0].rating {
      assert Insert(x, s) == [x] + s;
      WithRatingCons(x, s, v);
    } else {
      InsertStable(x, s[1..], v);
      InsertStableStep(x, s, v);
    }
  }

  /** One step of `InsertStable`: passing a head rated above `x`. */
  lemma InsertStableStep(x: Entry, s: seq<Entry>, v: real)
    requires s != [] && x.rating < s[0].rating
    requires x.rating == v ==> WithRating(Insert(x, s[1..]), v) == [x] + WithRating(s[1..], v)
    requires x.rating != v ==> WithRating(Insert(x, s[1..]), v) == WithRating(s[1..], v)
    ensures x.rating == v ==> WithRating(Insert(x, s), v) == [x] + WithRating(s, v)
    ensures x.rating != v ==> WithRating(Insert(x, s), v) == WithRating(s, v)
  {
    var h, rest := s[0], Insert(x, s[1..]);
    InsertCons(x, s);
    WithRatingCons(h, rest, v);
    assert s == [h] + s[1..];
    WithRatingCons(h, s[1..], v);
    if h.rating == v && x.rating != v {
      assert WithRating(Insert(x, s), v) == [h] + WithRating(rest, v);
    }
  }

  /** The entries rated `v` of a list with head `h`. */
  lemma WithRatingCons(h: Entry, rest: seq<Entry>, v: real)
    ensures h.rating == v ==> WithRating([h] + rest, v) == [h] + WithRating(rest, v)
    ensures h.rating != v ==> WithRating([h] + rest, v) == WithRating(rest, v)
  {
    var l := [h] + rest;
    assert l[0] == h && l[1..] == rest;
    if h.rating != v {
      assert WithRating(l, v) == [] + WithRating(rest, v);
    }
  }

  /** Unfolds `WithRating` by one entry. */
  lemma WithRatingTail(s: seq<Entry>, v: real)
    requires s != []
    ensures WithRating(s, v) == (if s[0].rating == v then [s[0]] else []) + WithRating(s[1..], v)
    ensures s[0].rating == v ==>
      (WithRating(s, v) != [] && WithRating(s, v)[0] == s[0] && WithRating(s, v)[1..] == WithRating(s[1..], v))
    ensures s[0].rating != v ==> WithRating(s, v) == WithRating(s[1..], v)
  {
  }

  /** The sort is stable: the entries of each rating keep their relative order. */
  lemma {:induction false} SortStable(s: seq<Entry>, v: real)
    ensures WithRating(SortDesc(s), v) == WithRating(s, v)
  {
    if s != [] {
      SortStable(s[1..], v);
      InsertStable(s[0], SortDesc(s[1..]), v);
      assert s == [s[0]] + s[1..];
      WithRatingCons(s[0], s[1..], v);
    }
  }

  lemma {:induction false} WithRatingMembers(s: seq<Entry>, v: real, e: Entry)
    requires e in WithRating(s, v)
    ensures e in s && e.rating == v
  {
    if s != [] && e in WithRating(s[1..], v) {
      WithRatingMembers(s[1..], v, e);
    }
  }

  /** Sorted and stable determine the result: any descending sequence with
      the same entries of each rating in the same order is `SortDesc`'s. */
  lemma {:induction false} StableSortUnique(a: seq<Entry>, b: seq<Entry>)
    requires Descending(a) && Descending(b)
    requires forall v :: WithRating(a, v) == WithRating(b, v)
    ensures a == b
    decreases |a|
  {
    if a != [] {
      WithRatingTail(a, a[0].rating);
    }
    if b != [] {
      WithRatingTail(b, b[0].rating);
    }
    if a != [] && b != [] {
      var va, vb := a[0].rating, b[0].rating;
      WithRatingTail(a, va);
      WithRatingTail(b, vb);
      WithRatingMembers(b, va, a[0]);
      WithRatingMembers(a, vb, b[0]);
      assert va == vb;
      assert a[0] == b[0] by {
        assert WithRating(a, va)[0] == a[0];
        assert WithRating(b, va)[0] == b[0];
      }
      forall w ensures WithRating(a[1..], w) == WithRating(b[1..], w) {
        assert WithRating(a, w) == WithRating(b, w);
        WithRatingTail(a, w);
        WithRatingTail(b, w);
      }
      StableSortUnique(a[1..], b[1..]);
      assert a == [a[0]] + a[1..];
      assert b == [b[0]] + b[1..];
    }
  }

  /** `SortDesc(s)` is the only stable descending arrangement of `s`. */
  lemma SortDescCharacterized(s: seq<Entry>, r: seq<Entry>)
    requires Descending(r)
    requires forall v :: WithRating(r, v) == WithRating(s, v)
    ensures r == SortDesc(s)
  {
    forall v ensures WithRating(r, v) == WithRating(SortDesc(s), v) {
      SortStable(s, v);
    }
    StableSortUnique(r, SortDesc(s));
  }

  lemma {:induction false} InsertDistinct(x: Entry, s: seq<Entry>)
    requires DistinctItems(s)
    requires forall e :: e in s ==> e.item != x.item
    ensures DistinctItems(Insert(x, s))
  {
    if s == [] || x.rating >= s[0].rating {
      ConsDistinct(x, s);
    } else {
      var rest := Insert(x, s[1..]);
      InsertCons(x, s);
      InsertDistinct(x, s[1..]);
      InsertMembers(x, s[1..]);
      forall e | e in rest ensures e.item != s[0].item {
        if e != x {
          var k :| 0 <= k < |s[1..]| && s[1..][k] == e;
          assert s[k + 1] == e;
        }
      }
      ConsDistinct(s[0], rest);
    }
  }

  /** An entry whose item no entry of a list carries can go in front of it. */
  lemma ConsDistinct(h: Entry, rest: seq<Entry>)
    requires DistinctItems(rest)
    requires forall e :: e in rest ==> e.item != h.item
    ensures DistinctItems([h] + rest)
  {
    var l := [h] + rest;
    forall i, j | 0 <= i < j < |l| ensures l[i].item != l[j].item {
      assert l[j] == rest[j - 1];
      if i > 0 {
        assert l[i] == rest[i - 1];
      }
    }
  }

  /** Sorting keeps the items distinct. */
  lemma {:induction false} SortDistinct(s: seq<Entry>)
    requires DistinctItems(s)
    ensures DistinctItems(SortDesc(s))
  {
    if s != [] {
      SortDistinct(s[1..]);
      forall e | e in SortDesc(s[1..]) ensures e.item != s[0].item {
        assert e in multiset(SortDesc(s[1..]));
      }
      InsertDistinct(s[0], SortDesc(s[1..]));
    }
  }

  /** Cutting a sequence keeps a prefix of the entries of each rating. */
  lemma {:induction false} WithRatingPrefix(s: seq<Entry>, m: nat, v: real)
    requires m <= |s|
    ensures WithRating(s[..m], v) <= WithRating(s, v)
  {
    if m > 0 {
      WithRatingPrefix(s[1..], m - 1, v);
      WithRatingTail(s, v);
      WithRatingTail(s[..m], v);
      assert s[..m][1..] == s[1..][..m - 1];
    }
  }

  /** `arr.slice(0, n)`. */
  function Take(s: seq<Entry>, n: nat): seq<Entry> {
    if n < |s| then s[..n] else s
  }

  /** The entries of an object: one per key, each carrying the key's rating. */
  lemma EntriesFacts(order: seq<string>, ratings: map<string, real>)
    requires IsKeyOrder(order, ratings)
    ensures |Entries(order, ratings)| == |ratings|
    ensures DistinctItems(Entries(order, ratings))
    ensures forall e :: e in Entries(order, ratings) ==> e.item in ratings && e.rating == ratings[e.item]
  {
    KeyCount(order, ratings);
  }

  /** The sorted entries are the same entries, with the same items. */
  lemma SortFacts(es: seq<Entry>)
    requires DistinctItems(es)
    ensures |SortDesc(es)| == |es|
    ensures forall e :: e in SortDesc(es) <==> e in es
    ensures DistinctItems(SortDesc(es))
    ensures forall v :: WithRating(SortDesc(es), v) == WithRating(es, v)
  {
    var sorted := SortDesc(es);
    assert |sorted| == |es| by {
      assert |multiset(sorted)| == |multiset(es)|;
    }
    SortDistinct(es);
    forall e ensures e in sorted <==> e in es {
      assert e in multiset(sorted) <==> e in multiset(es);
    }
    forall v ensures WithRating(sorted, v) == WithRating(es, v) {
      SortStable(es, v);
    }
  }

  /** The first `n` entries of `s`. */
  lemma TakeFacts(s: seq<Entry>, n: nat)
    ensures |Take(s, n)| == if n < |s| then n else |s|
    ensures Descending(s) ==> Descending(Take(s, n))
    ensures DistinctItems(s) ==> DistinctItems(Take(s, n))
    ensures forall e :: e in Take(s, n) ==> e in s
    ensures forall v :: WithRating(Take(s, n), v) <= WithRating(s, v)
  {
    var top := Take(s, n);
    assert top == s[..|top|];
    forall v ensures WithRating(top, v) <= WithRating(s, v) {
      WithRatingPrefix(s, |top|, v);
    }
  }

  /** Every key of a bucket appears in the sorted entries with its rating. */
  lemma SortCovers(order: seq<string>, ratings: map<string, real>)
    requires IsKeyOrder(order, ratings)
    ensures forall i :: 0 <= i < |order| ==> Entry(order[i], ratings[order[i]]) in SortDesc(Entries(order, ratings))
  {
    var es := Entries(order, ratings);
    forall i | 0 <= i < |order| ensures Entry(order[i], ratings[order[i]]) in SortDesc(es) {
      assert es[i] == Entry(order[i], ratings[order[i]]);
      assert es[i] in multiset(es);
    }
  }

  /** What a descending list leaves out after its first `n` entries is rated
      no higher than anything it keeps. */
  lemma TakeDominates(s: seq<Entry>, n: nat)
    requires Descending(s)
    ensures forall e, t :: e in s && e !in Take(s, n) && t in Take(s, n) ==> t.rating >= e.rating
  {
    var top := Take(s, n);
    assert top == s[..|top|];
    forall e, t | e in s && e !in top && t in top ensures t.rating >= e.rating {
      var j :| 0 <= j < |s| && s[j] == e;
      var i :| 0 <= i < |top| && top[i] == t;
      forall k | 0 <= k < |top| ensures s[k] != e {
        assert top[k] in top;
      }
      assert i < j;
    }
  }

  /** `topN(bucket, n)` for a bucket with key order `order` and ratings `ratings`. */
  function TopN(order: seq<string>, ratings: map<string, real>, n: nat): (top: seq<Entry>)
    requires IsKeyOrder(order, ratings)
    ensures |top| == if n < |ratings| then n else |ratings|
    ensures Descending(top)
    ensures forall e :: e in top ==> e.item in ratings && e.rating == ratings[e.item]
    ensures DistinctItems(top)
    ensures forall v :: WithRating(top, v) <= WithRating(Entries(order, ratings), v)
    ensures forall e, t :: e in Entries(order, ratings) && e !in top && t in top ==> t.rating >= e.rating
  {
    var es := Entries(order, ratings);
    EntriesFacts(order, ratings);
    SortFacts(es);
    TakeFacts(SortDesc(es), n);
    TakeDominates(SortDesc(es), n);
    Take(SortDesc(es), n)
  }

  /** Ratings 1050, 1000 and 1200 rank the third key first and the second last. */
  lemma TopNExample()
    ensures TopN(["S1", "S2", "S3"], map["S1" := 1050.0, "S2" := 1000.0, "S3" := 1200.0], 3)
      == [Entry("S3", 1200.0), Entry("S1", 1050.0), Entry("S2", 1000.0)]
  {
    var order, ratings := ["S1", "S2", "S3"], map["S1" := 1050.0, "S2" := 1000.0, "S3" := 1200.0];
    ExampleEntries();
    ExampleSort();
    assert Take(SortDesc(Entries(order, ratings)), 3) == SortDesc(Entries(order, ratings));
  }

  lemma ExampleEntries()
    ensures Entries(["S1", "S2", "S3"], map["S1" := 1050.0, "S2" := 1000.0, "S3" := 1200.0])
      == [Entry("S1", 1050.0), Entry("S2", 1000.0), Entry("S3", 1200.0)]
  {
  }

  lemma ExampleSort()
    ensures SortDesc([Entry("S1", 1050.0), Entry("S2", 1000.0), Entry("S3", 1200.0)])
      == [Entry("S3", 1200.0), Entry("S1", 1050.0), Entry("S2", 1000.0)]
  {
    SortThree(Entry("S1", 1050.0), Entry("S2", 1000.0), Entry("S3", 1200.0));
  }

  /** Three entries, the last rated highest and the middle one lowest. */
  lemma SortThree(e1: Entry, e2: Entry, e3: Entry)
    requires e2.rating < e1.rating < e3.rating
    ensures SortDesc([e1, e2, e3]) == [e3, e1, e2]
  {
    SortTwo(e2, e3);
    InsertSecond(e1, e3, e2);
    SortStep(e1, [e2, e3], [e3, e2], [e3, e1, e2]);
    assert [e1] + [e2, e3] == [e1, e2, e3];
  }

  lemma SortOne(e: Entry)
    ensures SortDesc([e]) == [e]
  {
    assert [e] + [] == [e];
    InsertFront(e, []);
    SortStep(e, [], [], [e]);
  }

  lemma SortTwo(e1: Entry, e2: Entry)
    requires e1.rating < e2.rating
    ensures SortDesc([e1, e2]) == [e2, e1]
  {
    SortOne(e2);
    InsertFront(e1, []);
    InsertBelow(e1, e2, [], [e1]);
    assert [e2] + [e1] == [e2, e1];
    SortStep(e1, [e2], [e2], [e2, e1]);
    assert [e1] + [e2] == [e1, e2];
  }

  lemma InsertSecond(x: Entry, y: Entry, z: Entry)
    requires z.rating < x.rating < y.rating
    ensures Insert(x, [y, z]) == [y, x, z]
  {
    InsertFront(x, [z]);
    InsertBelow(x, y, [z], [x, z]);
    assert [y] + [z] == [y, z] && [y] + [x, z] == [y, x, z] && [x] + [z] == [x, z];
  }

  /** One step of the insertion sort on a concrete list. */
  lemma SortStep(x: Entry, s: seq<Entry>, sorted: seq<Entry>, r: seq<Entry>)
    requires SortDesc(s) == sorted && Insert(x, sorted) == r
    ensures SortDesc([x] + s) == r
  {
    assert ([x] + s)[0] == x && ([x] + s)[1..] == s;
  }

  lemma InsertFront(x: Entry, s: seq<Entry>)
    requires s == [] || x.rating >= s[0].rating
    ensures Insert(x, s) == [x] + s
  {
  }

  lemma InsertBelow(x: Entry, y: Entry, s: seq<Entry>, r: seq<Entry>)
    requires x.rating < y.rating && Insert(x, s) == r
    ensures Insert(x, [y] + s) == [y] + r
  {
    assert ([y] + s)[0] == y && ([y] + s)[1..] == s;
  }
}
