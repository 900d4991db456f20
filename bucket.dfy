/** One rating table (a bucket): a JavaScript object from song to rating.
    For keys that are not array indices (`Catalog.IsIndexLike`), a
    JavaScript object remembers the order in which they were first assigned,
    and `Object.entries` lists them in that order, so the model keeps that
    order beside the map. No song title is an array index
    (`Catalog.SongsAreNotIndices`). */
module Buckets {
  import opened Catalog

  /** `order` lists the keys of `ratings`, each once: the key order of an object. */
  ghost predicate IsKeyOrder(order: seq<string>, ratings: map<string, real>) {
    && Distinct(order)
    && (forall k :: k in ratings <==> k in order)
  }

  /** An object has as many keys as its key order lists. */
  lemma {:induction false} KeyCount(order: seq<string>, ratings: map<string, real>)
    requires IsKeyOrder(order, ratings)
    ensures |ratings| == |order|
    decreases |order|
  {
    if order == [] {
      assert ratings.Keys == {};
    } else {
      DropFirstKey(order, ratings);
      KeyCount(order[1..], ratings - {order[0]});
    }
  }

  /** Deleting the first key leaves an object with one key fewer, whose key
      order is the rest. */
  lemma DropFirstKey(order: seq<string>, ratings: map<string, real>)
    requires IsKeyOrder(order, ratings) && order != []
    ensures IsKeyOrder(order[1..], ratings - {order[0]})
    ensures |ratings| == |ratings - {order[0]}| + 1
  {
    var k, rest := order[0], order[1..];
    forall j ensures j in ratings - {k} <==> j in rest {
      assert j in order <==> j == k || j in rest by {
        assert order == [k] + rest;
      }
    }
    assert ratings.Keys == (ratings - {k}).Keys + {k};
  }

  class Bucket {
    /** The keys in the order they were first assigned. */
    var order: seq<string>
    /** The rating of each key. */
    var ratings: map<string, real>

    ghost predicate Valid()
      reads this
    {
      IsKeyOrder(order, ratings)
    }

    /** `{}`: an object with no keys. */
    constructor ()
      ensures Valid()
      ensures order == [] && ratings == map[]
    {
      order := [];
      ratings := map[];
    }

    /** `bucket[key] = r` for a key that is not an array index: overwrites an
        existing key in place and appends a new one. */
    method Set(key: string, r: real)
      requires Valid()
      modifies this
      ensures Valid()
      ensures ratings == old(ratings)[key := r]
      ensures order == if key in old(ratings) then old(order) else old(order) + [key]
    {
      if key !in ratings {
        order := order + [key];
      }
      ratings := ratings[key := r];
    }
  }
}
