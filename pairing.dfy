/** Drawing the two songs of a duel. `Math.random()` is modelled by the
    finite sequence of values it returns, each in [0, 1); the rejection loop
    consumes them until the second song differs from the first. */
module Pairing {
  import opened Wrappers
  import opened Catalog

  /** Every value of the random stream lies in [0, 1). */
  predicate IsRandomStream(draws: seq<real>) {
    forall i :: 0 <= i < |draws| ==> 0.0 <= draws[i] < 1.0
  }

  /** `canciones[Math.floor(r * canciones.length)]` for a random value `r`. */
  function Pick(r: real): (song: string)
    requires 0.0 <= r < 1.0
    ensures song in Songs
  {
    var i := (r * |Songs| as real).Floor;
    assert 0 <= i < |Songs|;
    Songs[i]
  }

  /** `randomPair()`: the first draw gives A, later draws are rejected while
      they give A again, and the first one that does not gives B. `used` is
      the number of draws consumed. The result is `None` only when the stream
      runs out before any draw differs from the first. */
  method RandomPair(draws: seq<real>) returns (pair: Option<(string, string)>, used: nat)
    requires IsRandomStream(draws)
    ensures used <= |draws|
    ensures pair.Some? ==> pair.value.0 in Songs && pair.value.1 in Songs && pair.value.0 != pair.value.1
    ensures pair.Some? ==>
      && 2 <= used
      && pair.value.0 == Pick(draws[0])
      && pair.value.1 == Pick(draws[used - 1])
      && forall i :: 1 <= i < used - 1 ==> Pick(draws[i]) == pair.value.0
    ensures pair.None? <==> forall i :: 0 < i < |draws| ==> Pick(draws[i]) == Pick(draws[0])
  {
    if |draws| == 0 {
      return None, 0;
    }
    var a := Pick(draws[0]);
    var b := a;
    var i := 1;
    while b == a && i < |draws|
      invariant 1 <= i <= |draws|
      invariant b == a ==> forall j :: 1 <= j < i ==> Pick(draws[j]) == a
      invariant b != a ==> 2 <= i && b == Pick(draws[i - 1]) && forall j :: 1 <= j < i - 1 ==> Pick(draws[j]) == a
    {
      b := Pick(draws[i]);
      i := i + 1;
    }
    used := i;
    if b == a {
      pair := None;
    } else {
      pair := Some((a, b));
    }
  }
}
