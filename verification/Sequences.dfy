/** Sequence operations the modules share. */
module Sequences {
  /** `splice(i, 1)`: everything but position i. */
  function Remove<T>(s: seq<T>, i: nat): seq<T>
    requires i < |s|
  {
    s[..i] + s[i + 1..]
  }

  /** Rising positions of a list of length n. */
  ghost predicate Rising(positions: seq<nat>, n: nat) {
    && (forall k :: 0 <= k < |positions| ==> positions[k] < n)
    && (forall j, k :: 0 <= j < k < |positions| ==> positions[j] < positions[k])
  }

  /** The end of a list extended by one comes after all its positions. */
  lemma RisingWithLast(positions: seq<nat>, n: nat)
    requires Rising(positions, n)
    ensures Rising(positions, n + 1) && Rising(positions + [n], n + 1)
    ensures n !in positions
    ensures forall p: nat :: p in positions + [n] <==> p in positions || p == n
  {
  }
}
