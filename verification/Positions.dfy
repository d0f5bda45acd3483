/** Where a key occurs in a sequence of keys, and which occurrence a position is.

    The quoter groups targets by address, oracle requests by URL, and holes by whether a pair is quoted;
    every one of these scatters and gathers through lists of positions like these. */
module Positions {
  /** The positions of `k` in `keys`, in increasing order. */
  function PositionsOf<K(==)>(keys: seq<K>, k: K): (r: seq<nat>)
    ensures |r| <= |keys|
    ensures forall p {:trigger p in r} :: p in r <==> 0 <= p < |keys| && keys[p] == k
    ensures forall i, j :: 0 <= i < j < |r| ==> r[i] < r[j]
    decreases |keys|
  {
    if |keys| == 0 then []
    else
      var n := |keys| - 1;
      var before := PositionsOf(keys[..n], k);
      assert forall i :: 0 <= i < |before| ==> before[i] in before;
      if keys[n] == k then before + [n] else before
  }

  /** How many earlier positions hold the same key as position `t`. */
  function RankOf<K(==)>(keys: seq<K>, t: nat): (r: nat)
    requires t < |keys|
  {
    |PositionsOf(keys[..t], keys[t])|
  }

  lemma {:induction false} NoPositions<K>(keys: seq<K>, k: K)
    requires forall t :: 0 <= t < |keys| ==> keys[t] != k
    ensures PositionsOf(keys, k) == []
    decreases |keys|
  {
    if |keys| > 0 {
      NoPositions(keys[..|keys| - 1], k);
    }
  }

  /** Appending keys only appends positions. */
  lemma {:induction false} PositionsGrow<K>(keys: seq<K>, n: nat, k: K)
    requires n <= |keys|
    ensures PositionsOf(keys[..n], k) <= PositionsOf(keys, k)
    decreases |keys|
  {
    var m := |keys| - 1;
    if n == |keys| {
      assert keys[..n] == keys;
    } else {
      PositionsGrow(keys[..m], n, k);
      assert keys[..m][..n] == keys[..n];
    }
  }

  /** Position `t` is occurrence number `RankOf(keys, t)` of its own key. */
  lemma {:induction false} RankIsInverse<K>(keys: seq<K>, t: nat)
    requires t < |keys|
    ensures RankOf(keys, t) < |PositionsOf(keys, keys[t])|
    ensures PositionsOf(keys, keys[t])[RankOf(keys, t)] == t
  {
    PositionsGrow(keys, t + 1, keys[t]);
    assert keys[..t + 1][..t] == keys[..t];
    assert PositionsOf(keys[..t + 1], keys[t]) == PositionsOf(keys[..t], keys[t]) + [t];
  }

  /** Occurrence number `j` of a key has rank `j`. */
  lemma {:induction false} RankOfPosition<K>(keys: seq<K>, k: K, j: nat)
    requires j < |PositionsOf(keys, k)|
    ensures PositionsOf(keys, k)[j] in PositionsOf(keys, k)
    ensures RankOf(keys, PositionsOf(keys, k)[j]) == j
  {
    var t := PositionsOf(keys, k)[j];
    assert t in PositionsOf(keys, k);
    RankIsInverse(keys, t);
  }
}
