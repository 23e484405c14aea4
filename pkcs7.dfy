/**
 * PKCS#7 padding as RFC 5652 section 6.3 defines it: the input is followed by
 * between 1 and k octets, each holding the number of octets added, so that the
 * total length is a multiple of the block size k.  This module gives the
 * relational definition, the unpadding partner and the facts that connect them.
 */
module Pkcs7 {
  import opened Wrappers
  import opened Octets

  /** `padded` is the PKCS#7 padding of `s` to the block size k. */
  predicate IsPadding(s: seq<Byte>, k: int, padded: seq<Byte>)
    requires 0 < k
  {
    && |s| < |padded| <= |s| + k
    && |padded| % k == 0
    && padded[..|s|] == s
    && forall i | |s| <= i < |padded| :: padded[i] == |padded| - |s|
  }

  /** Remove PKCS#7 padding: the last octet says how many trailing octets to drop, and all of them must hold that value. */
  function Unpad(padded: seq<Byte>): (r: Option<seq<Byte>>)
    ensures r.Some? ==> |r.value| < |padded| && padded[..|r.value|] == r.value
    ensures r.Some? ==> forall i | |r.value| <= i < |padded| :: padded[i] == |padded| - |r.value|
  {
    if |padded| == 0 then None
    else
      var v := padded[|padded| - 1];
      if v == 0 || v > |padded| then None
      else if forall i | |padded| - v <= i < |padded| :: padded[i] == v then Some(padded[..|padded| - v])
      else None
  }

  /** Multiplying by a non-negative factor keeps the order. */
  lemma {:induction false} MulMonotone(k: int, m: int, n: int)
    requires 0 <= k && m <= n
    ensures k * m <= k * n
    decreases n - m
  {
    if m < n {
      MulMonotone(k, m, n - 1);
      assert k * n == k * (n - 1) + k;
    }
  }

  /** A multiple of k leaves no remainder. */
  lemma MultipleMod(k: int, c: nat)
    requires 0 < k
    ensures (k * c) % k == 0
  {
    var n := k * c;
    var d, r := n / k, n % k;
    assert n == k * d + r;
    if d < c {
      MulMonotone(k, d + 1, c);
      assert false;
    } else if d > c {
      MulMonotone(k, c + 1, d);
      assert false;
    }
  }

  /** Adding `k - l % k` octets reaches a multiple of k. */
  lemma PadCountAligns(l: nat, k: int)
    requires 0 < k
    ensures 1 <= k - l % k <= k
    ensures (l + (k - l % k)) % k == 0
  {
    assert l + (k - l % k) == k * (l / k + 1);
    MultipleMod(k, l / k + 1);
  }

  /** The padded length is the next multiple of k strictly above the input length. */
  lemma {:induction false} PaddedLength(s: seq<Byte>, k: int, padded: seq<Byte>)
    requires 0 < k && IsPadding(s, k, padded)
    ensures |padded| == k * (|s| / k + 1)
    ensures |padded| - |s| == k - |s| % k
  {
    var q, c := |s| / k, |padded| / k;
    assert |s| == k * q + |s| % k;
    assert |padded| == k * c;
    if c <= q {
      MulMonotone(k, c, q);
      assert false;
    } else if c >= q + 2 {
      MulMonotone(k, q + 2, c);
      assert false;
    }
    assert k * (q + 1) == k * q + k;
  }

  /** An input whose length is already a multiple of k gets a whole extra block of value k, never zero padding. */
  lemma {:induction false} FullBlockWhenAligned(s: seq<Byte>, k: int, padded: seq<Byte>)
    requires 0 < k && IsPadding(s, k, padded) && |s| % k == 0
    ensures |padded| == |s| + k
    ensures forall i | |s| <= i < |padded| :: padded[i] == k
  {
    PaddedLength(s, k, padded);
  }

  /** There is exactly one padding of a given input for a given block size. */
  lemma {:induction false} PaddingUnique(s: seq<Byte>, k: int, p1: seq<Byte>, p2: seq<Byte>)
    requires 0 < k && IsPadding(s, k, p1) && IsPadding(s, k, p2)
    ensures p1 == p2
  {
    PaddedLength(s, k, p1);
    PaddedLength(s, k, p2);
    assert |p1| == |p2|;
    forall i | 0 <= i < |p1| ensures p1[i] == p2[i] {
      if i < |s| {
        assert p1[i] == p1[..|s|][i] && p2[i] == p2[..|s|][i];
      }
    }
  }

  /** Unpadding recovers the input exactly, for every input length. */
  lemma {:induction false} UnpadPadding(s: seq<Byte>, k: int, padded: seq<Byte>)
    requires 0 < k && IsPadding(s, k, padded)
    ensures Unpad(padded) == Some(s)
  {
    var v := padded[|padded| - 1];
    assert v == |padded| - |s|;
    assert padded[..|padded| - v] == s;
  }

  /**
   * Conversely, a block-aligned sequence that unpads to `s` with a pad value of
   * at most k is the padding of `s`: together with UnpadPadding this says that
   * padding and unpadding are inverse.
   */
  lemma {:induction false} PaddingOfUnpad(padded: seq<Byte>, k: int, s: seq<Byte>)
    requires 0 < k && |padded| % k == 0
    requires Unpad(padded) == Some(s)
    requires padded[|padded| - 1] <= k
    ensures IsPadding(s, k, padded)
  {
    assert padded[|padded| - 1] == |padded| - |s|;
  }
}
