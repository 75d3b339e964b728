/** Bits, and numbers as lists of bits with the lowest one first. */
module Bits {
  import opened Powers

  type Bit = b: nat | b < 2

  function BitXor(a: Bit, b: Bit): Bit {
    if a == b then 0 else 1
  }

  function BitOr(a: Bit, b: Bit): Bit {
    if a == 1 then 1 else b
  }

  function BitAnd(a: Bit, b: Bit): Bit {
    if a == 1 then b else 0
  }

  function BitNot(a: Bit): Bit {
    1 - a
  }

  function Num(s: seq<Bit>): nat {
    if s == [] then 0 else s[0] as nat + 2 * Num(s[1..])
  }

  function BitsOf(x: nat, n: nat): (s: seq<Bit>)
    ensures |s| == n
  {
    if n == 0 then [] else [x % 2] + BitsOf(x / 2, n - 1)
  }

  lemma {:induction false} NumBound(s: seq<Bit>)
    ensures Num(s) < Pow2(|s|)
  {
    if s != [] {
      NumBound(s[1..]);
    }
  }

  lemma {:induction false} NumOfBits(x: nat, n: nat)
    requires x < Pow2(n)
    ensures Num(BitsOf(x, n)) == x
  {
    if n > 0 {
      NumOfBits(x / 2, n - 1);
    }
  }

  lemma {:induction false} NumConcat(a: seq<Bit>, b: seq<Bit>)
    ensures Num(a + b) == Num(a) + Pow2(|a|) * Num(b)
  {
    if a == [] {
      assert a + b == b;
    } else {
      assert (a + b)[1..] == a[1..] + b;
      NumConcat(a[1..], b);
      Twice(Pow2(|a| - 1), Num(b));
    }
  }

  lemma Twice(p: nat, n: nat)
    ensures (2 * p) * n == 2 * (p * n)
  {
  }

  /** Where the first 1 is, or the length. */
  function FirstOne(s: seq<Bit>): (k: nat)
    ensures k <= |s| && (k < |s| ==> s[k] == 1) && forall j: nat :: j < k ==> s[j] == 0
  {
    if s == [] then 0 else if s[0] == 1 then 0 else 1 + FirstOne(s[1..])
  }

  /** The or of all bits up to each place. */
  function PreOr(s: seq<Bit>): (p: seq<Bit>)
    ensures |p| == |s|
  {
    seq(|s|, k requires 0 <= k < |s| => if FirstOne(s) <= k then 1 else 0)
  }

  function XorSum(s: seq<Bit>): Bit {
    if s == [] then 0 else BitXor(XorSum(s[..|s| - 1]), s[|s| - 1])
  }

  /** A list with one 1 at place `k`, or none when `k` is the length. */
  function OneHot(n: nat, k: nat): (s: seq<Bit>)
    ensures |s| == n
  {
    seq(n, j => if j == k then 1 else 0)
  }

  lemma {:induction false} XorSumOneHot(n: nat, k: nat)
    ensures XorSum(OneHot(n, k)) == if k < n then 1 else 0
  {
    if n > 0 {
      assert OneHot(n, k)[..n - 1] == OneHot(n - 1, k);
      XorSumOneHot(n - 1, k);
    }
  }
}
