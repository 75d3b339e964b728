/** BMR/Key.h: 128-bit wire keys under exclusive or, and their signal bit. */
module GarblingKeys {
  import opened Bits

  const KEY_BITS: nat := 128

  /** A key as its bits, the lowest one first. */
  type Key = k: seq<bool> | |k| == KEY_BITS witness seq(KEY_BITS, _ => false)
  type Keys = seq<Key>

  function ZeroKey(): Key {
    seq(KEY_BITS, _ => false)
  }

  function OneKey(): Key {
    ZeroKey()[0 := true]
  }

  function Xor(a: Key, b: Key): Key {
    seq(KEY_BITS, i requires 0 <= i < KEY_BITS => a[i] != b[i])
  }

  function GetSignal(k: Key): Bit {
    if k[0] then 1 else 0
  }

  function XorKeys(a: Keys, b: Keys): (c: Keys)
    requires |a| == |b|
    ensures |c| == |a| && forall j: nat :: j < |a| ==> c[j] == Xor(a[j], b[j])
  {
    seq(|a|, j requires 0 <= j < |a| => Xor(a[j], b[j]))
  }

  lemma XorAssoc(a: Key, b: Key, c: Key)
    ensures Xor(Xor(a, b), c) == Xor(a, Xor(b, c))
  {
  }

  lemma XorComm(a: Key, b: Key)
    ensures Xor(a, b) == Xor(b, a)
  {
  }

  lemma XorSelf(a: Key)
    ensures Xor(a, a) == ZeroKey() && Xor(a, ZeroKey()) == a && Xor(ZeroKey(), a) == a
  {
  }

  /** What was masked with `m` is recovered with `m`. */
  lemma XorCancels(m: Key, k: Key)
    ensures Xor(Xor(m, k), m) == k
  {
    hide Xor;
    XorComm(m, k);
    XorAssoc(k, m, m);
    XorSelf(m);
    XorSelf(k);
  }

  /** (a + b) + (c + d) == (a + c) + (b + d) */
  lemma XorSwap(a: Key, b: Key, c: Key, d: Key)
    ensures Xor(Xor(a, b), Xor(c, d)) == Xor(Xor(a, c), Xor(b, d))
  {
    hide Xor;
    XorAssoc(a, b, Xor(c, d));
    XorAssoc(b, c, d);
    XorComm(b, c);
    XorAssoc(c, b, d);
    XorAssoc(a, c, Xor(b, d));
  }

  lemma SignalOfXor(a: Key, b: Key)
    ensures GetSignal(Xor(a, b)) == BitXor(GetSignal(a), GetSignal(b))
  {
  }
}
