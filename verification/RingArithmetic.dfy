/** Compiler/comparison.py:96-240: truncation, remainder and comparison in the ring of integers modulo 2^R, by
    opening masked values. Secret values stand for themselves; every result is exact whatever the mask. */
module RingArithmetic {
  import opened Powers
  import opened Bits
  import opened CarryLogic

  // ----- the ring -----

  function Ring(x: int, r: nat): (y: nat)
    ensures y < Pow2(r)
  {
    x % Pow2(r)
  }

  /** Ring element `a` stands for the integer `x`. */
  predicate Stands(a: nat, x: int, r: nat) {
    a == Ring(x, r)
  }

  /** The integers that `k` bits hold, signed or not. */
  predicate InRange(x: int, k: nat, signed: bool)
    requires signed ==> k > 0
  {
    if signed then x + Pow2(k - 1) >= 0 && x < Pow2(k - 1) else 0 <= x < Pow2(k)
  }

  // ----- remainders -----

  lemma ModDecompose(x: int, d: nat)
    requires d > 0
    ensures x == d * (x / d) + x % d && 0 <= x % d < d
  {
  }

  lemma ModUnique(x: int, y: int, d: nat, q: int)
    requires d > 0 && x == y + d * q
    ensures x % d == y % d
  {
    ModDecompose(y, d);
    assert d * (y / d) + d * q == d * (y / d + q);
    DivUnique(x, d, y / d + q, y % d);
  }

  /** The larger modulus does not disturb the smaller one. */
  lemma ModMod(x: int, k: nat, r: nat)
    requires k <= r
    ensures Ring(x, r) % Pow2(k) == x % Pow2(k)
  {
    Pow2Add(k, r - k);
    ModDecompose(x, Pow2(r));
    var q := x / Pow2(r);
    assert Pow2(r) * q == Pow2(k) * (Pow2(r - k) * q) by {
      Regroup(Pow2(k), Pow2(r - k), q);
    }
    ModUnique(x, Ring(x, r), Pow2(k), Pow2(r - k) * q);
  }

  lemma RingOfRing(x: int, y: int, r: nat)
    ensures Ring(Ring(x, r) + y, r) == Ring(x + y, r)
  {
    ModDecompose(x, Pow2(r));
    ModUnique(x + y, Ring(x, r) + y, Pow2(r), x / Pow2(r));
  }

  /** Dividing the rest: floor((y mod nd) / d) == floor(y / d) mod n. */
  lemma DivOfMod(y: int, n: nat, d: nat)
    requires n > 0 && d > 0
    ensures n * d > 0 && y % (n * d) / d == y / d % n
  {
    assert n * d > 0;
    ModDecompose(y, d);
    ModDecompose(y / d, n);
    var q, s, t := y / d / n, y / d % n, y % d;
    assert y == d * (n * q + s) + t;
    assert d * (n * q + s) == (n * d) * q + d * s by {
      Distribute(d, n * q, s);
      Regroup(d, n, q);
    }
    Gap(d, n, s);
    assert d * n == n * d;
    DivUnique(y, n * d, q, d * s + t);
    DivUnique(d * s + t, d, s, t);
  }

  /** Shifting up and down again leaves the low bits. */
  lemma ShiftUpDown(x: nat, r: nat, s: nat)
    requires s <= r
    ensures Ring(x * Pow2(s), r) / Pow2(s) == x % Pow2(r - s)
  {
    Pow2Add(r - s, s);
    DivOfMod(x * Pow2(s), Pow2(r - s), Pow2(s));
    assert x * Pow2(s) == Pow2(s) * x;
    DivUnique(x * Pow2(s), Pow2(s), x, 0);
  }

  // ----- unmasking -----

  /** What was opened, minus the mask, plus the modulus if it wrapped around. */
  lemma Unmasked(x: int, mask: nat, d: nat)
    requires mask < d
    ensures var c := (x + mask) % d; (if c < mask then d else 0) + c - mask == x % d
  {
    var c := (x + mask) % d;
    ModDecompose(x + mask, d);
    var q := (x + mask) / d;
    if c < mask {
      assert d * (q - 1) == d * q - d;
      DivUnique(x, d, q - 1, c - mask + d);
    } else {
      DivUnique(x, d, q, c - mask);
    }
  }

  method BitLTL(a: nat, b: seq<Bit>) returns (u: int)
    requires |b| > 0 && a < Pow2(|b|)
    ensures u == if a < Num(b) then 1 else 0
  {
    NumOfBits(a, |b|);
    u := BitLTLRaw(BitsOf(a, |b|), b);
  }

  /** Lines 228-240 */
  method Mod2mRing(a: nat, m: nat, mask: seq<Bit>, r: nat, ghost x: int) returns (res: nat)
    requires 0 < m <= r && |mask| == m && Stands(a, x, r)
    ensures Stands(res, x % Pow2(m), r)
  {
    hide Num;
    var shift := r - m;
    var rPrime := Num(mask);
    var tmp := Ring(a + rPrime, r);
    var cPrime := Ring(tmp * Pow2(shift), r) / Pow2(shift);
    ShiftUpDown(tmp, r, shift);
    RingOfRing(x, rPrime, r);
    ModMod(x + rPrime, m, r);
    assert cPrime == (x + rPrime) % Pow2(m);
    var u := BitLTL(cPrime, mask);
    NumBound(mask);
    Unmasked(x, rPrime, Pow2(m));
    res := Ring(u * Pow2(m) + cPrime - rPrime, r);
  }

  /** Lines 178-204: the low bits of `a` do not change the result, though they may leak. */
  method TruncLeakyInRing(a: nat, k: nat, m: nat, signed: bool, mask: seq<Bit>, r: nat, ghost x: int) returns (res: nat)
    requires m <= k <= r && |mask| == k - m && (m < k ==> Stands(a, x, r) && InRange(x, k, signed))
    ensures m < k ==> Stands(res, x / Pow2(m), r)
    ensures m == k ==> res == 0
  {
    if k == m {
      return 0;
    }
    hide *;
    var a' := if signed then Ring(a + Pow2(k - 1), r) else a;
    MovedUp(a, x, k, signed, r);
    var moved := HighBits(a', k, m, mask, r);
    MovedBack(x, k, m, signed);
    var back := if signed then Pow2(k - m - 1) else 0;
    res := Ring(moved - back, r);
    ItStands(res, moved - back, x / Pow2(m), r);
  }

  lemma ItStands(a: nat, y: int, x: int, r: nat)
    requires a == Ring(y, r) && y == x
    ensures Stands(a, x, r)
  {
  }

  /** Lines 194-201: the high bits of `x`, opened under the mask and recovered. */
  method HighBits(x: nat, k: nat, m: nat, mask: seq<Bit>, r: nat) returns (moved: int)
    requires m < k <= r && |mask| == k - m && x < Pow2(k)
    ensures moved == x / Pow2(m)
  {
    hide Num, Pow2, Ring;
    var nBits := k - m;
    var nShift := r - nBits;
    var rMask := Num(mask);
    var shifted := Ring(x * Pow2(nShift - m) + rMask * Pow2(nShift), r);
    var masked := shifted / Pow2(nShift);
    MaskedHighBits(x, rMask, k, m, r);
    NumBound(mask);
    HighBitsFit(x, k, m);
    ghost var q := x / Pow2(m);
    assert masked == (q + rMask) % Pow2(nBits);
    moved := Recover(q, masked, mask);
  }

  method Recover(ghost q: nat, masked: nat, mask: seq<Bit>) returns (moved: int)
    requires |mask| > 0 && masked == (q + Num(mask)) % Pow2(|mask|) && q % Pow2(|mask|) == q
    ensures moved == q
  {
    hide Num;
    NumBound(mask);
    var u := BitLTL(masked, mask);
    Unmasked(q, Num(mask), Pow2(|mask|));
    moved := u * Pow2(|mask|) + masked - Num(mask);
  }

  lemma MovedUp(a: nat, x: int, k: nat, signed: bool, r: nat)
    requires k <= r && (signed ==> k > 0) && Stands(a, x, r) && InRange(x, k, signed)
    ensures var x' := if signed then x + Pow2(k - 1) else x;
      0 <= x' < Pow2(k) && (if signed then Ring(a + Pow2(k - 1), r) else a) == x'
  {
    var x' := if signed then x + Pow2(k - 1) else x;
    assert 0 <= x' < Pow2(k);
    Pow2Monotone(k, r);
    if signed {
      RingOfRing(x, Pow2(k - 1), r);
    }
    DivUnique(x', Pow2(r), 0, x');
  }

  /** (x 2^(r-k) + mask 2^(r-k+m)) / 2^(r-k+m) in the ring is x / 2^m + mask modulo 2^(k-m). */
  lemma MaskedHighBits(x: nat, mask: nat, k: nat, m: nat, r: nat)
    requires m < k <= r
    ensures Ring(x * Pow2(r - (k - m) - m) + mask * Pow2(r - (k - m)), r) / Pow2(r - (k - m)) == (x / Pow2(m) + mask) % Pow2(k - m)
  {
    var p, s, d := Pow2(m), Pow2(r - k), Pow2(r - (k - m));
    Pow2Add(m, r - k);
    assert r - k + m == r - (k - m) && r - (k - m) - m == r - k;
    var y := x * s + mask * d;
    Pow2Add(k - m, r - (k - m));
    var n := Pow2(k - m);
    hide Pow2, Ring;
    assert d == p * s;
    DivOfMod(y, n, d);
    ModDecompose(x, p);
    var q, t := x / p, x % p;
    Factored(p, s, q, t, mask);
    BelowProduct(t, p, s);
    DivUnique(y, d, q + mask, t * s);
    RingIs(y, r);
  }

  lemma RingIs(y: int, r: nat)
    ensures Ring(y, r) == y % Pow2(r)
  {
  }

  lemma Factored(p: int, s: int, q: int, t: int, mask: int)
    ensures (p * q + t) * s + mask * (p * s) == (p * s) * (q + mask) + t * s
  {
    assert (p * q + t) * s == (p * q) * s + t * s;
    assert (p * q) * s == (p * s) * q;
    assert (p * s) * (q + mask) == (p * s) * q + (p * s) * mask;
  }

  lemma BelowProduct(t: nat, p: nat, s: nat)
    requires t < p && s > 0
    ensures t * s < p * s
  {
    Gap(s, p, t);
    assert s * t == t * s && s * p == p * s;
  }

  lemma HighBitsFit(x: nat, k: nat, m: nat)
    requires m <= k && x < Pow2(k)
    ensures x / Pow2(m) < Pow2(k - m) && x / Pow2(m) % Pow2(k - m) == x / Pow2(m)
  {
    Pow2Add(m, k - m);
    DivLess(x, Pow2(m), Pow2(k - m));
    DivUnique(x / Pow2(m), Pow2(k - m), 0, x / Pow2(m));
  }

  lemma MovedBack(x: int, k: nat, m: nat, signed: bool)
    requires m < k
    ensures signed ==> (x + Pow2(k - 1)) / Pow2(m) - Pow2(k - m - 1) == x / Pow2(m)
  {
    Pow2Add(m, k - 1 - m);
    ModDecompose(x, Pow2(m));
    var q := x / Pow2(m);
    assert Pow2(m) * (q + Pow2(k - 1 - m)) == Pow2(m) * q + Pow2(m) * Pow2(k - 1 - m);
    DivUnique(x + Pow2(k - 1), Pow2(m), q + Pow2(k - 1 - m), x % Pow2(m));
  }

  /** Lines 161-167: a right shift, exact unless all bits of a negative number are shifted out. */
  method TruncRing(a: nat, k: nat, m: nat, signed: bool, lowMask: seq<Bit>, highMask: seq<Bit>, r: nat, ghost x: int) returns (res: nat)
    requires 0 < m <= k <= r && |lowMask| == m && |highMask| == k - m && Stands(a, x, r) && InRange(x, k, signed)
    ensures Stands(res, x / Pow2(m), r) <==> m < k || x >= 0
  {
    hide InRange;
    var aPrime := Mod2mRing(a, m, lowMask, r, x);
    var b := Ring(a - aPrime, r);
    ghost var y := x - x % Pow2(m);
    Difference(a, aPrime, x, x % Pow2(m), r);
    LowBitsGone(x, k, m, signed);
    res := TruncLeakyInRing(b, k, m, signed, highMask, r, y);
    AllShiftedOut(x, k, r, signed);
  }

  /** Shifting -1 right by all its bits gives no result that stands for -1, whatever the mask. */
  method TruncMinusOne(k: nat, lowMask: seq<Bit>, r: nat) returns (res: nat)
    requires 0 < k <= r && |lowMask| == k
    ensures !Stands(res, -1 / Pow2(k), r) && -1 / Pow2(k) == -1
  {
    MinusOneInRange(k);
    res := TruncRing(Ring(-1, r), k, k, true, lowMask, [], r, -1);
  }

  lemma MinusOneInRange(k: nat)
    requires k > 0
    ensures InRange(-1, k, true) && -1 / Pow2(k) == -1
  {
    var p := Pow2(k);
    DivUnique(-1, p, -1, p - 1);
  }

  lemma Difference(a: nat, b: nat, x: int, y: int, r: nat)
    requires Stands(a, x, r) && Stands(b, y, r)
    ensures Stands(Ring(a - b, r), x - y, r)
  {
    var minus: int := 0 - b as int;
    RingOfRing(x, minus, r);
    ModDecompose(y, Pow2(r));
    ModUnique(x + minus, x - y, Pow2(r), y / Pow2(r));
  }

  lemma LowBitsGone(x: int, k: nat, m: nat, signed: bool)
    requires m <= k && k > 0 && InRange(x, k, signed)
    ensures (x - x % Pow2(m)) / Pow2(m) == x / Pow2(m) && (m < k ==> InRange(x - x % Pow2(m), k, signed))
  {
    var p, q := Pow2(m), x / Pow2(m);
    if m < k {
      Pow2Add(m, k - 1 - m);
      RangeKept(x, p, q, if signed then Pow2(k - 1 - m) else 0);
    }
    hide Pow2;
    ModDecompose(x, p);
    DivUnique(x - x % p, p, q, 0);
  }

  lemma RangeKept(x: int, p: nat, q: int, a: nat)
    requires p > 0 && q == x / p && x + p * a >= 0
    ensures 0 <= x - x % p + p * a && x - x % p <= x
  {
    ModDecompose(x, p);
    NotBelow(x, p, q, 0 - a as int);
    assert p * (0 - a as int) == 0 - p * a;
  }

  lemma NotBelow(x: int, p: nat, q: int, a: int)
    requires p > 0 && q == x / p && x >= p * a
    ensures p * q >= p * a
  {
    ModDecompose(x, p);
    if q < a {
      Gap(p, a, q);
    } else {
      MulOrder(p, a, q);
    }
  }

  lemma AllShiftedOut(x: int, k: nat, r: nat, signed: bool)
    requires k <= r && k > 0 && InRange(x, k, signed)
    ensures Stands(0, x / Pow2(k), r) <==> x >= 0
  {
    if x >= 0 {
      DivUnique(x, Pow2(k), 0, x);
      DivUnique(0, Pow2(r), 0, 0);
    } else {
      DivUnique(x, Pow2(k), -1, x + Pow2(k));
      assert Pow2(r) >= 2;
      DivUnique(-1, Pow2(r), -1, Pow2(r) - 1);
    }
  }

  // ----- comparison -----

  lemma Opened(x: int, mask: nat, c: nat, k: nat, bits: seq<Bit>)
    requires mask % Pow2(k) == Num(bits) && c == (x - mask) % Pow2(k)
    ensures c < Pow2(k) && (c + Num(bits)) % Pow2(k) == x % Pow2(k)
  {
    hide Num;
    var p := Pow2(k);
    ModDecompose(x - mask, p);
    ModDecompose(mask, p);
    var q, t := (x - mask) / p, mask / p;
    assert p * (q + t) == p * q + p * t;
    assert x == (c + Num(bits)) + p * (q + t);
    ModUnique(x, c + Num(bits), p, q + t);
  }

  /** The top bit of c + mask, from the top bits of both and the carry from below. */
  lemma TopBit(x: int, c: nat, bits: seq<Bit>, k: nat, u: int)
    requires k >= 2 && |bits| == k && c < Pow2(k) && (c + Num(bits)) % Pow2(k) == x % Pow2(k) && InRange(x, k, true)
    requires u == (c % Pow2(k - 1) + Num(bits[..k - 1])) / Pow2(k - 1)
    ensures c / Pow2(k - 1) < 2 && 0 <= u < 2
    ensures (bits[k - 1] as int + c / Pow2(k - 1) + u) % 2 == if x < 0 then 1 else 0
  {
    TopOfNumber(bits, k);
    InRangeOf(x, k);
    TopOfSum(x, c, Pow2(k - 1), Pow2(k), Num(bits[..k - 1]), bits[k - 1], Num(bits), u);
  }

  lemma TopOfNumber(bits: seq<Bit>, k: nat)
    requires k >= 1 && |bits| == k
    ensures Num(bits) == Num(bits[..k - 1]) + Pow2(k - 1) * bits[k - 1] && Num(bits[..k - 1]) < Pow2(k - 1)
  {
    assert bits == bits[..k - 1] + [bits[k - 1]];
    NumSnoc(bits[..k - 1], bits[k - 1]);
    NumBound(bits[..k - 1]);
  }

  lemma InRangeOf(x: int, k: nat)
    requires k >= 1 && InRange(x, k, true)
    ensures Pow2(k) == 2 * Pow2(k - 1) && x + Pow2(k - 1) >= 0 && x < Pow2(k - 1)
  {
  }

  lemma TopOfSum(x: int, c: nat, p: nat, d: nat, n: nat, b: int, all: int, u: int)
    requires p > 0 && d == 2 * p && c < d && n < p && all == n + p * b && u == (c % p + n) / p && 0 <= b < 2
    requires (c + all) % d == x % d && x + p >= 0 && x < p
    ensures c / p < 2 && 0 <= u < 2 && (b + c / p + u) % 2 == if x < 0 then 1 else 0
  {
    SumOfTops(c, p, n, b, all, u);
    SignFromSum(x, p, c / p + b + u, (c % p + n) % p);
  }

  lemma SumOfTops(c: nat, p: nat, n: nat, b: int, all: int, u: int)
    requires p > 0 && c < 2 * p && n < p && all == n + p * b && u == (c % p + n) / p
    ensures c / p < 2 && 0 <= u < 2 && c + all == p * (c / p + b + u) + (c % p + n) % p
  {
    ModDecompose(c, p);
    assert p * 2 == 2 * p;
    DivLess(c, p, 2);
    ModDecompose(c % p + n, p);
    DivLess(c % p + n, p, 2);
    assert p * (c / p + b + u) == p * (c / p) + p * b + p * u;
  }

  lemma SignFromSum(x: int, p: nat, v: int, s: nat)
    requires s < p && v >= 0 && (p * v + s) % (2 * p) == x % (2 * p) && x + p >= 0 && x < p
    ensures v % 2 == if x < 0 then 1 else 0
  {
    var h := v / 2;
    assert p * v == (2 * p) * h + p * (v % 2) by {
      assert v == 2 * h + v % 2;
      assert p * (2 * h + v % 2) == p * (2 * h) + p * (v % 2) && p * (2 * h) == (2 * p) * h;
    }
    assert v % 2 == 0 || v % 2 == 1;
    DivUnique(p * v + s, 2 * p, h, (if v % 2 == 1 then p else 0) + s);
    if x < 0 {
      DivUnique(x, 2 * p, -1, x + 2 * p);
    } else {
      DivUnique(x, 2 * p, 0, x);
    }
  }

  lemma XorIsParity(x: Bit, y: Bit, z: Bit)
    ensures BitXor(BitXor(x, y), z) as int == (x as int + y as int + z as int) % 2
  {
  }

  /** Lines 96-106, for a mask of which the ring may hold more than its `k` bits. */
  method LtzRing(a: nat, k: nat, mask: nat, bits: seq<Bit>, r: nat, ghost x: int) returns (res: int)
    requires 2 <= k <= r && |bits| == k && mask % Pow2(k) == Num(bits) && Stands(a, x, r) && InRange(x, k, true)
    ensures res == if x < 0 then 1 else 0
  {
    hide *;
    var cPrime := OpenMasked(a, k, mask, r, x);
    Opened(x, mask, cPrime, k, bits);
    var u := LowCarry(cPrime, k - 1, bits);
    var top := cPrime / Pow2(k - 1);
    TopBit(x, cPrime, bits, k, u);
    XorIsParity(bits[k - 1], top, u);
    res := BitXor(BitXor(bits[k - 1], top), u);
  }

  /** Lines 103-105 of comparison.py. */
  method LowCarry(c: nat, m: nat, bits: seq<Bit>) returns (u: int)
    requires 0 < m <= |bits|
    ensures u == (c % Pow2(m) + Num(bits[..m])) / Pow2(m)
  {
    hide Num, BitsOf, Pow2;
    var low, high := BitsOf(c % Pow2(m), m), bits[..m];
    NumOfBits(c % Pow2(m), m);
    u := CarryOutRaw(Rev(low), Rev(high), 0);
    RevTwice(low);
    RevTwice(high);
  }

  lemma RevTwice<T>(s: seq<T>)
    ensures Rev(Rev(s)) == s
  {
  }

  /** Lines 99-102 of comparison.py. */
  method OpenMasked(a: nat, k: nat, mask: nat, r: nat, ghost x: int) returns (cPrime: nat)
    requires k <= r && Stands(a, x, r)
    ensures cPrime == (x - mask) % Pow2(k)
  {
    hide Pow2;
    var shift := r - k;
    var tmp := Ring(a - mask, r);
    cPrime := Ring(tmp * Pow2(shift), r) / Pow2(shift);
    ShiftUpDown(tmp, r, shift);
    var minus: int := 0 - mask as int;
    RingOfRing(x, minus, r);
    ModMod(x + minus, k, r);
  }

  /** non_linear.py:48-49 on top of the truncation gives the same bit, as a ring element. */
  method GenericLtz(a: nat, k: nat, lowMask: seq<Bit>, highMask: seq<Bit>, r: nat, ghost x: int) returns (res: nat)
    requires 2 <= k <= r && |lowMask| == k - 1 && |highMask| == 1 && Stands(a, x, r) && InRange(x, k, true)
    ensures Stands(res, if x < 0 then 1 else 0, r)
  {
    hide InRange;
    var t := TruncRing(a, k, k - 1, true, lowMask, highMask, r, x);
    SignByShift(x, k);
    ghost var q := x / Pow2(k - 1);
    var zero: nat := 0;
    assert Stands(zero, 0, r) by {
      DivUnique(0, Pow2(r), 0, 0);
    }
    Difference(zero, t, 0, q, r);
    var minus: int := 0 - t as int;
    res := Ring(minus, r);
  }

  lemma SignByShift(x: int, k: nat)
    requires k >= 2 && InRange(x, k, true)
    ensures 0 - x / Pow2(k - 1) == if x < 0 then 1 else 0
  {
    if x < 0 {
      DivUnique(x, Pow2(k - 1), -1, x + Pow2(k - 1));
    } else {
      DivUnique(x, Pow2(k - 1), 0, x);
    }
  }
}
