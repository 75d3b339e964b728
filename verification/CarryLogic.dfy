/** Compiler/floatingpoint.py:84-93, 276-297 and Compiler/comparison.py:399-484: carries from prefix networks and
    carry trees. Bits are numbers, so sums and products are those of integers. */
module CarryLogic {
  import opened Powers
  import opened Bits
  import opened PrefixNetworks

  /** Propagate and generate of a stretch of bits. */
  datatype PG = PG(p: int, g: int)

  /** Low stretch first. */
  function CarryOp(low: PG, high: PG): PG {
    PG(high.p * low.p, high.g + high.p * low.g)
  }

  function CarryLambda(): (PG, PG) -> PG {
    (low: PG, high: PG) => CarryOp(low, high)
  }

  lemma CarryAssociative()
    ensures Associative(CarryLambda())
  {
    forall x: PG, y: PG, z: PG ensures CarryOp(CarryOp(x, y), z) == CarryOp(x, CarryOp(y, z)) {
      var (a, b, c, d) := (z.p, y.g, y.p, x.g);
      Distribute(a, b, c * d);
      Regroup(a, c, d);
      Regroup(a, c, x.p);
    }
  }

  lemma Distribute(a: int, b: int, c: int)
    ensures a * (b + c) == a * b + a * c
  {
  }

  lemma Regroup(a: int, b: int, c: int)
    ensures a * (b * c) == (a * b) * c
  {
  }

  /** The carry into place `n`, from carry-in `c`. */
  ghost function CarryBit(a: seq<Bit>, b: seq<Bit>, c: Bit, n: nat): (r: Bit)
    requires n <= |a| && n <= |b|
  {
    if n == 0 then c
    else
      var x: int, y: int, z: int := a[n - 1], b[n - 1], CarryBit(a, b, c, n - 1);
      (x + y + z) / 2
  }

  /** The sum bit of place `n`. */
  ghost function SumBit(a: seq<Bit>, b: seq<Bit>, c: Bit, n: nat): (r: Bit)
    requires n < |a| && n < |b|
  {
    var x: int, y: int, z: int := a[n], b[n], CarryBit(a, b, c, n);
    (x + y + z) % 2
  }

  ghost function SumBits(a: seq<Bit>, b: seq<Bit>, c: Bit, n: nat): (s: seq<Bit>)
    requires n <= |a| && n <= |b|
    ensures |s| == n && forall k: nat :: k < n ==> s[k] == SumBit(a, b, c, k)
  {
    if n == 0 then [] else SumBits(a, b, c, n - 1) + [SumBit(a, b, c, n - 1)]
  }

  lemma NumSnoc(s: seq<Bit>, x: Bit)
    ensures Num(s + [x]) == Num(s) + Pow2(|s|) * x
  {
    NumConcat(s, [x]);
    assert Num([x]) == x;
  }

  /** Adding bit by bit adds the numbers. */
  lemma {:induction false} AdditionByBits(a: seq<Bit>, b: seq<Bit>, c: Bit, n: nat)
    requires n <= |a| && n <= |b|
    ensures Num(a[..n]) + Num(b[..n]) + c == Num(SumBits(a, b, c, n)) + Pow2(n) * CarryBit(a, b, c, n)
  {
    if n > 0 {
      AdditionByBits(a, b, c, n - 1);
      assert a[..n] == a[..n - 1] + [a[n - 1]] && b[..n] == b[..n - 1] + [b[n - 1]];
      NumSnoc(a[..n - 1], a[n - 1]);
      NumSnoc(b[..n - 1], b[n - 1]);
      NumSnoc(SumBits(a, b, c, n - 1), SumBit(a, b, c, n - 1));
      var p, before, after, sum := Pow2(n - 1), CarryBit(a, b, c, n - 1), CarryBit(a, b, c, n), SumBit(a, b, c, n - 1);
      hide *;
      OnePlace(p, a[n - 1], b[n - 1], before, after, sum);
      assert Pow2(n) == 2 * p by {
        Doubling(n);
      }
    } else {
      assert a[..0] == [] && b[..0] == [];
    }
  }

  lemma Doubling(n: nat)
    requires n > 0
    ensures Pow2(n) == 2 * Pow2(n - 1)
  {
  }

  lemma OnePlace(p: int, x: int, y: int, before: int, after: int, sum: int)
    requires x + y + before == sum + 2 * after
    ensures p * x + p * y + p * before == p * sum + (2 * p) * after
  {
    assert p * (x + y + before) == p * x + p * y + p * before;
    assert p * (sum + 2 * after) == p * sum + (2 * p) * after;
  }

  /** The last carry is the number of times 2^n goes into the sum. */
  lemma LastCarry(a: seq<Bit>, b: seq<Bit>, c: Bit, n: nat)
    requires n == |a| == |b|
    ensures CarryBit(a, b, c, n) as int == (Num(a) + Num(b) + c) / Pow2(n)
  {
    AdditionByBits(a, b, c, n);
    assert a[..n] == a && b[..n] == b;
    NumBound(SumBits(a, b, c, n));
    DivUnique(Num(a) + Num(b) + c, Pow2(n), CarryBit(a, b, c, n), Num(SumBits(a, b, c, n)));
  }

  /** Propagate and generate of every place, the carry-in being folded into the lowest. */
  ghost predicate PairsOf(d: seq<PG>, a: seq<Bit>, b: seq<Bit>, c: Bit) {
    && |d| == |a| == |b|
    && (forall i: nat :: 0 < i < |d| ==> d[i].p == BitXor(a[i], b[i]) && d[i].g == BitAnd(a[i], b[i]))
    && (|d| > 0 ==> d[0].g == BitAnd(a[0], b[0]) as int + BitAnd(BitXor(a[0], b[0]), c) as int)
  }

  /** The carries come out of the prefixes; the lowest propagate bit is not used. */
  lemma {:induction false} PrefixIsCarry(d: seq<PG>, a: seq<Bit>, b: seq<Bit>, c: Bit, n: nat)
    requires PairsOf(d, a, b, c) && 0 < n <= |d|
    ensures Seg(CarryLambda(), d, 0, n).g == CarryBit(a, b, c, n)
  {
    if n > 1 {
      PrefixIsCarry(d, a, b, c, n - 1);
      OneCarry(a[n - 1], b[n - 1], CarryBit(a, b, c, n - 1));
      assert Seg(CarryLambda(), d, 0, n) == CarryOp(Seg(CarryLambda(), d, 0, n - 1), d[n - 1]);
    } else {
      OneCarry(a[0], b[0], c);
      assert CarryBit(a, b, c, 0) == c;
    }
  }

  lemma OneCarry(x: Bit, y: Bit, c: Bit)
    ensures BitAnd(x, y) as int + BitXor(x, y) as int * c as int == (x as int + y as int + c as int) / 2
    ensures BitAnd(BitXor(x, y), c) as int == BitXor(x, y) as int * c as int
  {
  }

  // ----- addition -----

  /** Lines 84-93: without the flag there is no propagate bit; `none` stands for whatever is there instead. */
  function Carry(none: int, low: PG, high: PG, computeP: bool): PG {
    PG(if computeP then high.p * low.p else none, high.g + high.p * low.g)
  }

  /** Lines 276-297, for all bits. */
  method BitAdd(a: seq<Bit>, b: seq<Bit>, none: int) returns (s: seq<int>)
    requires |a| == |b| > 0
    ensures |s| == |a| + 1 && forall i: nat :: i < |s| ==> s[i] == 0 || s[i] == 1
    ensures forall t: seq<Bit> :: t == s ==> Num(t) == Num(a) + Num(b)
  {
    var k := |a|;
    var d := AdditionPairs(a, b, none);
    var c := CarriesOf(a, b, d, none);
    var x: int, y: int := a[0], b[0];
    s := [x + y - 2 * c[0]];
    SumAndCarry(a, b, 0, 0);
    for i := 1 to k
      invariant |s| == i && forall j: nat :: j < i ==> s[j] == SumBit(a, b, 0, j)
    {
      SumAndCarry(a, b, 0, i);
      x, y := a[i], b[i];
      s := s + [x + y + c[i - 1] - 2 * c[i]];
    }
    s := s + [c[k - 1]];
    SumIsNumber(a, b, s);
  }

  /** Lines 282-286 */
  method AdditionPairs(a: seq<Bit>, b: seq<Bit>, none: int) returns (d: seq<PG>)
    requires |a| == |b| > 0
    ensures PairsOf(d, a, b, 0)
  {
    var x: int, y: int := a[0], b[0];
    d := [PG(none, x * y)];
    for i := 1 to |a|
      invariant |d| == i && d[0].g == BitAnd(a[0], b[0])
      invariant forall j: nat :: 0 < j < i ==> d[j].p == BitXor(a[j], b[j]) && d[j].g == BitAnd(a[j], b[j])
    {
      x, y := a[i], b[i];
      var t := x * y;
      d := d + [PG(x + y - 2 * t, t)];
    }
  }

  /** Lines 287-288 */
  method CarriesOf(a: seq<Bit>, b: seq<Bit>, d: seq<PG>, none: int) returns (c: seq<int>)
    requires |a| == |b| > 0 && PairsOf(d, a, b, 0)
    ensures |c| == |a| && forall i: nat :: i < |a| ==> c[i] == CarryBit(a, b, 0, i + 1)
  {
    hide PairsOf;
    ghost var same := (x: PG, y: PG) => x.g == y.g;
    var op3 := (x: PG, y: PG, f: bool) => Carry(none, x, y, f);
    CarryAssociative();
    CarryComputes(none, op3, same);
    assert |d| == |a| by {
      PairsLength(d, a, b, 0);
    }
    var pg := PreOpL(op3, d, CarryLambda(), same);
    forall i: nat | i < |a| ensures pg[i].g == CarryBit(a, b, 0, i + 1) {
      PrefixIsCarry(d, a, b, 0, i + 1);
    }
    c := seq(|a|, i requires 0 <= i < |a| == |pg| => pg[i].g);
  }

  lemma PairsLength(d: seq<PG>, a: seq<Bit>, b: seq<Bit>, c: Bit)
    requires PairsOf(d, a, b, c)
    ensures |d| == |a| == |b|
  {
  }

  lemma SumAndCarry(a: seq<Bit>, b: seq<Bit>, c: Bit, i: nat)
    requires i < |a| && i < |b|
    ensures SumBit(a, b, c, i) as int == a[i] as int + b[i] as int + CarryBit(a, b, c, i) as int - 2 * CarryBit(a, b, c, i + 1) as int
  {
  }

  lemma SumIsNumber(a: seq<Bit>, b: seq<Bit>, s: seq<int>)
    requires |a| == |b| == |s| - 1 && s[|a|] == CarryBit(a, b, 0, |a|)
    requires forall j: nat :: j < |a| ==> s[j] == SumBit(a, b, 0, j)
    ensures forall t: seq<Bit> :: t == s ==> Num(t) == Num(a) + Num(b)
  {
    forall t: seq<Bit> | t == s ensures Num(t) == Num(a) + Num(b) {
      var k := |a|;
      AdditionByBits(a, b, 0, k);
      assert a[..k] == a && b[..k] == b;
      assert t == SumBits(a, b, 0, k) + [CarryBit(a, b, 0, k)];
      NumSnoc(SumBits(a, b, 0, k), CarryBit(a, b, 0, k));
    }
  }

  lemma CarryComputes(none: int, op3: Op<PG>, same: (PG, PG) -> bool)
    requires forall x: PG, y: PG, f: bool :: op3(x, y, f) == Carry(none, x, y, f)
    requires forall x: PG, y: PG :: same(x, y) <==> x.g == y.g
    ensures Computes(op3, CarryLambda(), same)
  {
  }

  // ----- the carry tree -----

  /** A missing stretch, or one whose propagate bit may not have been computed. */
  datatype Stretch = Missing | Stretch(p: Maybe, g: int)
  datatype Maybe = Unknown | Known(value: int)

  /** Comparison.py:399-411: fails where the code would read a propagate bit that is not there. */
  function CarryStep(low: Stretch, high: Stretch, computeP: bool): (r: Stretch)
    requires high.Stretch? && low.Stretch? ==> high.p.Known? && (computeP ==> low.p.Known?)
  {
    if high.Missing? then low
    else if low.Missing? then high
    else Stretch(if computeP then Known(high.p.value * low.p.value) else Unknown, high.p.value * low.g + high.g)
  }

  /** All stretches are there, and only the lowest may lack its propagate bit. */
  ghost predicate Readable(a: seq<Stretch>) {
    && (forall i: nat :: i < |a| ==> a[i].Stretch?)
    && (forall i: nat :: 0 < i < |a| ==> a[i].p.Known?)
  }

  function ToPG(s: Stretch): PG {
    if s.Missing? then PG(1, 0) else PG(if s.p.Known? then s.p.value else 0, s.g)
  }

  ghost function AllPG(a: seq<Stretch>): (r: seq<PG>)
    ensures |r| == |a| && forall i: nat :: i < |a| ==> r[i] == ToPG(a[i])
  {
    seq(|a|, i requires 0 <= i < |a| => ToPG(a[i]))
  }

  /** Nothing depends on the propagate bit of the lowest item. */
  lemma {:induction false} LowestUnused(x: seq<PG>, y: seq<PG>, n: nat)
    requires 0 < n <= |x| == |y| && x[0].g == y[0].g && x[1..] == y[1..]
    ensures Seg(CarryLambda(), x, 0, n).g == Seg(CarryLambda(), y, 0, n).g
  {
    if n > 1 {
      LowestUnused(x, y, n - 1);
      assert x[n - 1] == x[1..][n - 2] == y[n - 1];
      assert Seg(CarryLambda(), x, 0, n) == CarryOp(Seg(CarryLambda(), x, 0, n - 1), x[n - 1]);
      assert Seg(CarryLambda(), y, 0, n) == CarryOp(Seg(CarryLambda(), y, 0, n - 1), y[n - 1]);
    }
  }

  function Rev<T>(s: seq<T>): (r: seq<T>)
    ensures |r| == |s| && forall i: nat :: i < |s| ==> r[i] == s[|s| - 1 - i]
  {
    seq(|s|, i requires 0 <= i < |s| => s[|s| - 1 - i])
  }

  /** Stretch `j` of the next level. */
  ghost function TreeStep(b: seq<Stretch>, j: nat): Stretch
    requires CanStep(b, j)
  {
    CarryStep(b[2 * j], b[2 * j + 1], j != 0)
  }

  /** Lines 415-427, lowest stretch first. */
  method CarryOutAux(a: seq<Stretch>) returns (c: int)
    requires |a| > 0 && Readable(a)
    ensures c == Seg(CarryLambda(), AllPG(a), 0, |a|).g
    decreases |a|
  {
    var k := |a|;
    var b := a;
    if k > 1 && k % 2 == 1 {
      b := b + [Missing];
      k := k + 1;
    }
    var high := Rev(b);
    if k == 1 {
      return high[0].g;
    }
    var u: seq<Stretch> := [];
    forall j: nat | 2 * j + 1 < k ensures CanStep(b, j) {
    }
    for i := 0 to k / 2
      invariant |u| == i
      invariant forall j: nat :: j < i ==> u[j] == TreeStep(b, k / 2 - 1 - j)
    {
      assert high[2 * i] == b[2 * (k / 2 - 1 - i) + 1] && high[2 * i + 1] == b[2 * (k / 2 - 1 - i)];
      u := u + [CarryStep(high[2 * i + 1], high[2 * i], i != k / 2 - 1)];
    }
    var next := Rev(u);
    assert forall j: nat :: j < k / 2 ==> next[j] == TreeStep(b, j);
    TreeKeepsCarry(a, b, next);
    c := CarryOutAux(next);
  }

  /** The next level of the tree, as the code builds it. */
  ghost predicate NextLevel(a: seq<Stretch>, b: seq<Stretch>, next: seq<Stretch>) {
    && Readable(a) && b == (if |a| % 2 == 1 then a + [Missing] else a) && 2 * |next| == |b|
    && forall j: nat :: j < |next| ==> CanStep(b, j) && next[j] == TreeStep(b, j)
  }

  ghost predicate CanStep(b: seq<Stretch>, j: nat) {
    2 * j + 1 < |b| && b[2 * j].Stretch? && (b[2 * j + 1].Stretch? ==> b[2 * j + 1].p.Known? && (j != 0 ==> b[2 * j].p.Known?))
  }

  lemma {:induction false} StaysReadable(a: seq<Stretch>, b: seq<Stretch>, next: seq<Stretch>)
    requires NextLevel(a, b, next)
    ensures Readable(next)
  {
    forall j: nat | j < |next| ensures next[j].Stretch? && (j > 0 ==> next[j].p.Known?) {
      assert CanStep(b, j);
    }
  }

  /** One level of the tree keeps what all stretches together generate. */
  lemma {:induction false} TreeKeepsCarry(a: seq<Stretch>, b: seq<Stretch>, next: seq<Stretch>)
    requires |a| > 1 && NextLevel(a, b, next)
    ensures Readable(next)
    ensures Seg(CarryLambda(), AllPG(next), 0, |next|).g == Seg(CarryLambda(), AllPG(a), 0, |a|).g
  {
    hide *;
    StaysReadable(a, b, next);
    CarryAssociative();
    LevelSize(a, b, next);
    PaddingIsNeutral(a, b);
    SegOfHalved(CarryLambda(), AllPG(b), |next|);
    LevelIsHalved(a, b, next);
    LowestUnused(AllPG(next), Halved(CarryLambda(), AllPG(b)), |next|);
  }

  lemma LevelSize(a: seq<Stretch>, b: seq<Stretch>, next: seq<Stretch>)
    requires |a| > 1 && NextLevel(a, b, next)
    ensures 0 < |next| && 2 * |next| == |b| && b == if |a| % 2 == 1 then a + [Missing] else a
  {
  }

  lemma LevelIsHalved(a: seq<Stretch>, b: seq<Stretch>, next: seq<Stretch>)
    requires |a| > 1 && NextLevel(a, b, next)
    ensures var (x, h) := (AllPG(next), Halved(CarryLambda(), AllPG(b))); |x| == |h| > 0 && x[0].g == h[0].g && x[1..] == h[1..]
  {
    var x, h := AllPG(next), Halved(CarryLambda(), AllPG(b));
    forall j: nat | j < |next| ensures x[j].g == h[j].g && (j > 0 ==> x[j] == h[j]) {
      assert CanStep(b, j) && next[j] == TreeStep(b, j);
      StepIsOp(b[2 * j], b[2 * j + 1], j != 0);
      assert h[j] == CarryOp(AllPG(b)[2 * j], AllPG(b)[2 * j + 1]);
    }
    assert x[1..] == h[1..];
  }

  lemma StepIsOp(low: Stretch, high: Stretch, computeP: bool)
    requires low.Stretch? && (high.Stretch? ==> high.p.Known? && (computeP ==> low.p.Known?))
    ensures ToPG(CarryStep(low, high, computeP)).g == CarryOp(ToPG(low), ToPG(high)).g
    ensures computeP ==> ToPG(CarryStep(low, high, computeP)) == CarryOp(ToPG(low), ToPG(high))
  {
  }

  lemma PaddingIsNeutral(a: seq<Stretch>, b: seq<Stretch>)
    requires |a| > 0 && b == (if |a| % 2 == 1 then a + [Missing] else a)
    ensures Seg(CarryLambda(), AllPG(b), 0, |b|) == Seg(CarryLambda(), AllPG(a), 0, |a|)
  {
    if |a| % 2 == 1 {
      SamePrefix(CarryLambda(), AllPG(a), AllPG(b), |a|);
      var x := Seg(CarryLambda(), AllPG(b), 0, |a|);
      assert Seg(CarryLambda(), AllPG(b), 0, |b|) == CarryOp(x, PG(1, 0));
    }
  }

  lemma {:induction false} SamePrefix(op: (PG, PG) -> PG, x: seq<PG>, y: seq<PG>, n: nat)
    requires 0 < n <= |x| && n <= |y| && x[..n] == y[..n]
    ensures Seg(op, x, 0, n) == Seg(op, y, 0, n)
  {
    assert x[n - 1] == x[..n][n - 1] == y[n - 1];
    if n > 1 {
      assert x[..n - 1] == x[..n][..n - 1] == y[..n][..n - 1] == y[..n - 1];
      SamePrefix(op, x, y, n - 1);
    }
  }

  /** Lines 441-457, the logarithmic form: the carry out of adding `a`, `b` and `c`, highest bits first. */
  method CarryOutRaw(a: seq<Bit>, b: seq<Bit>, c: Bit) returns (carry: int)
    requires |a| == |b| > 0
    ensures carry == (Num(Rev(a)) + Num(Rev(b)) + c as int) / Pow2(|a|)
  {
    var k := |a|;
    var d: seq<Stretch> := [];
    for i := 0 to k
      invariant |d| == i && forall j: nat :: j < i ==> d[j] == Stretch(Known(BitXor(a[j], b[j])), BitAnd(a[j], b[j]))
    {
      d := d + [Stretch(Known(BitXor(a[i], b[i])), BitAnd(a[i], b[i]))];
    }
    var s0: int := BitAnd(BitXor(a[k - 1], b[k - 1]), c);
    var s1 := d[k - 1].g + s0;
    d := d[k - 1 := Stretch(d[k - 1].p, s1)];
    var e := Rev(d);
    carry := CarryOutAux(e);
    assert PairsOf(AllPG(e), Rev(a), Rev(b), c);
    PrefixIsCarry(AllPG(e), Rev(a), Rev(b), c, k);
    LastCarry(Rev(a), Rev(b), c, k);
  }

  ghost function Nots(b: seq<Bit>): (r: seq<Bit>)
    ensures |r| == |b|
  {
    seq<Bit>(|b|, i requires 0 <= i < |b| => BitNot(b[i]))
  }

  lemma {:induction false} NotsNumber(b: seq<Bit>)
    ensures Num(Nots(b)) == Pow2(|b|) - 1 - Num(b)
  {
    if b != [] {
      NotsNumber(b[1..]);
      assert Nots(b)[1..] == Nots(b[1..]);
    } else {
      assert Nots(b) == [];
    }
  }

  /** Lines 482-484: a comparison is the missing carry of a - b. */
  method BitLTLRaw(aBits: seq<Bit>, b: seq<Bit>) returns (less: int)
    requires |aBits| == |b| > 0
    ensures less == if Num(aBits) < Num(b) then 1 else 0
  {
    var s: seq<Bit> := [];
    for i := 0 to |b|
      invariant |s| == i && forall j: nat :: j < i ==> s[j] == BitNot(b[j])
    {
      s := s + [BitNot(b[i])];
    }
    assert s == Nots(b);
    NotsNumber(b);
    var carry := CarryOutRaw(Rev(aBits), Rev(s), 1);
    assert Rev(Rev(aBits)) == aBits && Rev(Rev(s)) == s;
    NumBound(aBits);
    NumBound(b);
    CarryTellsOrder(Num(aBits), Num(b), Pow2(|b|));
    less := 1 - carry;
  }

  lemma CarryTellsOrder(x: nat, y: nat, p: nat)
    requires x < p && y < p
    ensures (x + (p - 1 - y) + 1) / p == if x < y then 0 else 1
  {
    if x < y {
      DivUnique(x + (p - 1 - y) + 1, p, 0, x + p - y);
    } else {
      DivUnique(x + (p - 1 - y) + 1, p, 1, x - y);
    }
  }
}
