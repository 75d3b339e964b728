/** Compiler/floatingpoint.py:140-219: three ways to combine all prefixes of a list with an associative operator. */
module PrefixNetworks {
  import opened Powers

  /** The operator of the code: the flag says whether the parts of the result that only serve as a later left
      operand are wanted too. */
  type Op<!T> = (T, T, bool) -> T

  ghost predicate Associative<T(!new)>(op: (T, T) -> T) {
    forall x, y, z :: op(op(x, y), z) == op(x, op(y, z))
  }

  /** `op3` computes `op`, except that without the flag the result need only look the same in the sense of
      `same`, and what looks the same on the left gives what looks the same. */
  ghost predicate Computes<T(!new)>(op3: Op<T>, op: (T, T) -> T, same: (T, T) -> bool) {
    && (forall x, y :: op3(x, y, true) == op(x, y))
    && (forall x, x', y :: same(x, x') ==> same(op3(x, y, false), op(x', y)))
  }

  /** The items from `lo` to `hi`, combined from the left. */
  ghost function Seg<T>(op: (T, T) -> T, items: seq<T>, lo: nat, hi: nat): T
    requires lo < hi <= |items|
  {
    if hi == lo + 1 then items[lo] else op(Seg(op, items, lo, hi - 1), items[hi - 1])
  }

  lemma {:induction false} SegJoin<T(!new)>(op: (T, T) -> T, items: seq<T>, lo: nat, mid: nat, hi: nat)
    requires Associative(op) && lo < mid < hi <= |items|
    ensures op(Seg(op, items, lo, mid), Seg(op, items, mid, hi)) == Seg(op, items, lo, hi)
  {
    if mid + 1 < hi {
      SegJoin(op, items, lo, mid, hi - 1);
    }
  }

  // ----- one item after the other -----

  /** Lines 212-219 */
  method PreOpN<T(!new)>(op: (T, T) -> T, items: seq<T>) returns (output: seq<T>)
    requires |items| > 0
    ensures |output| == |items| && forall x: nat :: x < |items| ==> output[x] == Seg(op, items, 0, x + 1)
  {
    output := [items[0]];
    for i := 1 to |items|
      invariant |output| == i && forall x: nat :: x < i ==> output[x] == Seg(op, items, 0, x + 1)
    {
      output := output + [op(output[i - 1], items[i])];
    }
  }

  // ----- recursive halving -----

  function Halved<T>(op: (T, T) -> T, items: seq<T>): (u: seq<T>)
    ensures |u| == |items| / 2
  {
    seq(|items| / 2, i requires 0 <= i < |items| / 2 => op(items[2 * i], items[2 * i + 1]))
  }

  lemma {:induction false} SegOfHalved<T(!new)>(op: (T, T) -> T, items: seq<T>, n: nat)
    requires Associative(op) && 0 < n <= |items| / 2
    ensures Seg(op, Halved(op, items), 0, n) == Seg(op, items, 0, 2 * n)
  {
    var u := Halved(op, items);
    assert u[n - 1] == op(items[2 * n - 2], items[2 * n - 1]);
    hide Halved;
    if n > 1 {
      SegOfHalved(op, items, n - 1);
      TwoMore(op, items, 2 * n - 2);
    } else {
      TwoItems(op, items);
    }
  }

  lemma TwoItems<T>(op: (T, T) -> T, items: seq<T>)
    requires |items| >= 2
    ensures Seg(op, items, 0, 2) == op(items[0], items[1])
  {
    assert Seg(op, items, 0, 1) == items[0];
  }

  lemma TwoMore<T(!new)>(op: (T, T) -> T, items: seq<T>, n: nat)
    requires Associative(op) && 0 < n && n + 2 <= |items|
    ensures Seg(op, items, 0, n + 2) == op(Seg(op, items, 0, n), op(items[n], items[n + 1]))
  {
    var a := Seg(op, items, 0, n);
    assert Seg(op, items, 0, n + 1) == op(a, items[n]);
    assert op(op(a, items[n]), items[n + 1]) == op(a, op(items[n], items[n + 1]));
  }

  /** Lines 158-175 */
  method PreOpL2<T(!new)>(op: (T, T) -> T, items: seq<T>) returns (output: seq<T>)
    requires Associative(op)
    ensures |output| == |items| && forall x: nat :: x < |items| ==> output[x] == Seg(op, items, 0, x + 1)
    decreases |items|
  {
    hide Seg, Halved, Associative;
    var k := |items|;
    var half := k / 2;
    output := items;
    if k == 0 {
      return;
    }
    var u := Halved(op, items);
    var v := PreOpL2(op, u);
    for i := 0 to half
      invariant |output| == k && forall x: nat :: x < k ==> output[x] == if x % 2 == 1 && x < 2 * i then v[x / 2] else items[x]
    {
      output := output[2 * i + 1 := v[i]];
    }
    for i := 1 to (k + 1) / 2
      invariant |output| == k && forall x: nat :: x < k ==>
        output[x] == if x % 2 == 1 then v[x / 2] else if 0 < x < 2 * i then op(v[x / 2 - 1], items[x]) else items[x]
    {
      output := output[2 * i := op(v[i - 1], items[2 * i])];
    }
    forall x: nat | x < k ensures output[x] == Seg(op, items, 0, x + 1) {
      HalvedPrefix(op, items, x);
    }
  }

  lemma HalvedPrefix<T(!new)>(op: (T, T) -> T, items: seq<T>, x: nat)
    requires Associative(op) && x < |items|
    ensures x % 2 == 1 ==> Seg(op, items, 0, x + 1) == Seg(op, Halved(op, items), 0, x / 2 + 1)
    ensures x % 2 == 0 && x > 0 ==> Seg(op, items, 0, x + 1) == op(Seg(op, Halved(op, items), 0, x / 2), items[x])
    ensures x == 0 ==> Seg(op, items, 0, x + 1) == items[0]
  {
    hide Halved, Associative;
    var h := x / 2;
    if x % 2 == 1 {
      assert x + 1 == 2 * (h + 1);
      SegOfHalved(op, items, h + 1);
    } else if x > 0 {
      assert x == 2 * h;
      SegOfHalved(op, items, h);
    }
  }

  // ----- reduction as a tree -----

  /** Compiler/util.py:118-132 */
  function TreeReduce<T>(op: (T, T) -> T, items: seq<T>): T
    requires |items| > 0
    decreases |items|
  {
    if |items| == 1 then items[0] else TreeReduce(op, Halved(op, items) + items[|items| / 2 * 2..])
  }

  lemma {:induction false} SegOfPrefix<T>(op: (T, T) -> T, a: seq<T>, b: seq<T>, n: nat)
    requires 0 < n <= |a|
    ensures Seg(op, a + b, 0, n) == Seg(op, a, 0, n)
  {
    if n > 1 {
      SegOfPrefix(op, a, b, n - 1);
    }
  }

  /** For an associative operator the tree gives what combining from the left gives. */
  lemma {:induction false} TreeIsFold<T(!new)>(op: (T, T) -> T, items: seq<T>)
    requires Associative(op) && |items| > 0
    ensures TreeReduce(op, items) == Seg(op, items, 0, |items|)
    decreases |items|
  {
    hide Associative;
    if |items| > 1 {
      var h := |items| / 2;
      var u, rest := Halved(op, items), items[2 * h..];
      SegOfHalved(op, items, h);
      SegOfPrefix(op, u, rest, h);
      TreeIsFold(op, u + rest);
      assert rest == [] ==> u + rest == u;
    }
  }

  // ----- in place, logarithmic depth -----

  /** Where the block of size 2^i around place `x` starts. */
  function Start(x: nat, i: nat): (s: nat)
    ensures s <= x
  {
    FloorTo(x, Pow2(i))
  }

  function FloorTo(x: nat, d: nat): (s: nat)
    requires d > 0
    ensures s <= x
  {
    FloorMul(x, d);
    x / d * d
  }

  lemma FloorMul(x: nat, d: nat)
    requires d > 0
    ensures x / d * d <= x
  {
    assert x == d * (x / d) + x % d;
  }

  /** After `i` rounds place x holds the items of its block up to x; where the block starts at 0, only up to `same`. */
  ghost predicate PlaceOk<T(!new)>(op: (T, T) -> T, same: (T, T) -> bool, items: seq<T>, output: seq<T>, i: nat, x: nat)
    requires x < |items| == |output|
  {
    var want := Seg(op, items, Start(x, i), x + 1);
    if Start(x, i) > 0 then output[x] == want else same(output[x], want)
  }

  /** Places below `done` have finished round `i`, the others are still before it. */
  ghost predicate RoundOk<T(!new)>(op: (T, T) -> T, same: (T, T) -> bool, items: seq<T>, output: seq<T>, i: nat, n: nat, done: nat)
    requires |items| == |output|
  {
    && n == i + 1
    && (forall x: nat :: x < |items| && x < done ==> PlaceOk(op, same, items, output, n, x))
    && (forall x: nat :: x < |items| && x >= done ==> PlaceOk(op, same, items, output, i, x))
  }

  /** Block `j` of size 2^(i+1): the lower half starts where the block does, the upper half in its middle. */
  lemma Blocks(i: nat, j: nat, x: nat)
    requires j * Pow2(i + 1) <= x < (j + 1) * Pow2(i + 1)
    ensures Start(x, i + 1) == j * Pow2(i + 1)
    ensures Start(x, i) == if x < j * Pow2(i + 1) + Pow2(i) then j * Pow2(i + 1) else j * Pow2(i + 1) + Pow2(i)
  {
    var p := Pow2(i);
    assert Pow2(i + 1) == 2 * p;
    var r := x - j * Pow2(i + 1);
    assert j * Pow2(i + 1) == Pow2(i + 1) * j && (j + 1) * Pow2(i + 1) == j * Pow2(i + 1) + Pow2(i + 1);
    DivUnique(x, Pow2(i + 1), j, r);
    assert j * (2 * p) == p * (2 * j) == 2 * j * p;
    if r < p {
      DivUnique(x, p, 2 * j, r);
    } else {
      assert p * (2 * j + 1) == p * (2 * j) + p;
      DivUnique(x, p, 2 * j + 1, r - p);
    }
  }

  /** One combination of lines 151-155. */
  lemma Combined<T(!new)>(op3: Op<T>, op: (T, T) -> T, same: (T, T) -> bool, items: seq<T>, output: seq<T>, i: nat, j: nat, y: nat, x: nat)
    requires Associative(op) && Computes(op3, op, same) && |items| == |output|
    requires y == j * Pow2(i + 1) + Pow2(i) - 1 && y < x < (j + 1) * Pow2(i + 1) && x < |items|
    requires PlaceOk(op, same, items, output, i + 1, y) && PlaceOk(op, same, items, output, i, x)
    ensures PlaceOk(op, same, items, output[x := op3(output[y], output[x], j != 0)], i + 1, x)
  {
    assert (j + 1) * Pow2(i + 1) == j * Pow2(i + 1) + 2 * Pow2(i);
    Blocks(i, j, y);
    Blocks(i, j, x);
    SegJoin(op, items, j * Pow2(i + 1), y + 1, x + 1);
    assert j != 0 ==> j * Pow2(i + 1) > 0;
  }

  /** A lower half needs no work. */
  lemma LowerHalf<T(!new)>(op: (T, T) -> T, same: (T, T) -> bool, items: seq<T>, output: seq<T>, i: nat, j: nat, x: nat)
    requires |items| == |output| && x < |items| && j * Pow2(i + 1) <= x < j * Pow2(i + 1) + Pow2(i)
    ensures PlaceOk(op, same, items, output, i, x) <==> PlaceOk(op, same, items, output, i + 1, x)
  {
    assert (j + 1) * Pow2(i + 1) == j * Pow2(i + 1) + 2 * Pow2(i);
    Blocks(i, j, x);
  }

  lemma FirstRound<T(!new)>(op: (T, T) -> T, same: (T, T) -> bool, items: seq<T>)
    requires forall x :: same(x, x)
    ensures RoundOk(op, same, items, items, 0, 1, 0)
  {
    forall x: nat | x < |items| ensures PlaceOk(op, same, items, items, 0, x) {
      assert Start(x, 0) == x;
    }
  }

  lemma NextRound<T(!new)>(op: (T, T) -> T, same: (T, T) -> bool, items: seq<T>, output: seq<T>, i: nat, done: nat)
    requires |items| == |output| <= done && RoundOk(op, same, items, output, i, i + 1, done)
    ensures RoundOk(op, same, items, output, i + 1, i + 2, 0)
  {
    hide PlaceOk;
  }

  lemma LastRound<T(!new)>(op: (T, T) -> T, same: (T, T) -> bool, items: seq<T>, output: seq<T>, i: nat)
    requires |items| == |output| <= Pow2(i) && RoundOk(op, same, items, output, i, i + 1, 0)
    ensures forall x: nat :: x < |items| ==> same(output[x], Seg(op, items, 0, x + 1))
  {
    forall x: nat | x < |items| ensures same(output[x], Seg(op, items, 0, x + 1)) {
      DivUnique(x, Pow2(i), 0, x);
      assert PlaceOk(op, same, items, output, i, x);
    }
  }

  lemma LowerDone<T(!new)>(op: (T, T) -> T, same: (T, T) -> bool, items: seq<T>, output: seq<T>, i: nat, j: nat)
    requires |items| == |output| && RoundOk(op, same, items, output, i, i + 1, j * Pow2(i + 1))
    ensures RoundOk(op, same, items, output, i, i + 1, j * Pow2(i + 1) + Pow2(i))
  {
    hide PlaceOk;
    var n := i + 1;
    forall x: nat | j * Pow2(n) <= x < |items| && x < j * Pow2(n) + Pow2(i) ensures PlaceOk(op, same, items, output, n, x) {
      LowerHalf(op, same, items, output, i, j, x);
    }
  }

  lemma OthersSame<T(!new)>(op: (T, T) -> T, same: (T, T) -> bool, items: seq<T>, before: seq<T>, after: seq<T>, i: nat, x: nat)
    requires |items| == |before| == |after| && x < |items| && RoundOk(op, same, items, before, i, i + 1, x)
    requires after == before[x := after[x]] && PlaceOk(op, same, items, after, i + 1, x)
    ensures RoundOk(op, same, items, after, i, i + 1, x + 1)
  {
    hide Start, Seg;
    var n := i + 1;
    forall w: nat | w < |items| && w < x + 1 ensures PlaceOk(op, same, items, after, n, w) {
      assert w < x ==> PlaceOk(op, same, items, before, n, w);
    }
    forall w: nat | w < |items| && w >= x + 1 ensures PlaceOk(op, same, items, after, i, w) {
      assert PlaceOk(op, same, items, before, i, w);
    }
  }

  /** The rounded-up logarithm of line 147. */
  function CeilLog2(k: nat): (l: nat)
    ensures k <= Pow2(l)
  {
    if k <= 1 then 0 else 1 + CeilLog2((k + 1) / 2)
  }

  /** Lines 140-156 */
  method PreOpL<T(!new)>(op3: Op<T>, items: seq<T>, ghost op: (T, T) -> T, ghost same: (T, T) -> bool) returns (output: seq<T>)
    requires |items| > 0 && Associative(op) && Computes(op3, op, same) && forall x :: same(x, x)
    ensures |output| == |items| && forall x: nat :: x < |items| ==> same(output[x], Seg(op, items, 0, x + 1))
  {
    hide Associative, Computes, PlaceOk, Start;
    var k := |items|;
    var logk := CeilLog2(k);
    var kmax := Pow2(logk);
    output := items;
    FirstRound(op, same, items);
    for i := 0 to logk
      invariant |output| == k && RoundOk(op, same, items, output, i, i + 1, 0)
    {
      Pow2Add(i + 1, logk - (i + 1));
      Exact(kmax, Pow2(i + 1), Pow2(logk - (i + 1)));
      for j := 0 to kmax / Pow2(i + 1)
        invariant |output| == k && RoundOk(op, same, items, output, i, i + 1, j * Pow2(i + 1))
      {
        output := Block(op3, items, output, i, j, op, same);
      }
      Covered(kmax, Pow2(i + 1), k);
      NextRound(op, same, items, output, i, kmax / Pow2(i + 1) * Pow2(i + 1));
    }
    LastRound(op, same, items, output, logk);
  }

  lemma Exact(x: nat, d: nat, q: nat)
    requires d > 0 && x == d * q
    ensures x / d == q
  {
    DivUnique(x, d, q, 0);
  }

  lemma Covered(x: nat, d: nat, k: nat)
    requires d > 0 && k <= x && x % d == 0
    ensures x / d * d >= k
  {
    assert x == d * (x / d);
  }

  /** The loop over z, for one block. */
  method Block<T(!new)>(op3: Op<T>, items: seq<T>, output: seq<T>, i: nat, j: nat, ghost op: (T, T) -> T, ghost same: (T, T) -> bool)
    returns (r: seq<T>)
    requires Associative(op) && Computes(op3, op, same) && |items| == |output| && RoundOk(op, same, items, output, i, i + 1, j * Pow2(i + 1))
    ensures |r| == |items| && RoundOk(op, same, items, r, i, i + 1, (j + 1) * Pow2(i + 1))
  {
    hide Associative, Computes, PlaceOk, Start;
    var k := |items|;
    r := output;
    assert Pow2(i + 1) == 2 * Pow2(i) && (j + 1) * Pow2(i + 1) == j * Pow2(i + 1) + 2 * Pow2(i);
    var y := Pow2(i) + j * Pow2(i + 1) - 1;
    LowerDone(op, same, items, r, i, j);
    for z := 1 to Pow2(i) + 1
      invariant |r| == k && RoundOk(op, same, items, r, i, i + 1, y + z)
    {
      if y + z < k {
        ghost var before := r;
        Combined(op3, op, same, items, r, i, j, y, y + z);
        r := r[y + z := op3(r[y], r[y + z], j != 0)];
        OthersSame(op, same, items, before, r, i, y + z);
      }
    }
  }
}
