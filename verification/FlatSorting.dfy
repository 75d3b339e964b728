/** Compiler/library.py:761-811: the same merge sort as flat loops, for arrays of any length. In stage `l` runs of
    length l / 2 are merged; step `k` of it compares within chains of k cells that lie s = l / k apart. */
module FlatSorting {
  import opened Powers
  import opened SortingNetworks

  // ----- chains -----

  function Pos(base: nat, t: nat, s: nat): nat {
    base + t * s
  }

  /** All cells of a chain exist. */
  ghost predicate Fits(c: seq<Cell>, base: nat, s: nat, k: nat) {
    forall t: nat :: t < k ==> Pos(base, t, s) < |c|
  }

  /** `k` cells from `base` on, `s` apart. */
  ghost function Chain(c: seq<Cell>, base: nat, s: nat, k: nat): (r: seq<Cell>)
    requires Fits(c, base, s, k)
    ensures |r| == k && forall t: nat :: t < k ==> r[t] == c[Pos(base, t, s)]
  {
    seq(k, t requires 0 <= t < k => c[Pos(base, t, s)])
  }

  /** The chain in which place `p` lies, counted over all blocks, and the place of `p` in it. */
  function Owner(p: nat, l: nat, s: nat): nat
    requires l > 0 && s > 0
  {
    p / l * s + p % l % s
  }

  function Place(p: nat, l: nat, s: nat): nat
    requires l > 0 && s > 0
  {
    p % l / s
  }

  /** The first cell of chain `i`. */
  function Base(i: nat, l: nat, s: nat): nat
    requires s > 0
  {
    i / s * l + i % s
  }

  lemma Within(j: nat, t: nat, s: nat, k: nat)
    requires j < s && t < k
    ensures t * s + j < k * s
  {
    Gap(s, k, t);
    assert t * s == s * t && k * s == s * k;
  }

  lemma Locate(i: nat, t: nat, l: nat, s: nat, k: nat)
    requires s > 0 && l == k * s && t < k
    ensures l > 0 && Owner(Pos(Base(i, l, s), t, s), l, s) == i && Place(Pos(Base(i, l, s), t, s), l, s) == t
  {
    var blk, j := i / s, i % s;
    var p := Pos(Base(i, l, s), t, s);
    Within(j, t, s, k);
    assert p == l * blk + (t * s + j) by {
      assert blk * l == l * blk;
    }
    DivUnique(p, l, blk, t * s + j);
    assert t * s + j == s * t + j;
    DivUnique(t * s + j, s, t, j);
    assert blk * s + j == i by {
      assert i == s * (i / s) + i % s;
    }
  }

  lemma Unlocate(p: nat, l: nat, s: nat, k: nat)
    requires s > 0 && k > 0 && l == k * s && l > 0
    ensures p == Pos(Base(Owner(p, l, s), l, s), Place(p, l, s), s) && Place(p, l, s) < k
  {
    var blk, r := p / l, p % l;
    var t, j := r / s, r % s;
    assert p == l * blk + r && r == s * t + j;
    assert k * s == s * k;
    DivLess(r, s, k);
    DivUnique(blk * s + j, s, blk, j) by {
      assert blk * s == s * blk;
    }
    assert blk * l == l * blk && t * s == s * t;
  }

  // ----- one step on all chains -----

  /** What place `p` holds after step `k`. */
  ghost function Stepped(c: seq<Cell>, l: nat, s: nat, k: nat, p: nat): Cell
    requires l > 0 && s > 0 && p < |c|
  {
    var t := Place(p, l, s);
    if IsLow(k, t) && p + s < |c| then Lower(c[p], c[p + s])
    else if IsHigh(k, t) && p >= s then Higher(c[p - s], c[p])
    else c[p]
  }

  ghost function StepOf(c: seq<Cell>, l: nat, s: nat, k: nat): (r: seq<Cell>)
    requires l > 0 && s > 0
    ensures |r| == |c| && forall p: nat :: p < |c| ==> r[p] == Stepped(c, l, s, k, p)
  {
    seq(|c|, p requires 0 <= p < |c| => Stepped(c, l, s, k, p))
  }

  lemma StepOnChain(c: seq<Cell>, l: nat, s: nat, k: nat, i: nat)
    requires s > 0 && k > 0 && k % 2 == 0 && l == k * s && l > 0 && Fits(c, Base(i, l, s), s, k)
    ensures Chain(StepOf(c, l, s, k), Base(i, l, s), s, k) == Pairs(Chain(c, Base(i, l, s), s, k))
  {
    hide Stepped, Pairs, Pos, Base;
    var base := Base(i, l, s);
    var d := Chain(c, base, s, k);
    forall t: nat | t < k ensures Stepped(c, l, s, k, Pos(base, t, s)) == Pairs(d)[t] {
      StepOnPlace(c, l, s, k, i, t);
    }
  }

  lemma StepOnPlace(c: seq<Cell>, l: nat, s: nat, k: nat, i: nat, t: nat)
    requires s > 0 && k > 0 && k % 2 == 0 && l == k * s && l > 0 && t < k && Fits(c, Base(i, l, s), s, k)
    ensures Pos(Base(i, l, s), t, s) < |c|
    ensures Stepped(c, l, s, k, Pos(Base(i, l, s), t, s)) == Pairs(Chain(c, Base(i, l, s), s, k))[t]
  {
    hide Pairs, Stepped, Base, Owner, Place;
    var base := Base(i, l, s);
    var d, p := Chain(c, base, s, k), Pos(base, t, s);
    Locate(i, t, l, s, k);
    NextInChain(base, t, s);
    if t > 0 {
      NextInChain(base, t - 1, s);
    }
    ChainAt(c, base, s, k, d, t, p);
    SteppedAt(c, l, s, k, p, t);
    PairsAt(d, t);
  }

  lemma ChainAt(c: seq<Cell>, base: nat, s: nat, k: nat, d: seq<Cell>, t: nat, p: nat)
    requires Fits(c, base, s, k) && d == Chain(c, base, s, k) && t < k && p == Pos(base, t, s)
    ensures p < |c| && d[t] == c[p]
    ensures t + 1 < k ==> p + s < |c| && d[t + 1] == c[p + s]
    ensures t > 0 ==> p >= s && d[t - 1] == c[p - s]
  {
    hide Pos, Chain;
    NextInChain(base, t, s);
    if t + 1 < k {
      assert d[t + 1] == c[Pos(base, t + 1, s)];
    }
    if t > 0 {
      NextInChain(base, t - 1, s);
      assert d[t - 1] == c[Pos(base, t - 1, s)];
    }
  }

  lemma SteppedAt(c: seq<Cell>, l: nat, s: nat, k: nat, p: nat, t: nat)
    requires l > 0 && s > 0 && p < |c| && t == Place(p, l, s) && (t + 1 < k ==> p + s < |c|) && (t > 0 ==> p >= s)
    requires k > 0 && t < k && k % 2 == 0
    ensures IsLow(k, t) ==> t + 1 < k && p + s < |c| && Stepped(c, l, s, k, p) == Lower(c[p], c[p + s])
    ensures IsHigh(k, t) ==> t > 0 && p >= s && Stepped(c, l, s, k, p) == Higher(c[p - s], c[p])
    ensures !IsLow(k, t) && !IsHigh(k, t) ==> Stepped(c, l, s, k, p) == c[p]
  {
    hide Place, Lower, Higher;
  }

  lemma PairsAt(d: seq<Cell>, t: nat)
    requires |d| % 2 == 0 && t < |d|
    ensures IsLow(|d|, t) ==> t + 1 < |d| && Pairs(d)[t] == Lower(d[t], d[t + 1])
    ensures IsHigh(|d|, t) ==> t > 0 && Pairs(d)[t] == Higher(d[t - 1], d[t])
    ensures !IsLow(|d|, t) && !IsHigh(|d|, t) ==> Pairs(d)[t] == d[t]
  {
    hide Lower, Higher;
  }

  lemma NextInChain(base: nat, t: nat, s: nat)
    ensures Pos(base, t + 1, s) == Pos(base, t, s) + s
  {
    assert (t + 1) * s == t * s + s;
  }

  lemma PartsOfChain(c: seq<Cell>, base: nat, s: nat, k: nat, odd: nat, s2: nat, h: nat)
    requires Fits(c, base, s, k) && odd == base + s && s2 == 2 * s && k == 2 * h
    ensures Fits(c, base, s2, h) && Fits(c, odd, s2, h)
    ensures Evens(Chain(c, base, s, k)) == Chain(c, base, s2, h)
    ensures Odds(Chain(c, base, s, k)) == Chain(c, odd, s2, h)
  {
    forall t: nat | t < h ensures Pos(base, t, s2) == Pos(base, 2 * t, s) < |c| {
      assert t * (2 * s) == 2 * t * s;
    }
    forall t: nat | t < h ensures Pos(odd, t, s2) == Pos(base, 2 * t + 1, s) < |c| {
      assert t * (2 * s) == 2 * t * s && (2 * t + 1) * s == 2 * t * s + s;
    }
  }

  // ----- one stage -----

  /** Runs of length `n` are sorted. */
  ghost predicate RunsSorted(c: seq<Cell>, n: nat)
    requires n > 0
  {
    forall i: nat, j: nat :: i < j < |c| && i / n == j / n ==> Le(c[i], c[j])
  }

  /** Chain `i` is sorted and holds what it held at the start of the stage. */
  ghost predicate ChainOk(c: seq<Cell>, first: seq<Cell>, l: nat, s: nat, k: nat, i: nat)
    requires s > 0 && |c| == |first|
  {
    && Fits(c, Base(i, l, s), s, k)
    && Sorted(Chain(c, Base(i, l, s), s, k))
    && multiset(Chain(c, Base(i, l, s), s, k)) == multiset(Chain(first, Base(i, l, s), s, k))
  }

  ghost predicate ChainsOk(c: seq<Cell>, first: seq<Cell>, l: nat, s: nat, k: nat)
    requires s > 0 && |c| == |first|
  {
    forall i: nat :: i / s * l < |c| ==> ChainOk(c, first, l, s, k, i)
  }

  /** The halves of a chain lie in one run each. */
  lemma ChainHalvesSorted(first: seq<Cell>, l: nat, s: nat, k: nat, i: nat)
    requires s > 0 && k % 2 == 0 && k > 0 && l == k * s && RunsSorted(first, k / 2 * s) && Fits(first, Base(i, l, s), s, k)
    ensures Sorted(Chain(first, Base(i, l, s), s, k)[..k / 2]) && Sorted(Chain(first, Base(i, l, s), s, k)[k / 2..])
  {
    hide RunsSorted, Chain, Le;
    var h := k / 2;
    var d := Chain(first, Base(i, l, s), s, k);
    forall t: nat, u: nat | t < u < h ensures Le(d[t], d[u]) {
      assert t / h == 0 == u / h;
      TwoInRun(first, l, s, k, i, t, u);
    }
    forall t: nat, u: nat | h <= t < u < k ensures Le(d[t], d[u]) {
      DivUnique(t, h, 1, t - h);
      DivUnique(u, h, 1, u - h);
      TwoInRun(first, l, s, k, i, t, u);
    }
  }

  lemma TwoInRun(first: seq<Cell>, l: nat, s: nat, k: nat, i: nat, t: nat, u: nat)
    requires s > 0 && k % 2 == 0 && k > 0 && l == k * s && RunsSorted(first, k / 2 * s) && Fits(first, Base(i, l, s), s, k)
    requires t < u < k && t / (k / 2) == u / (k / 2)
    ensures Le(Chain(first, Base(i, l, s), s, k)[t], Chain(first, Base(i, l, s), s, k)[u])
  {
    hide Base, Le;
    var base := Base(i, l, s);
    InRun(i, t, l, s, k);
    InRun(i, u, l, s, k);
    Gap(s, u, t);
    assert t * s == s * t && u * s == s * u;
    var p, q := Pos(base, t, s), Pos(base, u, s);
    hide Pos;
    assert p < q < |first| && p / (k / 2 * s) == q / (k / 2 * s);
  }

  lemma InRun(i: nat, t: nat, l: nat, s: nat, k: nat)
    requires s > 0 && k % 2 == 0 && k > 0 && l == k * s && t < k
    ensures Pos(Base(i, l, s), t, s) / (k / 2 * s) == 2 * (i / s) + t / (k / 2)
  {
    var h, blk, j := k / 2, i / s, i % s;
    var run, q, r := h * s, t / h, t % h;
    Within(j, r, s, h);
    assert t * s == (h * q + r) * s == q * run + r * s by {
      assert t == h * q + r;
      assert (h * q + r) * s == h * q * s + r * s;
      assert h * q * s == q * (h * s);
    }
    assert blk * l == 2 * blk * run by {
      assert l == 2 * run;
      assert blk * (2 * run) == 2 * blk * run;
    }
    assert Pos(Base(i, l, s), t, s) == run * (2 * blk + q) + (r * s + j) by {
      assert run * (2 * blk + q) == 2 * blk * run + q * run;
    }
    DivUnique(Pos(Base(i, l, s), t, s), run, 2 * blk + q, r * s + j);
  }

  lemma BlockFits(n: nat, l: nat, s: nat, k: nat, i: nat)
    requires s > 0 && k > 0 && l == k * s && l > 0 && n % l == 0 && i / s * l < n
    ensures forall t: nat :: t < k ==> Pos(Base(i, l, s), t, s) < n
  {
    var blk := i / s;
    assert n == l * (n / l);
    assert blk < n / l by {
      MulOrder(l, n / l, blk);
      assert blk * l == l * blk;
    }
    assert l * (blk + 1) <= n by {
      MulOrder(l, blk + 1, n / l);
    }
    forall t: nat | t < k ensures Pos(Base(i, l, s), t, s) < n {
      Within(i % s, t, s, k);
      assert l * (blk + 1) == blk * l + l;
    }
  }

  lemma SubChains(i: nat, l: nat, s: nat)
    requires s > 0
    ensures var (even, odd) := (i / s * (2 * s) + i % s, i / s * (2 * s) + i % s + s);
      && even / (2 * s) == odd / (2 * s) == i / s
      && Base(even, l, 2 * s) == Base(i, l, s) && Base(odd, l, 2 * s) == Base(i, l, s) + s
  {
    var blk, j := i / s, i % s;
    assert blk * (2 * s) == 2 * s * blk;
    DivUnique(blk * (2 * s) + j, 2 * s, blk, j);
    DivUnique(blk * (2 * s) + j + s, 2 * s, blk, j + s);
  }

  /** Two merged halves of a chain, compared once more. */
  lemma MergedChain(d: seq<Cell>, e: seq<Cell>, h: nat)
    requires |d| == |e| == 2 * h && (h == 1 || h % 2 == 0)
    requires Sorted(Evens(d)) && Sorted(Odds(d))
    requires multiset(Evens(d)) == multiset(Evens(e)) && multiset(Odds(d)) == multiset(Odds(e))
    requires h > 1 ==> Sorted(e[..h]) && Sorted(e[h..])
    ensures Sorted(Pairs(d)) && multiset(Pairs(d)) == multiset(e)
  {
    hide Sorted, Pairs, Evens, Odds, Balanced;
    if h > 1 {
      HalvesAreBalanced(e);
      BalancePermutes(Evens(e), Odds(e), Evens(d), Odds(d));
    }
    StepSorts(d);
    PairsPermutes(d);
    PartsPermute(d);
    PartsPermute(e);
  }

  /** One more step of a stage: chains twice as long are sorted. */
  lemma StepKeepsChains(c: seq<Cell>, first: seq<Cell>, l: nat, s: nat, k: nat, s2: nat, h: nat)
    requires s > 0 && h > 0 && s2 == 2 * s && k == 2 * h && l == k * s && l > 0 && (h == 1 || h % 2 == 0)
    requires |c| == |first| && |c| % l == 0 && RunsSorted(first, h * s) && ChainsOk(c, first, l, s2, h)
    ensures ChainsOk(StepOf(c, l, s, k), first, l, s, k)
  {
    hide ChainOk, RunsSorted, StepOf, Base;
    forall i: nat | i / s * l < |c| ensures ChainOk(StepOf(c, l, s, k), first, l, s, k, i) {
      OneChain(c, first, l, s, k, s2, h, i);
    }
  }

  lemma OneChain(c: seq<Cell>, first: seq<Cell>, l: nat, s: nat, k: nat, s2: nat, h: nat, i: nat)
    requires s > 0 && h > 0 && s2 == 2 * s && k == 2 * h && l == k * s && l > 0 && (h == 1 || h % 2 == 0)
    requires |c| == |first| && |c| % l == 0 && RunsSorted(first, h * s) && ChainsOk(c, first, l, s2, h) && i / s * l < |c|
    ensures ChainOk(StepOf(c, l, s, k), first, l, s, k, i)
  {
    hide Base, RunsSorted, StepOf, Chain, Sorted, Pairs, Evens, Odds, Stepped, ChainsOk, Fits;
    SubChainsOk(c, first, l, s, k, s2, h, i);
    if h > 1 {
      ChainHalvesSorted(first, l, s, k, i);
    }
    StepOnChain(c, l, s, k, i);
    MergedChain(Chain(c, Base(i, l, s), s, k), Chain(first, Base(i, l, s), s, k), h);
    SameFit(c, StepOf(c, l, s, k), Base(i, l, s), s, k);
  }

  lemma SameFit(c: seq<Cell>, d: seq<Cell>, base: nat, s: nat, k: nat)
    requires |c| == |d| && Fits(c, base, s, k)
    ensures Fits(d, base, s, k)
  {
  }

  lemma AllFit(c: seq<Cell>, first: seq<Cell>, l: nat, s: nat, k: nat, i: nat)
    requires s > 0 && k > 0 && l == k * s && l > 0 && |c| == |first| && |c| % l == 0 && i / s * l < |c|
    ensures Fits(c, Base(i, l, s), s, k) && Fits(first, Base(i, l, s), s, k)
  {
    hide Base;
    BlockFits(|c|, l, s, k, i);
  }

  lemma OneSubChain(c: seq<Cell>, first: seq<Cell>, l: nat, s2: nat, h: nat, x: nat, base: nat)
    requires s2 > 0 && |c| == |first| && ChainsOk(c, first, l, s2, h) && x / s2 * l < |c| && base == Base(x, l, s2)
    ensures Fits(c, base, s2, h) && Fits(first, base, s2, h)
    ensures Sorted(Chain(c, base, s2, h)) && multiset(Chain(c, base, s2, h)) == multiset(Chain(first, base, s2, h))
  {
    hide Base, Sorted, Chain;
    assert ChainOk(c, first, l, s2, h, x);
  }

  lemma SubChainsOk(c: seq<Cell>, first: seq<Cell>, l: nat, s: nat, k: nat, s2: nat, h: nat, i: nat)
    requires s > 0 && h > 0 && s2 == 2 * s && k == 2 * h && l == k * s && l > 0
    requires |c| == |first| && |c| % l == 0 && ChainsOk(c, first, l, s2, h) && i / s * l < |c|
    ensures Fits(c, Base(i, l, s), s, k) && Fits(first, Base(i, l, s), s, k)
    ensures var (d, e) := (Chain(c, Base(i, l, s), s, k), Chain(first, Base(i, l, s), s, k));
      && Sorted(Evens(d)) && Sorted(Odds(d))
      && multiset(Evens(d)) == multiset(Evens(e)) && multiset(Odds(d)) == multiset(Odds(e))
  {
    hide *;
    var even, odd := i / s * (2 * s) + i % s, i / s * (2 * s) + i % s + s;
    SubChains(i, l, s);
    AllFit(c, first, l, s, k, i);
    var base := Base(i, l, s);
    OneSubChain(c, first, l, s2, h, even, base);
    OneSubChain(c, first, l, s2, h, odd, base + s);
    PartsOfChain(c, base, s, k, base + s, s2, h);
    PartsOfChain(first, base, s, k, base + s, s2, h);
  }

  lemma BalancePermutes(e: seq<Cell>, o: seq<Cell>, e': seq<Cell>, o': seq<Cell>)
    requires Balanced(e, o) && multiset(e) == multiset(e') && multiset(o) == multiset(o')
    ensures Balanced(e', o')
  {
    forall t: Cell ensures Count(o', t) <= Count(e', t) <= Count(o', t) + 2 {
      CountOfPermutation(e, e', t);
      CountOfPermutation(o, o', t);
      assert Count(o, t) <= Count(e, t);
    }
  }

  lemma SingleChains(c: seq<Cell>, l: nat)
    requires l > 0 && |c| % l == 0
    ensures ChainsOk(c, c, l, l, 1)
  {
    forall i: nat | i / l * l < |c| ensures ChainOk(c, c, l, l, 1, i) {
      BlockFits(|c|, l, l, 1, i);
    }
  }

  /** After the last step the chains are the runs themselves. */
  lemma WholeRuns(c: seq<Cell>, first: seq<Cell>, l: nat)
    requires l > 0 && |c| == |first| && |c| % l == 0 && ChainsOk(c, first, l, 1, l)
    ensures RunsSorted(c, l)
  {
    forall i: nat, j: nat | i < j < |c| && i / l == j / l ensures Le(c[i], c[j]) {
      var blk := i / l;
      assert i == l * blk + i % l && j == l * blk + j % l;
      assert ChainOk(c, first, l, 1, l, blk);
      var base := Base(blk, l, 1);
      assert base == blk * l == l * blk;
      var d := Chain(c, base, 1, l);
      assert Pos(base, i % l, 1) == i && Pos(base, j % l, 1) == j;
      assert Le(d[i % l], d[j % l]);
    }
  }

  // ----- the program -----

  /** The array with plus infinity behind it, up to `m` places. */
  ghost function Pad(s: seq<Cell>, m: nat): (r: seq<Cell>)
    requires |s| <= m
    ensures |r| == m && forall p: nat :: p < m ==> r[p] == if p < |s| then s[p] else Outside
  {
    s + seq(m - |s|, _ => Outside)
  }

  /** The least power of two that is no less than `n`. */
  function CeilPow2(n: nat): (m: nat)
    ensures m >= n && m > 0
  {
    if n <= 1 then 1 else 2 * CeilPow2((n + 1) / 2)
  }

  lemma {:induction false} CeilIsPow2(n: nat)
    ensures IsPow2(CeilPow2(n))
  {
    if n <= 1 {
      assert Pow2(0) == 1;
    } else {
      CeilIsPow2((n + 1) / 2);
      var e: nat :| CeilPow2((n + 1) / 2) == Pow2(e);
      assert CeilPow2(n) == Pow2(e + 1);
    }
  }

  lemma {:induction false} CeilIsLeast(n: nat, e: nat)
    requires Pow2(e) < n
    ensures 2 * Pow2(e) <= CeilPow2(n)
  {
    if e > 0 {
      CeilIsLeast((n + 1) / 2, e - 1);
    } else {
      assert n > 1;
    }
  }

  ghost function Compared(c: seq<Cell>, x: nat, y: nat): seq<Cell>
    requires x < |c| && y < |c|
  {
    c[x := Lower(c[x], c[y])][y := Higher(c[x], c[y])]
  }

  lemma ComparedPermutes(c: seq<Cell>, x: nat, y: nat)
    requires x < y < |c|
    ensures multiset(Compared(c, x, y)) == multiset(c)
  {
    if !Le(c[x], c[y]) {
      assert Compared(c, x, y) == c[x := c[y]][y := c[x]];
    } else {
      assert Compared(c, x, y) == c;
    }
  }

  /** Comparing with plus infinity changes nothing. */
  lemma ComparedWithPadding(c: seq<Cell>, x: nat, y: nat, m: nat)
    requires |c| <= m && x < y < m
    ensures Compared(Pad(c, m), x, y) == if y < |c| then Pad(Compared(c, x, y), m) else Pad(c, m)
  {
  }

  method SwapCells(a: array<Cell>, x: nat, y: nat)
    requires x < y < a.Length
    modifies a
    ensures a[..] == Compared(old(a[..]), x, y)
  {
    hide Lower, Higher;
    a[x], a[y] := Lower(a[x], a[y]), Higher(a[x], a[y]);
  }

  /** Lines 787-799: a comparison reaching past the end is ignored. */
  method Swap(a: array<Cell>, base: nat, step: nat, m: nat)
    requires base + step < m && step > 0 && a.Length <= m
    modifies a
    ensures Pad(a[..], m) == Compared(Pad(old(a[..]), m), base, base + step) && multiset(a[..]) == multiset(old(a[..]))
  {
    hide *;
    ComparedWithPadding(a[..], base, base + step, m);
    if m == a.Length {
      ComparedPermutes(a[..], base, base + step);
      SwapCells(a, base, base + step);
    } else {
      var go := base + step < a.Length;
      if go {
        ComparedPermutes(a[..], base, base + step);
        SwapCells(a, base, base + step);
      }
    }
  }

  /** Chains before `i`, and the first `t` places of chain `i`, have been stepped. */
  ghost predicate Partly(now: seq<Cell>, was: seq<Cell>, l: nat, s: nat, k: nat, i: nat, t: nat)
    requires l > 0 && s > 0
  {
    && |now| == |was|
    && forall p: nat :: p < |now| ==>
      now[p] == if Owner(p, l, s) < i || (Owner(p, l, s) == i && Place(p, l, s) < t) then Stepped(was, l, s, k, p) else was[p]
  }

  /** Stepping the pair of places t and t + 1 of chain `i`. */
  lemma PairStepped(now: seq<Cell>, was: seq<Cell>, next: seq<Cell>, l: nat, s: nat, k: nat, i: nat, t: nat)
    requires l > 0 && s > 0 && k > 0 && k % 2 == 0 && l == k * s && Fits(was, Base(i, l, s), s, k)
    requires Partly(now, was, l, s, k, i, t) && IsLow(k, t) && t + 1 < k && IsHigh(k, t + 1)
    requires Pos(Base(i, l, s), t + 1, s) == Pos(Base(i, l, s), t, s) + s
    requires Pos(Base(i, l, s), t, s) + s < |now| && next == Compared(now, Pos(Base(i, l, s), t, s), Pos(Base(i, l, s), t, s) + s)
    ensures Partly(next, was, l, s, k, i, t + 2)
  {
    hide Lower, Higher, Base, Pos, Owner, Place, Stepped;
    var base := Base(i, l, s);
    var x := Pos(base, t, s);
    Locate(i, t, l, s, k);
    Locate(i, t + 1, l, s, k);
    ChainAt(was, base, s, k, Chain(was, base, s, k), t, x);
    ChainAt(was, base, s, k, Chain(was, base, s, k), t + 1, x + s);
    SteppedAt(was, l, s, k, x, t);
    SteppedAt(was, l, s, k, x + s, t + 1);
    forall p: nat | p < |next|
      ensures next[p] == if Owner(p, l, s) < i || (Owner(p, l, s) == i && Place(p, l, s) < t + 2) then Stepped(was, l, s, k, p) else was[p] {
      Unlocate(p, l, s, k);
    }
  }

  /** There are (m / l) * s chains, numbered below m / k. */
  lemma Strides(l: nat, k: nat, s: nat, m: nat)
    requires s > 0 && k > 0 && l == k * s && l > 0 && m % l == 0
    ensures l / k == s && m / k == m / l * s
  {
    DivUnique(l, k, s, 0);
    var b := m / l;
    assert m == l * b == k * s * b == k * (b * s) by {
      assert k * s * b == k * (s * b) && s * b == b * s;
    }
    DivUnique(m, k, b * s, 0);
  }

  lemma NothingDone(was: seq<Cell>, l: nat, s: nat, k: nat)
    requires l > 0 && s > 0
    ensures Partly(was, was, l, s, k, 0, 0)
  {
  }

  lemma IsBase(i: nat, l: nat, s: nat, base: nat)
    requires s > 0 && base == i / s * l + i % s
    ensures base == Base(i, l, s)
  {
  }

  lemma BaseFits(i: nat, l: nat, s: nat, m: nat, k: nat, was: seq<Cell>)
    requires s > 0 && k > 0 && l == k * s && l > 0 && m % l == 0 && m / k == m / l * s && i < m / k && |was| == m
    ensures Fits(was, Base(i, l, s), s, k)
  {
    assert m / l * s == s * (m / l);
    DivLess(i, s, m / l);
    assert i / s * l < m by {
      Gap(l, m / l, i / s);
      assert m == l * (m / l);
      assert i / s * l == l * (i / s);
    }
    BlockFits(m, l, s, k, i);
  }

  lemma ChainDone(now: seq<Cell>, was: seq<Cell>, l: nat, s: nat, k: nat, i: nat)
    requires s > 0 && k > 0 && l == k * s && l > 0 && Partly(now, was, l, s, k, i, k)
    ensures Partly(now, was, l, s, k, i + 1, 0)
  {
    hide Owner, Place, Stepped;
    forall p: nat | p < |now|
      ensures now[p] == if Owner(p, l, s) < i + 1 || (Owner(p, l, s) == i + 1 && Place(p, l, s) < 0) then Stepped(was, l, s, k, p) else was[p] {
      Unlocate(p, l, s, k);
    }
  }

  lemma AllDone(now: seq<Cell>, was: seq<Cell>, l: nat, s: nat, k: nat, m: nat)
    requires s > 0 && k > 0 && l == k * s && l > 0 && m % l == 0 && m / k == m / l * s && |was| == m
    requires Partly(now, was, l, s, k, m / k, 0)
    ensures now == StepOf(was, l, s, k)
  {
    hide Place, Stepped, Owner;
    forall p: nat | p < m ensures Owner(p, l, s) < m / k {
      OwnerBound(p, l, s, m);
    }
  }

  lemma OwnerBound(p: nat, l: nat, s: nat, m: nat)
    requires s > 0 && l > 0 && m % l == 0 && p < m
    ensures Owner(p, l, s) < m / l * s
  {
    assert m == l * (m / l);
    DivLess(p, l, m / l);
    Within(p % l % s, p / l, s, m / l);
  }

  lemma InChain(was: seq<Cell>, base: nat, s: nat, k: nat, t: nat)
    requires Fits(was, base, s, k) && t + 1 < k && k % 2 == 0 && (if k == 2 then t == 0 else t % 2 == 1)
    ensures Pos(base, t + 1, s) == Pos(base, t, s) + s < |was| && Pos(base, 0, s) == base
    ensures IsLow(k, t) && IsHigh(k, t + 1)
  {
    NextInChain(base, t, s);
    assert Pos(base, t + 1, s) < |was|;
  }

  lemma SamePlace(base: nat, n: nat, step: nat, m2: nat)
    requires m2 == step + n * 2 * step + base
    ensures m2 == Pos(base, 1 + 2 * n, step)
  {
    assert (1 + 2 * n) * step == step + n * 2 * step;
  }

  lemma FirstStays(now: seq<Cell>, was: seq<Cell>, l: nat, s: nat, k: nat, i: nat)
    requires s > 0 && k > 2 && l > 0 && Partly(now, was, l, s, k, i, 0)
    ensures Partly(now, was, l, s, k, i, 1)
  {
    hide Owner, Place;
  }

  lemma LastStays(now: seq<Cell>, was: seq<Cell>, l: nat, s: nat, k: nat, i: nat)
    requires s > 0 && k > 2 && k % 2 == 0 && l > 0 && Partly(now, was, l, s, k, i, k - 1)
    ensures Partly(now, was, l, s, k, i, k)
  {
    hide Owner, Place;
  }

  /** Lines 771-808, for one stage `l` and one step `k`. */
  method Step(a: array<Cell>, l: nat, k: nat, m: nat, ghost s: nat)
    requires s > 0 && k > 0 && k % 2 == 0 && (k == 2 || k % 4 == 0) && l == k * s && l > 0 && m % l == 0 && a.Length <= m
    modifies a
    ensures Pad(a[..], m) == StepOf(Pad(old(a[..]), m), l, s, k) && multiset(a[..]) == multiset(old(a[..]))
  {
    hide *;
    ghost var was := Pad(a[..], m);
    Strides(l, k, s, m);
    NothingDone(was, l, s, k);
    var chains := m / k;
    for i := 0 to chains
      invariant Partly(Pad(a[..], m), was, l, s, k, i, 0) && multiset(a[..]) == multiset(old(a[..]))
    {
      BaseFits(i, l, s, m, k, was);
      StepOne(a, i, l, k, m, s, was);
    }
    AllDone(Pad(a[..], m), was, l, s, k, m);
  }

  /** One turn of the loop over chains. */
  method StepOne(a: array<Cell>, i: nat, l: nat, k: nat, m: nat, ghost s: nat, ghost was: seq<Cell>)
    requires s > 0 && k > 0 && k % 2 == 0 && (k == 2 || k % 4 == 0) && l == k * s && l > 0 && m % l == 0 && a.Length <= m == |was|
    requires l / k == s && Fits(was, Base(i, l, s), s, k) && Partly(Pad(a[..], m), was, l, s, k, i, 0)
    modifies a
    ensures Partly(Pad(a[..], m), was, l, s, k, i + 1, 0) && multiset(a[..]) == multiset(old(a[..]))
  {
    hide *;
    var nInner := l / k;
    var j := i % nInner;
    var block := i / nInner;
    var base := block * l + j;
    var step := l / k;
    IsBase(i, l, s, base);
    StepChain(a, base, step, k, m, l, i, was);
    ChainDone(Pad(a[..], m), was, l, s, k, i);
  }

  /** Lines 800-807 */
  method StepChain(a: array<Cell>, base: nat, step: nat, k: nat, m: nat, ghost l: nat, ghost i: nat, ghost was: seq<Cell>)
    requires step > 0 && k > 0 && k % 2 == 0 && (k == 2 || k % 4 == 0) && l == k * step && l > 0 && a.Length <= m == |was|
    requires base == Base(i, l, step) && Fits(was, base, step, k) && Partly(Pad(a[..], m), was, l, step, k, i, 0)
    modifies a
    ensures Partly(Pad(a[..], m), was, l, step, k, i, k) && multiset(a[..]) == multiset(old(a[..]))
  {
    hide *;
    if k == 2 {
      InChain(was, base, step, k, 0);
      Swap(a, base, step, m);
      PairStepped(old(Pad(a[..], m)), was, Pad(a[..], m), l, step, k, i, 0);
    } else {
      FirstStays(Pad(a[..], m), was, l, step, k, i);
      for n := 0 to k / 2 - 1
        invariant Partly(Pad(a[..], m), was, l, step, k, i, 1 + 2 * n) && multiset(a[..]) == multiset(old(a[..]))
      {
        var m1 := step + n * 2 * step;
        var m2 := m1 + base;
        ghost var before := Pad(a[..], m);
        InChain(was, base, step, k, 1 + 2 * n);
        SamePlace(base, n, step, m2);
        Swap(a, m2, step, m);
        PairStepped(before, was, Pad(a[..], m), l, step, k, i, 1 + 2 * n);
      }
      LastStays(Pad(a[..], m), was, l, step, k, i);
    }
  }

  lemma Splits(e: nat, f: nat)
    requires 0 < f <= e
    ensures Pow2(e) == Pow2(f) * Pow2(e - f) && Pow2(e - (f - 1)) == 2 * Pow2(e - f) && Pow2(f) == 2 * Pow2(f - 1)
    ensures Pow2(f) == 2 || Pow2(f) % 4 == 0
    ensures Pow2(f - 1) == 1 || Pow2(f - 1) % 2 == 0
    ensures Pow2(f - 1) * Pow2(e - f) == Pow2(e - 1)
  {
    Pow2Add(f, e - f);
    Pow2Add(f - 1, e - f);
    Doubled(f);
    Doubled(e - f + 1);
    hide Pow2;
  }

  lemma Doubled(f: nat)
    requires f > 0
    ensures Pow2(f) == 2 * Pow2(f - 1) && (Pow2(f) == 2 || Pow2(f) % 4 == 0) && (Pow2(f - 1) == 1 || Pow2(f - 1) % 2 == 0)
  {
    if f > 1 {
      assert Pow2(f) == 4 * Pow2(f - 2);
    }
  }

  lemma Divides(e: nat, m: nat)
    requires IsPow2(m) && Pow2(e) <= m
    ensures m % Pow2(e) == 0
  {
    var f: nat :| m == Pow2(f);
    if f < e {
      Pow2Monotone(f + 1, e);
    } else {
      Pow2Add(e, f - e);
      DivUnique(m, Pow2(e), Pow2(f - e), 0);
    }
  }

  /** Lines 769-809 for one value of `l`: merges runs of half the length. */
  method Stage(a: array<Cell>, l: nat, m: nat, ghost e: nat)
    requires e > 0 && l == Pow2(e) && m % l == 0 && a.Length <= m && RunsSorted(Pad(a[..], m), Pow2(e - 1))
    modifies a
    ensures RunsSorted(Pad(a[..], m), l) && multiset(a[..]) == multiset(old(a[..]))
  {
    hide RunsSorted, ChainsOk, StepOf, Pad;
    ghost var first := Pad(a[..], m);
    SingleChains(first, l);
    var k := 1;
    ghost var f: nat := 0;
    while k < l
      invariant f <= e && k == Pow2(f) && |first| == m
      invariant ChainsOk(Pad(a[..], m), first, l, Pow2(e - f), k) && multiset(a[..]) == multiset(old(a[..]))
      decreases e - f
    {
      Growing(f, e);
      f := f + 1;
      k := k * 2;
      NextStep(a, l, k, m, e, f, first);
    }
    Growing(f, e);
    WholeRuns(Pad(a[..], m), first, l);
  }

  method NextStep(a: array<Cell>, l: nat, k: nat, m: nat, ghost e: nat, ghost f: nat, ghost first: seq<Cell>)
    requires 0 < f <= e && l == Pow2(e) && k == Pow2(f) && m % l == 0 && a.Length <= m == |first| && RunsSorted(first, Pow2(e - 1))
    requires ChainsOk(Pad(a[..], m), first, l, Pow2(e - (f - 1)), Pow2(f - 1))
    modifies a
    ensures ChainsOk(Pad(a[..], m), first, l, Pow2(e - f), k) && multiset(a[..]) == multiset(old(a[..]))
  {
    hide *;
    Splits(e, f);
    ghost var before := Pad(a[..], m);
    Step(a, l, k, m, Pow2(e - f));
    StepKeepsChains(before, first, l, Pow2(e - f), k, Pow2(e - (f - 1)), Pow2(f - 1));
  }

  lemma Growing(f: nat, e: nat)
    ensures f <= e && Pow2(f) < Pow2(e) ==> f < e
    ensures f <= e && Pow2(f) >= Pow2(e) ==> f == e && Pow2(e - f) == 1
  {
    if f < e {
      Pow2Monotone(f + 1, e);
    }
  }

  /** Lines 761-811: sorts an array of any length whose runs of `sortedLength`, a power of two, are sorted. */
  method LoopyOddEvenMergeSort(a: array<Cell>, sortedLength: nat, ghost e0: nat)
    requires sortedLength == Pow2(e0) && RunsSorted(a[..], sortedLength)
    modifies a
    ensures Sorted(a[..]) && multiset(a[..]) == multiset(old(a[..]))
  {
    hide RunsSorted, Pad, Sorted;
    var m := CeilPow2(a.Length);
    CeilIsPow2(a.Length);
    PaddedRuns(a[..], m, sortedLength);
    var l := sortedLength;
    ghost var e := e0;
    while l < a.Length
      invariant l == Pow2(e) && multiset(a[..]) == multiset(old(a[..])) && RunsSorted(Pad(a[..], m), l)
      decreases a.Length - l
    {
      CeilIsLeast(a.Length, e);
      e := e + 1;
      l := l * 2;
      Divides(e, m);
      Stage(a, l, m, e);
    }
    OneRun(a[..], m, l);
  }

  lemma PaddedRuns(s: seq<Cell>, m: nat, n: nat)
    requires |s| <= m && n > 0 && RunsSorted(s, n)
    ensures RunsSorted(Pad(s, m), n)
  {
  }

  lemma OneRun(s: seq<Cell>, m: nat, n: nat)
    requires |s| <= m && |s| <= n && n > 0 && RunsSorted(Pad(s, m), n)
    ensures Sorted(s)
  {
    forall i: nat, j: nat | i < j < |s| ensures Le(s[i], s[j]) {
      DivUnique(i, n, 0, i);
      DivUnique(j, n, 0, j);
      assert Le(Pad(s, m)[i], Pad(s, m)[j]);
    }
  }
}
