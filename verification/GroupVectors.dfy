/** Compiler/decision_tree.py:25-158, 227-230: sums, maxima and first ones per group. A group is a stretch of rows;
    `g` is 1 on the first row of every group. */
module GroupVectors {
  import opened Powers
  import opened Bits

  // ----- sums -----

  function Sum(x: seq<int>, lo: nat, hi: nat): int
    requires lo <= hi <= |x|
  {
    if lo == hi then 0 else Sum(x, lo, hi - 1) + x[hi - 1]
  }

  lemma {:induction false} SumSplit(x: seq<int>, lo: nat, mid: nat, hi: nat)
    requires lo <= mid <= hi <= |x|
    ensures Sum(x, lo, hi) == Sum(x, lo, mid) + Sum(x, mid, hi)
  {
    if mid < hi {
      SumSplit(x, lo, mid, hi - 1);
    }
  }

  function PrefixSum(x: seq<int>): (r: seq<int>)
    ensures |r| == |x| && forall i: nat :: i < |r| ==> r[i] == Sum(x, 0, i + 1)
  {
    seq(|x|, i requires 0 <= i < |x| => Sum(x, 0, i + 1))
  }

  function Reversed(x: seq<int>): (r: seq<int>)
    ensures |r| == |x| && forall i: nat :: i < |r| ==> r[i] == x[|x| - 1 - i]
  {
    seq(|x|, i requires 0 <= i < |x| => x[|x| - 1 - i])
  }

  /** Lines 28-34 */
  function PrefixSumR(x: seq<int>): (r: seq<int>)
    ensures |r| == |x|
  {
    Reversed(PrefixSum(Reversed(x)))
  }

  lemma {:induction false} SumReversed(x: seq<int>, n: nat)
    requires n <= |x|
    ensures Sum(Reversed(x), 0, n) == Sum(x, |x| - n, |x|)
  {
    if n > 0 {
      SumReversed(x, n - 1);
      SumSplit(x, |x| - n, |x| - n + 1, |x|);
    }
  }

  lemma SuffixSums(x: seq<int>, i: nat)
    requires i < |x|
    ensures PrefixSumR(x)[i] == Sum(x, i, |x|)
  {
    SumReversed(x, |x| - i);
  }

  /** Lines 36-40 */
  function PrefixSumInv(x: seq<int>): (r: seq<int>)
    ensures |r| == |x| && forall i: nat :: i < |r| ==> r[i] == x[i] - if i == 0 then 0 else x[i - 1]
  {
    seq(|x|, i requires 0 <= i < |x| => x[i] - if i == 0 then 0 else x[i - 1])
  }

  /** Lines 42-46 */
  function PrefixSumRInv(x: seq<int>): (r: seq<int>)
    ensures |r| == |x| && forall i: nat :: i < |r| ==> r[i] == x[i] - if i + 1 == |x| then 0 else x[i + 1]
  {
    seq(|x|, i requires 0 <= i < |x| => x[i] - if i + 1 == |x| then 0 else x[i + 1])
  }

  function Times(x: seq<int>, g: seq<Bit>): (r: seq<int>)
    requires |x| == |g|
    ensures |r| == |x| && forall i: nat :: i < |r| ==> r[i] == if g[i] == 1 then x[i] else 0
  {
    seq(|x|, i requires 0 <= i < |x| => if g[i] == 1 then x[i] else 0)
  }

  function Nots(b: seq<Bit>): (r: seq<Bit>)
    ensures |r| == |b| && forall i: nat :: i < |r| ==> r[i] == BitNot(b[i])
  {
    seq<Bit>(|b|, i requires 0 <= i < |b| => BitNot(b[i]))
  }

  // ----- stable sorting by one bit -----

  /** The rows before `n` whose bit is `v`, in order. */
  function Where(b: seq<Bit>, v: Bit, n: nat): (w: seq<nat>)
    requires n <= |b|
    ensures |w| <= n
  {
    if n == 0 then [] else if b[n - 1] == v then Where(b, v, n - 1) + [n - 1] else Where(b, v, n - 1)
  }

  lemma {:induction false} WhereIsAscending(b: seq<Bit>, v: Bit, n: nat)
    requires n <= |b|
    ensures forall i: nat :: i < |Where(b, v, n)| ==> Where(b, v, n)[i] < n && b[Where(b, v, n)[i]] == v
    ensures forall i: nat, j: nat :: i < j < |Where(b, v, n)| ==> Where(b, v, n)[i] < Where(b, v, n)[j]
  {
    if n > 0 {
      WhereIsAscending(b, v, n - 1);
    }
  }

  lemma {:induction false} WhereGrows(b: seq<Bit>, v: Bit, m: nat, n: nat)
    requires m <= n <= |b|
    ensures Where(b, v, m) <= Where(b, v, n)
  {
    if m < n {
      WhereGrows(b, v, m, n - 1);
    }
  }

  /** A row with bit `v` comes after as many others as there are before it. */
  lemma WhereIs(b: seq<Bit>, v: Bit, r: nat)
    requires r < |b| && b[r] == v
    ensures |Where(b, v, r)| < |Where(b, v, |b|)| && Where(b, v, |b|)[|Where(b, v, r)|] == r
  {
    WhereGrows(b, v, r + 1, |b|);
    assert Where(b, v, r + 1) == Where(b, v, r) + [r];
  }

  lemma {:induction false} WhereSizes(b: seq<Bit>, n: nat)
    requires n <= |b|
    ensures |Where(b, 0, n)| + |Where(b, 1, n)| == n
  {
    if n > 0 {
      WhereSizes(b, n - 1);
    }
  }

  /** Where each sorted place comes from: zeros first, otherwise in order. */
  function Order(b: seq<Bit>): (o: seq<nat>)
    ensures |o| == |b|
  {
    WhereSizes(b, |b|);
    Where(b, 0, |b|) + Where(b, 1, |b|)
  }

  /** Where each row goes. */
  function Dest(b: seq<Bit>, r: nat): nat
    requires r < |b|
  {
    if b[r] == 0 then |Where(b, 0, r)| else |Where(b, 0, |b|)| + |Where(b, 1, r)|
  }

  lemma OrderOfDest(b: seq<Bit>, r: nat)
    requires r < |b|
    ensures Dest(b, r) < |b| && Order(b)[Dest(b, r)] == r
  {
    WhereIs(b, b[r], r);
    WhereSizes(b, |b|);
  }

  lemma OrderIsRow(b: seq<Bit>, i: nat)
    requires i < |b|
    ensures Order(b)[i] < |b| && Dest(b, Order(b)[i]) == i
  {
    var z, o := Where(b, 0, |b|), Where(b, 1, |b|);
    WhereIsAscending(b, 0, |b|);
    WhereIsAscending(b, 1, |b|);
    WhereSizes(b, |b|);
    var r := Order(b)[i];
    OrderOfDest(b, r);
    if i < |z| {
      WhereIs(b, 0, r);
      SameIndex(z, |Where(b, 0, r)|, i);
    } else {
      WhereIs(b, 1, r);
      SameIndex(o, |Where(b, 1, r)|, i - |z|);
    }
  }

  lemma SameIndex(s: seq<nat>, i: nat, j: nat)
    requires i < |s| && j < |s| && s[i] == s[j] && forall k: nat, l: nat :: k < l < |s| ==> s[k] < s[l]
    ensures i == j
  {
  }

  /** Lines 48-61: SortPerm.apply and SortPerm.unapply; also the sort by one bit of lines 63-85. */
  function Apply<T>(b: seq<Bit>, x: seq<T>): (r: seq<T>)
    requires |x| == |b|
    ensures |r| == |x|
  {
    seq(|x|, i requires 0 <= i < |x| => (OrderIsRow(b, i); x[Order(b)[i]]))
  }

  function Unapply<T>(b: seq<Bit>, x: seq<T>): (r: seq<T>)
    requires |x| == |b|
    ensures |r| == |x|
  {
    seq(|x|, r requires 0 <= r < |x| => (OrderOfDest(b, r); x[Dest(b, r)]))
  }

  // ----- groups -----

  ghost predicate Grouped(g: seq<Bit>) {
    |g| > 0 && g[0] == 1
  }

  /** The first row of the group of row `r`. */
  function First(g: seq<Bit>, r: nat): (f: nat)
    requires r < |g| && g[0] == 1
    ensures f <= r && g[f] == 1 && forall i: nat :: f < i <= r ==> g[i] == 0
  {
    if g[r] == 1 then r else First(g, r - 1)
  }

  /** The row after the last one of the group of row `r`. */
  function End(g: seq<Bit>, r: nat): (e: nat)
    requires r < |g|
    ensures r < e <= |g| && (e < |g| ==> g[e] == 1) && forall i: nat :: r < i < e ==> g[i] == 0
    decreases |g| - r
  {
    if r + 1 == |g| || g[r + 1] == 1 then r + 1 else End(g, r + 1)
  }

  function Total(g: seq<Bit>, x: seq<int>, r: nat): int
    requires Grouped(g) && |x| == |g| && r < |g|
  {
    Sum(x, First(g, r), End(g, r))
  }

  // ----- sums per group -----

  /** Lines 102-110 */
  function GroupSum(g: seq<Bit>, x: seq<int>): (r: seq<int>)
    requires |x| == |g|
    ensures |r| == |g|
  {
    var p := Times(PrefixSumR(x), g);
    var b := Nots(g);
    var p1 := Apply(b, p);
    var s1 := PrefixSumRInv(p1);
    var d1 := PrefixSumInv(s1);
    var d := Times(Unapply(b, d1), g);
    PrefixSum(d)
  }

  /** The starts of the groups, in order. */
  function Starts(g: seq<Bit>): seq<nat> {
    Where(Nots(g), 0, |g|)
  }

  /** Sorted by `not g`, the first places are the starts. */
  lemma StartsFirst(g: seq<Bit>, i: nat)
    requires i < |g|
    ensures Order(Nots(g))[i] < |g|
    ensures i < |Starts(g)| ==> Order(Nots(g))[i] == Starts(g)[i] && g[Starts(g)[i]] == 1
    ensures i >= |Starts(g)| ==> g[Order(Nots(g))[i]] == 0
  {
    var b := Nots(g);
    OrderIsRow(b, i);
    WhereIsAscending(b, 0, |b|);
    WhereIsAscending(b, 1, |b|);
    WhereSizes(b, |b|);
    if i >= |Starts(g)| {
      assert b[Where(b, 1, |b|)[i - |Starts(g)|]] == 1;
    }
  }

  /** The `i`-th start ends its group where the next one begins. */
  lemma EndIsNextStart(g: seq<Bit>, i: nat)
    requires i < |Starts(g)|
    ensures Starts(g)[i] < |g| && g[Starts(g)[i]] == 1
    ensures End(g, Starts(g)[i]) == if i + 1 < |Starts(g)| then Starts(g)[i + 1] else |g|
  {
    var b, s := Nots(g), Starts(g);
    StartsAscend(g);
    var e := End(g, s[i]);
    if e < |g| {
      WhereIs(b, 0, e);
      EarlierIndex(s, i, |Where(b, 0, e)|);
      EarlierIndex(s, i + 1, |Where(b, 0, e)|);
    }
  }

  lemma StartsAscend(g: seq<Bit>)
    ensures forall i: nat :: i < |Starts(g)| ==> Starts(g)[i] < |g| && g[Starts(g)[i]] == 1
    ensures forall i: nat, j: nat :: i < j < |Starts(g)| ==> Starts(g)[i] < Starts(g)[j]
  {
    WhereIsAscending(Nots(g), 0, |g|);
  }

  lemma EarlierIndex(s: seq<nat>, i: nat, j: nat)
    requires j < |s| && forall k: nat, l: nat :: k < l < |s| ==> s[k] < s[l]
    ensures i < |s| ==> (i < j <==> s[i] < s[j]) && (i == j <==> s[i] == s[j])
  {
  }

  lemma {:induction false} SameEnd(g: seq<Bit>, f: nat, r: nat)
    requires f <= r < |g| && forall i: nat :: f < i <= r ==> g[i] == 0
    ensures End(g, f) == End(g, r)
    decreases r - f
  {
    if f < r {
      SameEnd(g, f + 1, r);
    }
  }

  lemma NextRowSameGroup(g: seq<Bit>, x: seq<int>, r: nat)
    requires Grouped(g) && |x| == |g| && 0 < r < |g| && g[r] == 0
    ensures Total(g, x, r) == Total(g, x, r - 1)
  {
  }

  /** The sum of the last group before start `i`. */
  lemma PreviousTotal(g: seq<Bit>, x: seq<int>, i: nat)
    requires Grouped(g) && |x| == |g| && 0 < i < |Starts(g)|
    ensures 0 < Starts(g)[i] < |g| && Starts(g)[i - 1] < |g|
    ensures Total(g, x, Starts(g)[i] - 1) == Total(g, x, Starts(g)[i - 1])
  {
    var b, s := Nots(g), Starts(g);
    WhereIsAscending(b, 0, |b|);
    assert s[i - 1] < s[i];
    EndIsNextStart(g, i - 1);
    var f, r := s[i - 1], s[i] - 1;
    forall k: nat | f < k <= r ensures g[k] == 0 {
    }
    SameEnd(g, f, r);
    FirstIs(g, f, r);
    FirstIs(g, f, f);
  }

  lemma {:induction false} FirstIs(g: seq<Bit>, f: nat, r: nat)
    requires Grouped(g) && f <= r < |g| && g[f] == 1 && forall i: nat :: f < i <= r ==> g[i] == 0
    ensures First(g, r) == f
    decreases r
  {
    if f < r {
      FirstIs(g, f, r - 1);
    }
  }

  /** The sums of lines 104-107: one per group, in order, then zeros. */
  function StartSums(g: seq<Bit>, x: seq<int>): (s: seq<int>)
    requires |x| == |g|
    ensures |s| == |g|
  {
    PrefixSumRInv(Apply(Nots(g), Times(PrefixSumR(x), g)))
  }

  lemma StartSumIsTotal(g: seq<Bit>, x: seq<int>, i: nat)
    requires Grouped(g) && |x| == |g| && i < |Starts(g)|
    ensures Starts(g)[i] < |g| && StartSums(g, x)[i] == Total(g, x, Starts(g)[i])
  {
    var n, s := |g|, Starts(g);
    var p1 := Apply(Nots(g), Times(PrefixSumR(x), g));
    EndIsNextStart(g, i);
    FirstIs(g, s[i], s[i]);
    StartsFirst(g, i);
    SuffixSums(x, s[i]);
    assert p1[i] == Sum(x, s[i], n);
    if i + 1 < n {
      StartsFirst(g, i + 1);
      if i + 1 < |s| {
        SuffixSums(x, s[i + 1]);
        SumSplit(x, s[i], s[i + 1], n);
      }
    }
  }

  /** Lines 108-109: every start holds the difference to the group before it. */
  function Steps(g: seq<Bit>, x: seq<int>): (d: seq<int>)
    requires |x| == |g|
    ensures |d| == |g|
  {
    Times(Unapply(Nots(g), PrefixSumInv(StartSums(g, x))), g)
  }

  lemma StepIsDifference(g: seq<Bit>, x: seq<int>, r: nat)
    requires Grouped(g) && |x| == |g| && r < |g|
    ensures g[r] == 0 ==> Steps(g, x)[r] == 0
    ensures g[r] == 1 ==> Steps(g, x)[r] == Total(g, x, r) - if r == 0 then 0 else Total(g, x, r - 1)
  {
    hide *;
    if g[r] == 1 {
      var i := |Where(Nots(g), 0, r)|;
      StepAtStart(g, x, r, i);
      StartSumIsTotal(g, x, i);
      if i > 0 {
        StartSumIsTotal(g, x, i - 1);
        PreviousTotal(g, x, i);
      } else {
        SomeStartBefore(g, r);
      }
    } else {
      StepElsewhere(g, x, r);
    }
  }

  lemma StepElsewhere(g: seq<Bit>, x: seq<int>, r: nat)
    requires |x| == |g| && r < |g| && g[r] == 0
    ensures Steps(g, x)[r] == 0
  {
  }

  lemma StepAtStart(g: seq<Bit>, x: seq<int>, r: nat, i: nat)
    requires Grouped(g) && |x| == |g| && r < |g| && g[r] == 1 && i == |Where(Nots(g), 0, r)|
    ensures i < |Starts(g)| <= |g| && Starts(g)[i] == r
    ensures Steps(g, x)[r] == StartSums(g, x)[i] - if i == 0 then 0 else StartSums(g, x)[i - 1]
  {
    hide StartSums;
    var b := Nots(g);
    WhereIs(b, 0, r);
    OrderOfDest(b, r);
    assert Dest(b, r) == i;
  }

  lemma SomeStartBefore(g: seq<Bit>, r: nat)
    requires Grouped(g) && r < |g|
    ensures r > 0 ==> |Where(Nots(g), 0, r)| > 0
  {
    if r > 0 {
      WhereGrows(Nots(g), 0, 1, r);
      assert Where(Nots(g), 0, 1) == Where(Nots(g), 0, 0) + [0];
    }
  }

  lemma GroupedHere(g: seq<Bit>)
    requires Grouped(g)
    ensures |g| > 0 && g[0] == 1
  {
  }

  lemma {:induction false} StepsAddUp(g: seq<Bit>, x: seq<int>, r: nat)
    requires Grouped(g) && |x| == |g| && r < |g|
    ensures Sum(Steps(g, x), 0, r + 1) == Total(g, x, r)
  {
    hide Steps, Total, Grouped;
    StepIsDifference(g, x, r);
    GroupedHere(g);
    if r > 0 {
      StepsAddUp(g, x, r - 1);
      if g[r] == 0 {
        NextRowSameGroup(g, x, r);
      }
    }
  }

  /** Every row gets the sum of its group. */
  lemma GroupSumIsTotal(g: seq<Bit>, x: seq<int>, r: nat)
    requires Grouped(g) && |x| == |g| && r < |g|
    ensures GroupSum(g, x)[r] == Total(g, x, r)
  {
    StepsAddUp(g, x, r);
  }

  /** Lines 114-118: what comes before the group, on its first row. */
  function Before(g: seq<Bit>, x: seq<int>): (q: seq<int>)
    requires |x| == |g|
    ensures |q| == |g| && forall i: nat :: i < |q| ==> q[i] == if g[i] == 1 then Sum(x, 0, i) else 0
  {
    var s := [0] + PrefixSum(x);
    Times(s[..|x|], g)
  }

  /** Lines 112-119 */
  function GroupPrefixSum(g: seq<Bit>, x: seq<int>): (r: seq<int>)
    requires |x| == |g|
    ensures |r| == |g|
  {
    var total := GroupSum(g, Before(g, x));
    seq(|g|, i requires 0 <= i < |g| => PrefixSum(x)[i] - total[i])
  }

  lemma {:induction false} SumOfOne(x: seq<int>, lo: nat, hi: nat)
    requires lo < hi <= |x| && forall i: nat :: lo < i < hi ==> x[i] == 0
    ensures Sum(x, lo, hi) == x[lo]
  {
    if lo + 1 < hi {
      SumOfOne(x, lo, hi - 1);
    } else {
      assert Sum(x, lo, lo) == 0;
    }
  }

  /** Every row gets the sum of its group up to itself. */
  lemma GroupPrefixSumIsSum(g: seq<Bit>, x: seq<int>, r: nat)
    requires Grouped(g) && |x| == |g| && r < |g|
    ensures GroupPrefixSum(g, x)[r] == Sum(x, First(g, r), r + 1)
  {
    hide GroupSum;
    var q, f := Before(g, x), First(g, r);
    GroupSumIsTotal(g, q, r);
    SumOfOne(q, f, End(g, r));
    SumSplit(x, 0, f, r + 1);
  }

  /** Lines 227-230 */
  function GroupFirstOne(g: seq<Bit>, b: seq<Bit>): (r: seq<Bit>)
    requires |b| == |g|
    ensures |r| == |g|
  {
    var s := GroupPrefixSum(g, b);
    seq<Bit>(|g|, i requires 0 <= i < |g| => if b[i] == 1 && s[i] == 1 then 1 else 0)
  }

  lemma {:induction false} CountZero(b: seq<Bit>, lo: nat, hi: nat)
    requires lo <= hi <= |b|
    ensures Sum(b, lo, hi) >= 0 && (Sum(b, lo, hi) == 0 <==> forall i: nat :: lo <= i < hi ==> b[i] == 0)
  {
    if lo < hi {
      CountZero(b, lo, hi - 1);
    }
  }

  /** Exactly the first 1 of each group is marked. */
  lemma GroupFirstOneIsFirst(g: seq<Bit>, b: seq<Bit>, r: nat)
    requires Grouped(g) && |b| == |g| && r < |g|
    ensures GroupFirstOne(g, b)[r] == 1 <==> b[r] == 1 && forall i: nat :: First(g, r) <= i < r ==> b[i] == 0
  {
    hide GroupPrefixSum, First;
    GroupPrefixSumIsSum(g, b, r);
    CountZero(b, First(g, r), r);
    assert Sum(b, First(g, r), r + 1) == Sum(b, First(g, r), r) + b[r];
  }

  // ----- maxima per group -----

  /** The last row with the greatest key. */
  ghost function LastMax(keys: seq<int>, lo: nat, hi: nat): (a: nat)
    requires lo < hi <= |keys|
    ensures lo <= a < hi
    ensures forall i: nat :: lo <= i < hi ==> keys[i] <= keys[a] && (i > a ==> keys[i] < keys[a])
  {
    if hi == lo + 1 then lo
    else
      var a := LastMax(keys, lo, hi - 1);
      if keys[a] > keys[hi - 1] then a else hi - 1
  }

  lemma MaxOfParts(keys: seq<int>, lo: nat, mid: nat, hi: nat)
    requires lo < mid < hi <= |keys|
    ensures var (a, b) := (LastMax(keys, lo, mid), LastMax(keys, mid, hi));
      LastMax(keys, lo, hi) == if keys[a] > keys[b] then a else b
  {
    var a, b, c := LastMax(keys, lo, mid), LastMax(keys, mid, hi), LastMax(keys, lo, hi);
    assert keys[a] <= keys[c] && keys[b] <= keys[c];
  }

  /** Where the window of `w` rows up to row `r` begins within the group. */
  function Window(g: seq<Bit>, r: nat, w: nat): (lo: nat)
    requires Grouped(g) && r < |g| && w > 0
    ensures First(g, r) <= lo <= r
  {
    if First(g, r) + w > r then First(g, r) else r + 1 - w
  }

  /** One round of lines 134-146: rows take the value `w` rows above if it is in the group and has a greater key. */
  function Merge(x: seq<int>, taken: seq<bool>, own: seq<Bit>, w: nat): (y: seq<int>)
    requires |x| == |own| == |taken| + w
    ensures |y| == |x|
  {
    seq(|x|, r requires 0 <= r < |x| => if r >= w && own[r] == 0 && taken[r - w] then x[r - w] else x[r])
  }

  lemma MergeAt(x: seq<int>, taken: seq<bool>, own: seq<Bit>, w: nat, r: nat)
    requires |x| == |own| == |taken| + w && r < |x|
    ensures Merge(x, taken, own, w)[r] == if r >= w && own[r] == 0 && taken[r - w] then x[r - w] else x[r]
  {
  }

  /** Every row holds what the maximum of its window holds. */
  ghost predicate Windowed(g: seq<Bit>, keys: seq<int>, x: seq<int>, now: seq<int>, w: nat)
    requires Grouped(g) && |x| == |keys| == |g| && w > 0
  {
    |now| == |g| && forall r: nat :: r < |g| ==> now[r] == x[LastMax(keys, Window(g, r, w), r + 1)]
  }

  /** The window of a row marked 1 reaches the start of its group. */
  ghost predicate Reaches(g: seq<Bit>, own: seq<Bit>, w: nat)
    requires Grouped(g)
  {
    |own| == |g| && forall r: nat :: r < |g| ==> (own[r] == 1 <==> First(g, r) + w > r)
  }

  lemma RowAbove(g: seq<Bit>, r: nat, w: nat)
    requires Grouped(g) && r < |g| && 0 < w && First(g, r) + w <= r
    ensures First(g, r - w) == First(g, r)
    ensures Window(g, r - w, w) == Window(g, r, 2 * w) && Window(g, r, w) == r - w + 1
  {
    FirstIs(g, First(g, r), r - w);
  }

  lemma ReachesMore(g: seq<Bit>, own: seq<Bit>, next: seq<Bit>, w: nat)
    requires Grouped(g) && 0 < w && Reaches(g, own, w) && |next| == |g|
    requires forall r: nat {:trigger next[r]} :: r < |g| ==> next[r] == if r < w then own[r] else BitOr(own[r - w], own[r])
    ensures Reaches(g, next, 2 * w)
  {
    forall r: nat | r < |g| ensures next[r] == 1 <==> First(g, r) + 2 * w > r {
      ReachesRow(g, own, next[r], w, r);
    }
  }

  lemma ReachesRow(g: seq<Bit>, own: seq<Bit>, next: Bit, w: nat, r: nat)
    requires Grouped(g) && 0 < w && Reaches(g, own, w) && r < |g|
    requires next == if r < w then own[r] else BitOr(own[r - w], own[r])
    ensures next == 1 <==> First(g, r) + 2 * w > r
  {
    if First(g, r) + w <= r {
      RowAbove(g, r, w);
      assert own[r] == 0;
      assert own[r - w] == 1 <==> First(g, r - w) + w > r - w;
    } else {
      assert own[r] == 1;
    }
  }

  lemma WindowsGrow(g: seq<Bit>, keys: seq<int>, k: seq<int>, x: seq<int>, now: seq<int>, taken: seq<bool>, own: seq<Bit>, w: nat)
    requires Grouped(g) && |x| == |keys| == |g| && 0 < w < |g| && |taken| == |g| - w && Reaches(g, own, w)
    requires Windowed(g, keys, keys, k, w) && Windowed(g, keys, x, now, w)
    requires forall i: nat {:trigger taken[i]} :: i < |taken| ==> taken[i] == (k[i] > k[i + w])
    ensures Windowed(g, keys, x, Merge(now, taken, own, w), 2 * w)
  {
    hide *;
    SizesHere(g, keys, x, now, own, w);
    forall r: nat | r < |g| ensures Merge(now, taken, own, w)[r] == x[LastMax(keys, Window(g, r, 2 * w), r + 1)] {
      MergeAt(now, taken, own, w, r);
      RowWindow(g, keys, x, now, own, w, r);
      RowWindow(g, keys, keys, k, own, w, r);
      if First(g, r) + w <= r {
        var above := r - w;
        RowAbove(g, r, w);
        RowWindow(g, keys, x, now, own, w, above);
        RowWindow(g, keys, keys, k, own, w, above);
        MaxOfParts(keys, Window(g, r, 2 * w), above + 1, r + 1);
        assert taken[above] == (k[above] > k[above + w]);
      } else {
        SaturatedWindow(g, r, w);
      }
    }
    RowsWindowed(g, keys, x, Merge(now, taken, own, w), 2 * w);
  }

  lemma SizesHere(g: seq<Bit>, keys: seq<int>, x: seq<int>, now: seq<int>, own: seq<Bit>, w: nat)
    requires Grouped(g) && |x| == |keys| == |g| && 0 < w && Reaches(g, own, w) && Windowed(g, keys, x, now, w)
    ensures |now| == |own| == |g| && g[0] == 1
  {
  }

  lemma RowWindow(g: seq<Bit>, keys: seq<int>, x: seq<int>, now: seq<int>, own: seq<Bit>, w: nat, r: nat)
    requires Grouped(g) && |x| == |keys| == |g| && 0 < w && Reaches(g, own, w) && Windowed(g, keys, x, now, w) && r < |g|
    ensures First(g, r) <= Window(g, r, w) <= r && |now| == |own| == |g|
    ensures now[r] == x[LastMax(keys, Window(g, r, w), r + 1)] && (own[r] == 1 <==> First(g, r) + w > r)
  {
  }

  lemma RowsWindowed(g: seq<Bit>, keys: seq<int>, x: seq<int>, now: seq<int>, w: nat)
    requires Grouped(g) && |x| == |keys| == |g| == |now| && 0 < w
    requires forall r: nat :: r < |g| ==> now[r] == x[LastMax(keys, Window(g, r, w), r + 1)]
    ensures Windowed(g, keys, x, now, w)
  {
  }

  lemma SaturatedWindow(g: seq<Bit>, r: nat, w: nat)
    requires Grouped(g) && r < |g| && 0 < w && First(g, r) + w > r
    ensures Window(g, r, w) == Window(g, r, 2 * w) == First(g, r)
  {
    hide First;
  }

  /** All columns are windowed. */
  ghost predicate AllWindowed(g: seq<Bit>, keys: seq<int>, xs: seq<seq<int>>, now: seq<seq<int>>, w: nat)
    requires Grouped(g) && |keys| == |g| && w > 0
  {
    |xs| == |now| && forall j: nat :: j < |xs| ==> |xs[j]| == |g| && Windowed(g, keys, xs[j], now[j], w)
  }

  function CeilLog2(n: nat): (m: nat)
    ensures n <= Pow2(m) && (m > 0 ==> Pow2(m - 1) < n)
  {
    if n <= 1 then 0 else 1 + CeilLog2((n + 1) / 2)
  }

  /** Row `r` of `y` is what `x` holds where its group has its last greatest key. */
  ghost predicate FromMax(g: seq<Bit>, keys: seq<int>, x: seq<int>, y: seq<int>)
    requires Grouped(g) && |x| == |keys| == |g|
  {
    |y| == |g| && forall r: nat :: r < |g| ==> y[r] == x[LastMax(keys, First(g, r), End(g, r))]
  }

  /** Lines 121-158: every row gets the greatest key of its group, and the values of the last row that has it. */
  method GroupMax(g: seq<Bit>, keys: seq<int>, xs: seq<seq<int>>) returns (max: seq<int>, values: seq<seq<int>>)
    requires Grouped(g) && |keys| == |g| && forall j: nat :: j < |xs| ==> |xs[j]| == |g|
    ensures FromMax(g, keys, keys, max) && |values| == |xs|
    ensures forall j: nat :: j < |xs| ==> FromMax(g, keys, xs[j], values[j])
  {
    hide *;
    var n := |g|;
    var m := CeilLog2(n);
    var k, x, gNew := keys, xs, g;
    WindowsOfOne(g, keys, xs);
    GroupSizes(g);
    for d := 0 to m
      invariant Reaches(g, gNew, Pow2(d)) && Windowed(g, keys, keys, k, Pow2(d)) && AllWindowed(g, keys, xs, x, Pow2(d))
    {
      Pow2Monotone(d, m - 1);
      NextPow2(d);
      k, x, gNew := MaxRound(g, keys, xs, k, x, gNew, Pow2(d));
    }
    EndSizes(g, keys, keys, k, Pow2(m));
    LastRows(g, keys, keys, k, m);
    max := GroupSum(g, Times(k, Ends(g)));
    values := [];
    for j := 0 to |xs|
      invariant |values| == j && forall l: nat :: l < j ==> FromMax(g, keys, xs[l], values[l])
    {
      OneWindowed(g, keys, xs, x, Pow2(m), j);
      EndSizes(g, keys, xs[j], x[j], Pow2(m));
      LastRows(g, keys, xs[j], x[j], m);
      values := values + [GroupSum(g, Times(x[j], Ends(g)))];
    }
  }

  lemma EndSizes(g: seq<Bit>, keys: seq<int>, x: seq<int>, now: seq<int>, w: nat)
    requires Grouped(g) && |x| == |keys| == |g| && w > 0 && Windowed(g, keys, x, now, w)
    ensures |now| == |Ends(g)| == |g|
  {
  }

  lemma GroupSizes(g: seq<Bit>)
    requires Grouped(g)
    ensures |g| > 0
  {
  }

  lemma NextPow2(d: nat)
    ensures Pow2(d + 1) == 2 * Pow2(d)
  {
  }

  lemma OneWindowed(g: seq<Bit>, keys: seq<int>, xs: seq<seq<int>>, now: seq<seq<int>>, w: nat, j: nat)
    requires Grouped(g) && |keys| == |g| && w > 0 && AllWindowed(g, keys, xs, now, w) && j < |xs|
    ensures |now| == |xs| && |xs[j]| == |g| == |now[j]| && Windowed(g, keys, xs[j], now[j], w)
  {
  }

  method MaxRound(g: seq<Bit>, ghost keys: seq<int>, ghost xs: seq<seq<int>>, k: seq<int>, x: seq<seq<int>>, gOld: seq<Bit>, w: nat)
    returns (k': seq<int>, x': seq<seq<int>>, gNew: seq<Bit>)
    requires Grouped(g) && |keys| == |g| && 0 < w < |g| && Reaches(g, gOld, w)
    requires Windowed(g, keys, keys, k, w) && AllWindowed(g, keys, xs, x, w)
    ensures Reaches(g, gNew, 2 * w) && Windowed(g, keys, keys, k', 2 * w) && AllWindowed(g, keys, xs, x', 2 * w)
  {
    hide *;
    var n := |g|;
    SizesHere(g, keys, keys, k, gOld, w);
    gNew := seq<Bit>(n, r requires 0 <= r < n == |gOld| => if r < w then gOld[r] else BitOr(gOld[r - w], gOld[r]));
    var b := seq(n - w, i requires 0 <= i < n - w && n == |k| => k[i] > k[i + w]);
    ReachesMore(g, gOld, gNew, w);
    WindowsGrow(g, keys, k, keys, k, b, gOld, w);
    k' := Merge(k, b, gOld, w);
    x' := MergeAll(g, keys, xs, k, x, b, gOld, w);
  }

  /** Lines 142-146, for the values that go with the keys. */
  method MergeAll(g: seq<Bit>, ghost keys: seq<int>, ghost xs: seq<seq<int>>, ghost k: seq<int>, x: seq<seq<int>>, b: seq<bool>, gOld: seq<Bit>, w: nat)
    returns (x': seq<seq<int>>)
    requires Grouped(g) && |keys| == |g| == |gOld| && 0 < w < |g| && Reaches(g, gOld, w) && |b| == |g| - w
    requires Windowed(g, keys, keys, k, w) && |k| == |g| && AllWindowed(g, keys, xs, x, w)
    requires forall i: nat {:trigger b[i]} :: i < |b| ==> b[i] == (k[i] > k[i + w])
    ensures AllWindowed(g, keys, xs, x', 2 * w)
  {
    hide *;
    x' := [];
    SameCount(g, keys, xs, x, w);
    for j := 0 to |x|
      invariant |x'| == j <= |xs| == |x| && forall l: nat :: l < j ==> |xs[l]| == |g| && Windowed(g, keys, xs[l], x'[l], 2 * w)
    {
      OneWindowed(g, keys, xs, x, w, j);
      WindowsGrow(g, keys, k, xs[j], x[j], b, gOld, w);
      x' := x' + [Merge(x[j], b, gOld, w)];
    }
    NowAllWindowed(g, keys, xs, x', 2 * w);
  }

  lemma SameCount(g: seq<Bit>, keys: seq<int>, xs: seq<seq<int>>, now: seq<seq<int>>, w: nat)
    requires Grouped(g) && |keys| == |g| && w > 0 && AllWindowed(g, keys, xs, now, w)
    ensures |xs| == |now|
  {
  }

  lemma NowAllWindowed(g: seq<Bit>, keys: seq<int>, xs: seq<seq<int>>, now: seq<seq<int>>, w: nat)
    requires Grouped(g) && |keys| == |g| && w > 0 && |xs| == |now|
    requires forall j: nat :: j < |xs| ==> |xs[j]| == |g| && Windowed(g, keys, xs[j], now[j], w)
    ensures AllWindowed(g, keys, xs, now, w)
  {
  }

  lemma WindowsOfOne(g: seq<Bit>, keys: seq<int>, xs: seq<seq<int>>)
    requires Grouped(g) && |keys| == |g| && forall j: nat :: j < |xs| ==> |xs[j]| == |g|
    ensures Reaches(g, g, Pow2(0)) && Windowed(g, keys, keys, keys, Pow2(0))
    ensures AllWindowed(g, keys, xs, xs, Pow2(0))
  {
    forall r: nat | r < |g| ensures Window(g, r, 1) == r && (g[r] == 1 <==> First(g, r) == r) {
    }
  }

  /** Lines 152-154: 1 on the last row of every group. */
  function Ends(g: seq<Bit>): (t: seq<Bit>)
    ensures |t| == |g| && forall r: nat :: r < |g| ==> t[r] == if r + 1 == |g| then 1 else g[r + 1]
  {
    seq<Bit>(|g|, r requires 0 <= r < |g| => if r + 1 == |g| then 1 else g[r + 1])
  }

  lemma {:induction false} SumOfLast(x: seq<int>, lo: nat, hi: nat)
    requires lo < hi <= |x| && forall i: nat :: lo <= i < hi - 1 ==> x[i] == 0
    ensures Sum(x, lo, hi) == x[hi - 1]
  {
    assert Sum(x, lo, hi - 1) == 0 by {
      ZeroSum(x, lo, hi - 1);
    }
  }

  lemma {:induction false} ZeroSum(x: seq<int>, lo: nat, hi: nat)
    requires lo <= hi <= |x| && forall i: nat :: lo <= i < hi ==> x[i] == 0
    ensures Sum(x, lo, hi) == 0
  {
    if lo < hi {
      ZeroSum(x, lo, hi - 1);
    }
  }

  /** The last row of a group has seen the whole group. */
  lemma LastRows(g: seq<Bit>, keys: seq<int>, x: seq<int>, now: seq<int>, m: nat)
    requires Grouped(g) && |x| == |keys| == |g| <= Pow2(m) && Windowed(g, keys, x, now, Pow2(m))
    ensures FromMax(g, keys, x, GroupSum(g, Times(now, Ends(g))))
  {
    hide GroupSum, LastMax;
    var y := Times(now, Ends(g));
    forall r: nat | r < |g| ensures GroupSum(g, y)[r] == x[LastMax(keys, First(g, r), End(g, r))] {
      var f, e := First(g, r), End(g, r);
      GroupSumIsTotal(g, y, r);
      SumOfLast(y, f, e);
      FirstIs(g, f, e - 1);
      assert now[e - 1] == x[LastMax(keys, Window(g, e - 1, Pow2(m)), e)];
    }
  }
}
