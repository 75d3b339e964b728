/** Compiler/circuit_oram.py:18-83: how deep blocks may go on an eviction path, computed on bits. Sums and
    differences are those of a field of characteristic two, that is exclusive or. */
module OramDepths {
  import opened Powers
  import opened Bits

  /** The leaf of a slot, highest bit first as the code reverses it, and whether the slot is empty; an empty
      slot may hold any leaf. */
  datatype Candidate = Candidate(leaf: seq<Bit>, empty: Bit)

  // ----- comparing numbers bit by bit -----

  function CompStep(high: (Bit, Bit), low: (Bit, Bit)): (Bit, Bit) {
    var prod := BitAnd(high.0, high.1);
    var greater := BitXor(high.0, prod);
    var smaller := BitXor(high.1, prod);
    var deferred := BitXor(BitXor(1, greater), smaller);
    (BitXor(greater, BitAnd(deferred, low.0)), BitXor(smaller, BitAnd(deferred, low.1)))
  }

  function CompBinary(a: seq<Bit>, b: seq<Bit>): (Bit, Bit)
    requires |a| == |b| > 0
  {
    if |a| == 1 then (a[0], b[0])
    else
      var l := |a| / 2;
      CompStep(CompBinary(a[l..], b[l..]), CompBinary(a[..l], b[..l]))
  }

  /** (1, 0) means greater, (0, 1) smaller; equal numbers give two equal bits, not always two zeros. */
  lemma {:induction false} CompBinaryCompares(a: seq<Bit>, b: seq<Bit>)
    requires |a| == |b| > 0
    ensures CompBinary(a, b) == (1, 0) <==> Num(a) > Num(b)
    ensures CompBinary(a, b) == (0, 1) <==> Num(a) < Num(b)
  {
    if |a| > 1 {
      var l := |a| / 2;
      CompBinaryCompares(a[l..], b[l..]);
      CompBinaryCompares(a[..l], b[..l]);
      HighFirst(a, b, l);
    }
  }

  lemma HighFirst(a: seq<Bit>, b: seq<Bit>, l: nat)
    requires |a| == |b| && l <= |a|
    ensures Num(a) > Num(b) <==> Num(a[l..]) > Num(b[l..]) || (Num(a[l..]) == Num(b[l..]) && Num(a[..l]) > Num(b[..l]))
    ensures Num(a) < Num(b) <==> Num(a[l..]) < Num(b[l..]) || (Num(a[l..]) == Num(b[l..]) && Num(a[..l]) < Num(b[..l]))
  {
    assert a == a[..l] + a[l..] && b == b[..l] + b[l..];
    NumConcat(a[..l], a[l..]);
    NumConcat(b[..l], b[l..]);
    NumBound(a[..l]);
    NumBound(b[..l]);
    if Num(a[l..]) > Num(b[l..]) {
      Carry(Num(a[..l]), Num(b[..l]), Num(a[l..]), Num(b[l..]), Pow2(l));
    } else if Num(a[l..]) < Num(b[l..]) {
      Carry(Num(b[..l]), Num(a[..l]), Num(b[l..]), Num(a[l..]), Pow2(l));
    }
  }

  lemma Carry(a: nat, b: nat, x: nat, y: nat, p: nat)
    requires b < p && x > y
    ensures a + p * x > b + p * y
  {
    assert p * x >= p * (y + 1) == p * y + p;
  }

  // ----- the deeper of two blocks -----

  /** How many bits from `start` on agree with the path. */
  function Agree(leaf: seq<Bit>, path: seq<Bit>, start: nat): (k: nat)
    requires |leaf| == |path| && start <= |path|
    ensures k <= |path| - start
  {
    FirstOne(Diff(leaf, path, start))
  }

  function Diff(a: seq<Bit>, b: seq<Bit>, start: nat): (d: seq<Bit>)
    requires |a| == |b| && start <= |a|
    ensures |d| == |a| - start && forall k: nat :: k < |d| ==> d[k] == BitXor(a[start + k], b[start + k])
  {
    seq<Bit>(|a| - start, k requires 0 <= k < |a| - start => BitXor(a[start + k], b[start + k]))
  }

  /** Differences of neighbours, as in lines 32 and 36. */
  function Steps(s: seq<Bit>, before: Bit): (d: seq<Bit>)
    ensures |d| == |s|
  {
    seq(|s|, k requires 0 <= k < |s| => BitXor(s[k], if k == 0 then before else s[k - 1]))
  }

  lemma StepsOfPreOr(s: seq<Bit>)
    ensures Steps(PreOr(s), 0) == OneHot(|s|, FirstOne(s))
  {
  }

  function Products(a: seq<Bit>, b: seq<Bit>): (c: seq<Bit>)
    requires |a| == |b|
    ensures |c| == |a|
  {
    seq(|a|, k requires 0 <= k < |a| => BitAnd(a[k], b[k]))
  }

  lemma {:induction false} PickOne(a: seq<Bit>, k: nat)
    ensures XorSum(Products(a, OneHot(|a|, k))) == if k < |a| then a[k] else 0
  {
    if a != [] {
      var n := |a| - 1;
      PickOne(a[..n], k);
      assert OneHot(|a|, k)[..n] == OneHot(n, k);
      assert Products(a, OneHot(|a|, k))[..n] == Products(a[..n], OneHot(n, k));
    }
  }

  lemma {:induction false} PickNone(a: seq<Bit>, z: seq<Bit>)
    requires |z| == |a| && forall k: nat :: k < |z| ==> z[k] == 0
    ensures XorSum(Products(a, z)) == 0
  {
    if a != [] {
      var n := |a| - 1;
      PickNone(a[..n], z[..n]);
      assert Products(a, z)[..n] == Products(a[..n], z[..n]);
    }
  }

  /** Lines 18-37: which of two candidates goes deeper (1 for the second), and the level as a one-hot list. */
  function FindDeeper(a: Candidate, b: Candidate, path: seq<Bit>, start: nat): (r: (seq<Bit>, Bit))
    requires |a.leaf| == |b.leaf| == |path| && start <= |path|
  {
    var anyEmpty := BitOr(a.empty, b.empty);
    var aDiff, bDiff, diff := Diff(a.leaf, path, start), Diff(b.leaf, path, start), Diff(a.leaf, b.leaf, start);
    var diffPreor := PreOr([anyEmpty] + diff);
    var diffFirst := Steps(diffPreor[1..], diffPreor[0]);
    var winner := BitXor(XorSum(Products(aDiff, diffFirst)), a.empty);
    var winnerBits := if winner == 1 then bDiff else aDiff;
    var levelBits := Steps(PreOr(winnerBits), 0);
    (OneHot(start, start) + levelBits + [BitXor(1, XorSum(levelBits))], winner)
  }

  lemma StepsAfterZero(s: seq<Bit>)
    ensures Steps(PreOr([0] + s)[1..], PreOr([0] + s)[0]) == OneHot(|s|, FirstOne(s))
  {
    var z: Bit := 0;
    hide *;
    PreOrAfterZero(s);
    StepsUpFrom(PreOr([z] + s), 1 + FirstOne(s));
  }

  lemma PreOrAfterZero(s: seq<Bit>)
    ensures forall k: nat :: k < |s| + 1 ==> PreOr([0] + s)[k] == if 1 + FirstOne(s) <= k then 1 else 0
  {
    var z: Bit := 0;
    assert FirstOne([z] + s) == 1 + FirstOne(s) by {
      assert ([z] + s)[1..] == s;
    }
    hide FirstOne;
  }

  /** Zeros before place `f` and ones from it on: the only step is at `f`. */
  lemma StepsUpFrom(p: seq<Bit>, f: nat)
    requires |p| > 0 && f > 0 && forall k: nat :: k < |p| ==> p[k] == if f <= k then 1 else 0
    ensures Steps(p[1..], p[0]) == OneHot(|p| - 1, f - 1)
  {
  }

  lemma OneHotConcat(m: nat, n: nat, k: nat)
    requires k <= n
    ensures OneHot(m, m) + OneHot(n, k) + [if k < n then 0 else 1] == OneHot(m + n + 1, m + k)
  {
  }

  lemma WinnerIs(a: Candidate, b: Candidate, path: seq<Bit>, start: nat)
    requires |a.leaf| == |b.leaf| == |path| && start <= |path|
    ensures var (aDiff, diff) := (Diff(a.leaf, path, start), Diff(a.leaf, b.leaf, start));
      FindDeeper(a, b, path, start).1 == 1 <==>
        a.empty == 1 || (b.empty == 0 && FirstOne(diff) < |diff| && aDiff[FirstOne(diff)] == 1)
  {
    hide XorSum, Products, Diff;
    var anyEmpty := BitOr(a.empty, b.empty);
    var aDiff, diff := Diff(a.leaf, path, start), Diff(a.leaf, b.leaf, start);
    var diffPreor := PreOr([anyEmpty] + diff);
    var diffFirst := Steps(diffPreor[1..], diffPreor[0]);
    if anyEmpty == 1 {
      assert FirstOne([anyEmpty] + diff) == 0;
      PickNone(aDiff, diffFirst);
    } else {
      StepsAfterZero(diff);
      PickOne(aDiff, FirstOne(diff));
    }
  }

  lemma LevelIs(n: nat, f: nat, start: nat)
    requires f <= n
    ensures OneHot(start, start) + OneHot(n, f) + [BitXor(1, XorSum(OneHot(n, f)))] == OneHot(start + n + 1, start + f)
  {
    hide XorSum, OneHot;
    XorSumOneHot(n, f);
    OneHotConcat(start, n, f);
  }

  /** The winner is a block if there is one, and no other block agrees with the path further; its level is right. */
  lemma DeeperWins(a: Candidate, b: Candidate, path: seq<Bit>, start: nat)
    requires |a.leaf| == |b.leaf| == |path| && start <= |path|
    ensures var (level, winner) := FindDeeper(a, b, path, start);
      var (w, l) := if winner == 1 then (b, a) else (a, b);
      && (w.empty == 1 ==> l.empty == 1)
      && (l.empty == 0 ==> Agree(l.leaf, path, start) <= Agree(w.leaf, path, start))
      && level == OneHot(|path| + 1, start + Agree(w.leaf, path, start))
  {
    WinnerGoesFurther(a, b, path, start);
    LevelOf(a, b, path, start);
    hide *;
  }

  lemma LevelOf(a: Candidate, b: Candidate, path: seq<Bit>, start: nat)
    requires |a.leaf| == |b.leaf| == |path| && start <= |path|
    ensures var (level, winner) := FindDeeper(a, b, path, start);
      level == OneHot(|path| + 1, start + Agree(if winner == 1 then b.leaf else a.leaf, path, start))
  {
    hide FirstOne, Diff, XorSum, PreOr, Steps, Products, OneHot;
    var winner := FindDeeper(a, b, path, start).1;
    var bits := Diff(if winner == 1 then b.leaf else a.leaf, path, start);
    StepsOfPreOr(bits);
    LevelIs(|bits|, FirstOne(bits), start);
  }

  lemma WinnerGoesFurther(a: Candidate, b: Candidate, path: seq<Bit>, start: nat)
    requires |a.leaf| == |b.leaf| == |path| && start <= |path|
    ensures var (w, l) := if FindDeeper(a, b, path, start).1 == 1 then (b, a) else (a, b);
      && (w.empty == 1 ==> l.empty == 1)
      && (l.empty == 0 ==> Agree(l.leaf, path, start) <= Agree(w.leaf, path, start))
  {
    WinnerIs(a, b, path, start);
    hide FindDeeper;
    NeitherEmpty(Diff(a.leaf, path, start), Diff(b.leaf, path, start), Diff(a.leaf, b.leaf, start));
  }

  lemma NeitherEmpty(aDiff: seq<Bit>, bDiff: seq<Bit>, diff: seq<Bit>)
    requires |aDiff| == |bDiff| == |diff| && forall k: nat :: k < |diff| ==> diff[k] == BitXor(aDiff[k], bDiff[k])
    ensures FirstOne(diff) < |diff| && aDiff[FirstOne(diff)] == 1 ==> FirstOne(aDiff) <= FirstOne(bDiff)
    ensures !(FirstOne(diff) < |diff| && aDiff[FirstOne(diff)] == 1) ==> FirstOne(bDiff) <= FirstOne(aDiff)
  {
  }

  ghost predicate Fit(paths: seq<Candidate>, path: seq<Bit>) {
    forall k: nat :: k < |paths| ==> |paths[k].leaf| == |path|
  }

  lemma HalvesFit(paths: seq<Candidate>, path: seq<Bit>, l: nat)
    requires l <= |paths| && Fit(paths, path)
    ensures Fit(paths[..l], path) && Fit(paths[l..], path)
  {
  }

  /** Lines 39-46: a deepest candidate of a bucket and its place; the place is a shifted 1 in the code. */
  function FindDeepest(paths: seq<Candidate>, path: seq<Bit>, start: nat): (r: (seq<Bit>, Candidate, nat))
    requires |paths| > 0 && start <= |path| && Fit(paths, path)
    ensures r.2 < |paths| && r.1 == paths[r.2] && |r.1.leaf| == |path|
  {
    if |paths| == 1 then ([], paths[0], 0)
    else
      var l := |paths| / 2;
      HalvesFit(paths, path, l);
      var (_, a, aIndex) := FindDeepest(paths[..l], path, start);
      var (_, b, bIndex) := FindDeepest(paths[l..], path, start);
      var (level, winner) := FindDeeper(a, b, path, start);
      (level, if winner == 1 then b else a, if winner == 1 then bIndex + l else aIndex)
  }

  /** No block among the candidates agrees with the path further than `w`, and `w` is a block if any is. */
  ghost predicate IsDeepest(paths: seq<Candidate>, w: Candidate, path: seq<Bit>, start: nat)
    requires Fit(paths, path) && |w.leaf| == |path| && start <= |path|
  {
    forall k: nat :: k < |paths| && paths[k].empty == 0 ==> w.empty == 0 && Agree(paths[k].leaf, path, start) <= Agree(w.leaf, path, start)
  }

  lemma {:induction false} DeepestWins(paths: seq<Candidate>, path: seq<Bit>, start: nat)
    requires |paths| > 0 && start <= |path| && Fit(paths, path)
    ensures |FindDeepest(paths, path, start).1.leaf| == |path|
    ensures IsDeepest(paths, FindDeepest(paths, path, start).1, path, start)
  {
    hide FindDeeper, Agree;
    if |paths| > 1 {
      var l := |paths| / 2;
      DeepestOfHalves(paths, path, start);
      DeepestWins(paths[..l], path, start);
      DeepestWins(paths[l..], path, start);
      var a, b := FindDeepest(paths[..l], path, start).1, FindDeepest(paths[l..], path, start).1;
      var w := FindDeepest(paths, path, start).1;
      hide FindDeepest;
      DeeperWins(a, b, path, start);
      CombineDeepest(paths, l, a, b, w, path, start);
    }
  }

  lemma CombineDeepest(paths: seq<Candidate>, l: nat, a: Candidate, b: Candidate, w: Candidate, path: seq<Bit>, start: nat)
    requires l <= |paths| && start <= |path| && |a.leaf| == |b.leaf| == |w.leaf| == |path|
    requires Fit(paths[..l], path) && Fit(paths[l..], path) && Fit(paths, path)
    requires IsDeepest(paths[..l], a, path, start) && IsDeepest(paths[l..], b, path, start)
    requires forall c :: c in {a, b} && c.empty == 0 ==> w.empty == 0 && |c.leaf| == |path| && Agree(c.leaf, path, start) <= Agree(w.leaf, path, start)
    ensures IsDeepest(paths, w, path, start)
  {
    hide Agree;
    forall k: nat | k < |paths| && paths[k].empty == 0
      ensures w.empty == 0 && Agree(paths[k].leaf, path, start) <= Agree(w.leaf, path, start) {
      if k < l {
        assert paths[k] == paths[..l][k];
        assert a in {a, b};
      } else {
        assert paths[k] == paths[l..][k - l];
        assert b in {a, b};
      }
    }
  }

  /** The level found with a deepest candidate is its own. */
  lemma DeepestLevel(paths: seq<Candidate>, path: seq<Bit>, start: nat)
    requires |paths| > 1 && start <= |path| && Fit(paths, path)
    ensures |FindDeepest(paths, path, start).1.leaf| == |path|
    ensures FindDeepest(paths, path, start).0 == OneHot(|path| + 1, start + Agree(FindDeepest(paths, path, start).1.leaf, path, start))
  {
    hide FindDeeper, Agree, FindDeepest, OneHot;
    var l := |paths| / 2;
    DeepestOfHalves(paths, path, start);
    LevelOf(FindDeepest(paths[..l], path, start).1, FindDeepest(paths[l..], path, start).1, path, start);
  }

  lemma DeepestOfHalves(paths: seq<Candidate>, path: seq<Bit>, start: nat)
    requires |paths| > 1 && start <= |path| && Fit(paths, path)
    ensures var l := |paths| / 2;
      Fit(paths[..l], path) && Fit(paths[l..], path)
    ensures var l := |paths| / 2;
      var (a, b) := (FindDeepest(paths[..l], path, start).1, FindDeepest(paths[l..], path, start).1);
      && |a.leaf| == |b.leaf| == |path| && |FindDeepest(paths, path, start).1.leaf| == |path|
      && FindDeepest(paths, path, start).0 == FindDeeper(a, b, path, start).0
      && FindDeepest(paths, path, start).1 == if FindDeeper(a, b, path, start).1 == 1 then b else a
  {
    hide FindDeeper;
    var l := |paths| / 2;
    assert Fit(paths[..l], path) && Fit(paths[l..], path);
  }

  // ----- levels as numbers -----

  /** Lines 82-83, on a one-hot list: the sum of place + 1, in the width that holds it. */
  function WeightedSum(l: seq<Bit>, from: nat): nat {
    if l == [] then 0 else l[0] as nat * (from + 1) + WeightedSum(l[1..], from + 1)
  }

  lemma {:induction false} WeightedOneHot(n: nat, k: nat, from: nat)
    ensures WeightedSum(OneHot(n, k), from) == if k < n then from + k + 1 else 0
    decreases n
  {
    if n > 0 {
      if k > 0 {
        assert OneHot(n, k)[1..] == OneHot(n - 1, k - 1);
        WeightedOneHot(n - 1, k - 1, from + 1);
      } else {
        assert OneHot(n, k)[1..] == OneHot(n - 1, n);
        WeightedOneHot(n - 1, n, from + 1);
      }
    }
  }
}
