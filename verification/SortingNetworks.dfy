/** Compiler/library.py:689-746: Batcher's odd-even merge sort, recursive on lists of power-of-two length. */
module SortingNetworks {
  import opened Powers

  /** An element with its sort key, or a place past the end of the array, which acts as plus infinity. */
  datatype Cell = Item(key: int, value: int) | Outside

  predicate Le(x: Cell, y: Cell) {
    y.Outside? || (x.Item? && x.key <= y.key)
  }

  /** Compiler/library.py:689-706: the one that a conditional swap puts first; equal keys stay in place. */
  function Lower(x: Cell, y: Cell): Cell {
    if Le(x, y) then x else y
  }

  function Higher(x: Cell, y: Cell): Cell {
    if Le(x, y) then y else x
  }

  ghost predicate Sorted(s: seq<Cell>) {
    forall i: nat, j: nat :: i < j < |s| ==> Le(s[i], s[j])
  }

  ghost predicate IsPow2(n: nat) {
    exists e: nat :: n == Pow2(e)
  }

  // ----- counting -----

  /** How many cells are at most `t`. */
  ghost function Count(s: seq<Cell>, t: Cell): (c: nat)
    ensures c <= |s|
  {
    if s == [] then 0 else Count(s[..|s| - 1], t) + if Le(s[|s| - 1], t) then 1 else 0
  }

  lemma {:induction false} CountConcat(a: seq<Cell>, b: seq<Cell>, t: Cell)
    ensures Count(a + b, t) == Count(a, t) + Count(b, t)
  {
    if b == [] {
      assert a + b == a;
    } else {
      var last := |b| - 1;
      assert (a + b)[..|a + b| - 1] == a + b[..last];
      CountConcat(a, b[..last], t);
    }
  }

  lemma CountSnoc(s: seq<Cell>, x: Cell, t: Cell)
    ensures Count(s + [x], t) == Count(s, t) + if Le(x, t) then 1 else 0
  {
    assert (s + [x])[..|s|] == s;
  }

  lemma {:induction false} CountOfPermutation(a: seq<Cell>, b: seq<Cell>, t: Cell)
    requires multiset(a) == multiset(b)
    ensures Count(a, t) == Count(b, t)
    decreases |a|
  {
    hide Count, Le;
    if a == [] {
      assert |multiset(b)| == 0;
    } else {
      var last := |a| - 1;
      assert a == a[..last] + [a[last]];
      assert a[last] in multiset(b);
      var j: nat :| j < |b| && b[j] == a[last];
      var front, back := b[..j], b[j + 1..];
      assert b == (front + [b[j]]) + back;
      assert multiset(b) == multiset(front) + multiset{b[j]} + multiset(back);
      assert multiset(a) == multiset(a[..last]) + multiset{a[last]};
      var x, y, z := multiset(a[..last]), multiset(front + back), multiset{b[j]};
      assert x + z == y + z;
      assert x == (x + z) - z && y == (y + z) - z;
      CountOfPermutation(a[..last], front + back, t);
      CountConcat(front, back, t);
      CountConcat(front + [b[j]], back, t);
      CountSnoc(front, b[j], t);
      CountSnoc(a[..last], a[last], t);
    }
  }

  /** In a sorted list the cells at most `t` come first. */
  lemma {:induction false} CountInSorted(s: seq<Cell>, t: Cell, i: nat)
    requires Sorted(s) && i < |s|
    ensures Le(s[i], t) <==> i < Count(s, t)
  {
    var last := |s| - 1;
    if i < last {
      CountInSorted(s[..last], t, i);
      if Le(s[last], t) {
        assert Le(s[i], s[last]);
        AllCounted(s, t);
      }
    } else if Le(s[last], t) {
      AllCounted(s, t);
    }
  }

  lemma {:induction false} AllCounted(s: seq<Cell>, t: Cell)
    requires Sorted(s) && s != [] && Le(s[|s| - 1], t)
    ensures Count(s, t) == |s|
  {
    if |s| > 1 {
      assert Le(s[|s| - 2], s[|s| - 1]);
      AllCounted(s[..|s| - 1], t);
    }
  }

  // ----- even and odd places -----

  function Evens(s: seq<Cell>): (r: seq<Cell>)
    ensures |r| == (|s| + 1) / 2 && forall i: nat :: i < |r| ==> r[i] == s[2 * i]
  {
    seq((|s| + 1) / 2, i requires 0 <= i < (|s| + 1) / 2 => s[2 * i])
  }

  function Odds(s: seq<Cell>): (r: seq<Cell>)
    ensures |r| == |s| / 2 && forall i: nat :: i < |r| ==> r[i] == s[2 * i + 1]
  {
    seq(|s| / 2, i requires 0 <= i < |s| / 2 => s[2 * i + 1])
  }

  /** The even places hold at most two more cells below any bound than the odd places, and no fewer. */
  ghost predicate Balanced(even: seq<Cell>, odd: seq<Cell>) {
    forall t: Cell :: Count(odd, t) <= Count(even, t) <= Count(odd, t) + 2
  }

  lemma {:induction false} SortedIsBalanced(s: seq<Cell>, t: Cell)
    requires Sorted(s) && |s| % 2 == 0
    ensures Count(Odds(s), t) <= Count(Evens(s), t) <= Count(Odds(s), t) + 1
    ensures s != [] && Le(s[|s| - 1], t) ==> Count(Odds(s), t) == Count(Evens(s), t)
  {
    hide Count, Le;
    if s == [] {
      assert Evens(s) == [] && Odds(s) == [];
    } else {
      var n := |s| - 2;
      var front := s[..n];
      SortedIsBalanced(front, t);
      TwoMore(s);
      CountSnoc(Evens(front), s[n], t);
      CountSnoc(Odds(front), s[n + 1], t);
      BelowToo(s[n], s[n + 1], t);
      if n > 0 {
        assert Le(s[n - 1], s[n]);
        BelowToo(s[n - 1], s[n], t);
      }
    }
  }

  lemma TwoMore(s: seq<Cell>)
    requires |s| >= 2 && |s| % 2 == 0
    ensures Evens(s) == Evens(s[..|s| - 2]) + [s[|s| - 2]] && Odds(s) == Odds(s[..|s| - 2]) + [s[|s| - 1]]
  {
  }

  lemma BelowToo(x: Cell, y: Cell, t: Cell)
    ensures Le(x, y) && Le(y, t) ==> Le(x, t)
  {
  }

  lemma HalvesAreBalanced(s: seq<Cell>)
    requires |s| % 4 == 0 && Sorted(s[..|s| / 2]) && Sorted(s[|s| / 2..])
    ensures Balanced(Evens(s), Odds(s))
  {
    hide Count, Sorted;
    var h := |s| / 2;
    TwoHalves(s, h);
    forall t: Cell ensures Count(Odds(s), t) <= Count(Evens(s), t) <= Count(Odds(s), t) + 2 {
      SortedIsBalanced(s[..h], t);
      SortedIsBalanced(s[h..], t);
      CountConcat(Evens(s[..h]), Evens(s[h..]), t);
      CountConcat(Odds(s[..h]), Odds(s[h..]), t);
    }
  }

  lemma TwoHalves(s: seq<Cell>, h: nat)
    requires h <= |s| && h % 2 == 0
    ensures Evens(s) == Evens(s[..h]) + Evens(s[h..]) && Odds(s) == Odds(s[..h]) + Odds(s[h..])
  {
    var k := h / 2;
    assert h == 2 * k && |Evens(s[..h])| == k && |Odds(s[..h])| == k;
    assert forall i: nat :: i < |Evens(s[h..])| ==> Evens(s[h..])[i] == s[2 * (i + k)];
    assert forall i: nat :: i < |Odds(s[h..])| ==> Odds(s[h..])[i] == s[2 * (i + k) + 1];
  }

  // ----- one step of the network on one chain -----

  predicate IsLow(k: nat, t: nat) {
    if k == 2 then t == 0 else t % 2 == 1 && t + 1 < k
  }

  predicate IsHigh(k: nat, t: nat) {
    if k == 2 then t == 1 else t % 2 == 0 && t > 0
  }

  /** Compares 0 with 1 in a chain of two, and 1 with 2, 3 with 4 and so on in a longer one. */
  function Pairs(c: seq<Cell>): (r: seq<Cell>)
    requires |c| % 2 == 0
    ensures |r| == |c|
  {
    seq(|c|, t requires 0 <= t < |c| =>
      if IsLow(|c|, t) then Lower(c[t], c[t + 1])
      else if IsHigh(|c|, t) then Higher(c[t - 1], c[t])
      else c[t])
  }

  /** Merged even places stay close to merged odd places, so one step finishes the merge. */
  lemma StepSorts(c: seq<Cell>)
    requires |c| % 2 == 0 && (|c| > 2 ==> Sorted(Evens(c)) && Sorted(Odds(c)) && Balanced(Evens(c), Odds(c)))
    ensures Sorted(Pairs(c))
  {
    hide Sorted, Balanced, Pairs, Le;
    var r := Pairs(c);
    forall t: nat | t + 1 < |c| ensures Le(r[t], r[t + 1]) {
      if |c| > 2 && t % 2 == 0 {
        var e, o := Evens(c), Odds(c);
        Neighbours(e, o, t / 2);
        if t > 0 {
          Neighbours(e, o, t / 2 - 1);
          AfterPair(c, t);
        } else {
          FirstPair(c);
        }
      } else {
        InPair(c, t);
      }
    }
    NeighboursSorted(r);
  }

  lemma InPair(c: seq<Cell>, t: nat)
    requires |c| % 2 == 0 && t + 1 < |c| && (|c| == 2 || t % 2 == 1)
    ensures Le(Pairs(c)[t], Pairs(c)[t + 1])
  {
  }

  lemma FirstPair(c: seq<Cell>)
    requires |c| % 2 == 0 && |c| > 2 && Le(c[0], c[1]) && Le(c[0], c[2])
    ensures Le(Pairs(c)[0], Pairs(c)[1])
  {
  }

  lemma AfterPair(c: seq<Cell>, t: nat)
    requires |c| % 2 == 0 && |c| > 2 && 0 < t < |c| && t % 2 == 0
    requires Le(c[t - 1], c[t + 1]) && Le(c[t], c[t + 1])
    requires t + 2 < |c| ==> Le(c[t - 1], c[t + 2]) && Le(c[t], c[t + 2])
    ensures Le(Pairs(c)[t], Pairs(c)[t + 1])
  {
  }

  lemma Neighbours(e: seq<Cell>, o: seq<Cell>, i: nat)
    requires |e| == |o| && i < |e| && Sorted(e) && Sorted(o) && Balanced(e, o)
    ensures Le(e[i], o[i])
    ensures i + 1 < |e| ==> Le(e[i], e[i + 1]) && Le(o[i], o[i + 1])
    ensures i + 2 < |e| ==> Le(o[i], e[i + 2])
  {
    CountInSorted(o, o[i], i);
    CountInSorted(e, o[i], i);
    assert Count(o, o[i]) <= Count(e, o[i]);
    if i + 2 < |e| {
      CountInSorted(e, e[i + 2], i + 2);
      CountInSorted(o, e[i + 2], i);
      assert Count(e, e[i + 2]) <= Count(o, e[i + 2]) + 2;
    }
  }

  lemma {:induction false} NeighboursSorted(r: seq<Cell>)
    requires forall t: nat :: t + 1 < |r| ==> Le(r[t], r[t + 1])
    ensures Sorted(r)
  {
    if |r| > 1 {
      var last := |r| - 1;
      NeighboursSorted(r[..last]);
      forall i: nat | i < last ensures Le(r[i], r[last]) {
        assert Le(r[last - 1], r[last - 1 + 1]);
        assert i < last - 1 ==> Le(r[..last][i], r[..last][last - 1]);
      }
    }
  }

  /** Compares 0 with 1, 2 with 3 and so on. */
  ghost function PairUp(s: seq<Cell>): (r: seq<Cell>)
    requires |s| % 2 == 0
    ensures |r| == |s|
  {
    if s == [] then [] else [Lower(s[0], s[1]), Higher(s[0], s[1])] + PairUp(s[2..])
  }

  lemma {:induction false} PairUpAt(s: seq<Cell>, t: nat)
    requires |s| % 2 == 0 && t < |s|
    ensures PairUp(s)[t] == if t % 2 == 0 then Lower(s[t], s[t + 1]) else Higher(s[t - 1], s[t])
  {
    if t >= 2 {
      PairUpAt(s[2..], t - 2);
    }
  }

  lemma {:induction false} PairUpPermutes(s: seq<Cell>)
    requires |s| % 2 == 0
    ensures multiset(PairUp(s)) == multiset(s)
  {
    if s != [] {
      PairUpPermutes(s[2..]);
      assert s == [s[0], s[1]] + s[2..];
    }
  }

  lemma PairsPermutes(c: seq<Cell>)
    requires |c| % 2 == 0
    ensures multiset(Pairs(c)) == multiset(c)
  {
    hide Pairs, PairUp;
    if |c| == 2 {
      PairUpPermutes(c);
      OnePair(c);
    } else if |c| > 2 {
      var inner := c[1..|c| - 1];
      PairUpPermutes(inner);
      PairsInside(c);
      assert c == [c[0]] + inner + [c[|c| - 1]];
    } else {
      assert Pairs(c) == [] && c == [];
    }
  }

  lemma OnePair(c: seq<Cell>)
    requires |c| == 2
    ensures Pairs(c) == PairUp(c)
  {
  }

  lemma PairsInside(c: seq<Cell>)
    requires |c| % 2 == 0 && |c| > 2
    ensures Pairs(c) == [c[0]] + PairUp(c[1..|c| - 1]) + [c[|c| - 1]]
  {
    hide Pairs, PairUp, Lower, Higher;
    var inner := c[1..|c| - 1];
    var r := [c[0]] + PairUp(inner) + [c[|c| - 1]];
    PairsEnds(c);
    forall t: nat | t < |c| ensures Pairs(c)[t] == r[t] {
      if 0 < t < |c| - 1 {
        PairUpAt(inner, t - 1);
        PairAt(c, (t + 1) / 2);
      }
    }
  }

  lemma PairsEnds(c: seq<Cell>)
    requires |c| % 2 == 0 && |c| > 2
    ensures Pairs(c)[0] == c[0] && Pairs(c)[|c| - 1] == c[|c| - 1]
  {
  }

  // ----- the recursive form -----

  function Interleave(even: seq<Cell>, odd: seq<Cell>): (c: seq<Cell>)
    requires |even| == |odd|
    ensures |c| == 2 * |even| && |c| % 2 == 0
  {
    seq(2 * |even|, t requires 0 <= t < 2 * |even| => if t % 2 == 0 then even[t / 2] else odd[t / 2])
  }

  lemma InterleaveParts(even: seq<Cell>, odd: seq<Cell>)
    requires |even| == |odd|
    ensures Evens(Interleave(even, odd)) == even && Odds(Interleave(even, odd)) == odd
  {
  }

  lemma {:induction false} PartsPermute(c: seq<Cell>)
    requires |c| % 2 == 0
    ensures multiset(c) == multiset(Evens(c)) + multiset(Odds(c))
  {
    if c == [] {
      assert Evens(c) == [] && Odds(c) == [];
    } else {
      var n := |c| - 2;
      PartsPermute(c[..n]);
      TwoMore(c);
      assert c == c[..n] + [c[n]] + [c[n + 1]];
    }
  }

  /** Merging the even and the odd places and then comparing neighbours merges the whole. */
  lemma MergeIsCorrect(s: seq<Cell>, even: seq<Cell>, odd: seq<Cell>)
    requires |s| % 4 == 0 && Sorted(s[..|s| / 2]) && Sorted(s[|s| / 2..])
    requires |even| == |odd| == |s| / 2 && Sorted(even) && Sorted(odd)
    requires multiset(even) == multiset(Evens(s)) && multiset(odd) == multiset(Odds(s))
    ensures Sorted(Pairs(Interleave(even, odd))) && multiset(Pairs(Interleave(even, odd))) == multiset(s)
  {
    hide Sorted, Pairs, Evens, Odds, Count, Interleave;
    var c := Interleave(even, odd);
    HalvesAreBalanced(s);
    InterleaveParts(even, odd);
    forall t: Cell ensures Count(odd, t) <= Count(even, t) <= Count(odd, t) + 2 {
      CountOfPermutation(even, Evens(s), t);
      CountOfPermutation(odd, Odds(s), t);
      assert Count(Odds(s), t) <= Count(Evens(s), t);
    }
    StepSorts(c);
    PairsPermutes(c);
    PartsPermute(c);
    PartsPermute(s);
  }

  lemma SortedParts(s: seq<Cell>)
    requires |s| % 4 == 0 && Sorted(s[..|s| / 2]) && Sorted(s[|s| / 2..])
    ensures Sorted(Evens(s)[..|s| / 4]) && Sorted(Evens(s)[|s| / 4..]) && Sorted(Odds(s)[..|s| / 4]) && Sorted(Odds(s)[|s| / 4..])
  {
    var h := |s| / 2;
    TwoHalves(s, h);
    PartsOfSorted(s[..h]);
    PartsOfSorted(s[h..]);
    var q := |s| / 4;
    assert |Evens(s[..h])| == |Odds(s[..h])| == q;
    hide Sorted, Evens, Odds;
    assert Evens(s)[..q] == Evens(s[..h]) && Evens(s)[q..] == Evens(s[h..]);
    assert Odds(s)[..q] == Odds(s[..h]) && Odds(s)[q..] == Odds(s[h..]);
  }

  lemma PartsOfSorted(s: seq<Cell>)
    requires Sorted(s)
    ensures Sorted(Evens(s)) && Sorted(Odds(s))
  {
    hide Le;
  }

  method FromSeq(s: seq<Cell>) returns (a: array<Cell>)
    ensures fresh(a) && a[..] == s
  {
    a := new Cell[|s|](i requires 0 <= i < |s| => s[i]);
  }

  lemma FourParts(e: nat)
    requires e > 0 && Pow2(e) != 2
    ensures e > 1 && Pow2(e) % 4 == 0 && Pow2(e) == 2 * (Pow2(e) / 2) && (Pow2(e) + 1) / 2 == Pow2(e) / 2 > 1
  {
    assert Pow2(1) == 2;
    assert Pow2(e) == 2 * Pow2(e - 1) && Pow2(e - 1) == 2 * Pow2(e - 2);
    Quarters(Pow2(e - 2), Pow2(e));
  }

  lemma Quarters(q: nat, n: nat)
    requires n == 4 * q && q > 0
    ensures n % 4 == 0 && n == 2 * (n / 2) && (n + 1) / 2 == n / 2 > 1
  {
    DivUnique(n, 4, q, 0);
    DivUnique(n, 2, 2 * q, 0);
    DivUnique(n + 1, 2, 2 * q, 1);
  }

  /** Lines 719-730 */
  method OddEvenMerge(a: array<Cell>, ghost e: nat)
    requires a.Length == Pow2(e) && e > 0 && Sorted(a[..a.Length / 2]) && Sorted(a[a.Length / 2..])
    modifies a
    ensures Sorted(a[..]) && multiset(a[..]) == multiset(old(a[..]))
    decreases e
  {
    hide Sorted, Pairs, Evens, Odds, Lower, Higher, Interleave, Pow2;
    ghost var s := a[..];
    if a.Length == 2 {
      a[0], a[1] := Lower(a[0], a[1]), Higher(a[0], a[1]);
      PairsOfTwo(s, a[..]);
    } else {
      FourParts(e);
      assert s[..a.Length / 2] == a[..a.Length / 2] && s[a.Length / 2..] == a[a.Length / 2..];
      SortedParts(s);
      var even := FromSeq(Evens(a[..]));
      var odd := FromSeq(Odds(a[..]));
      MergeParts(even, odd, s, e);
      CompareNeighbours(a, even, odd);
      MergeIsCorrect(s, even[..], odd[..]);
    }
  }

  method MergeParts(even: array<Cell>, odd: array<Cell>, ghost s: seq<Cell>, ghost e: nat)
    requires e > 1 && |s| == Pow2(e) && even != odd && even[..] == Evens(s) && odd[..] == Odds(s)
    requires Sorted(Evens(s)[..|s| / 4]) && Sorted(Evens(s)[|s| / 4..]) && Sorted(Odds(s)[..|s| / 4]) && Sorted(Odds(s)[|s| / 4..])
    modifies even, odd
    ensures Sorted(even[..]) && multiset(even[..]) == multiset(Evens(s))
    ensures Sorted(odd[..]) && multiset(odd[..]) == multiset(Odds(s))
    decreases e, 0
  {
    hide Sorted, Evens, Odds;
    var h := even.Length;
    assert h == odd.Length == Pow2(e - 1) && h / 2 == |s| / 4;
    assert even[..h / 2] == Evens(s)[..|s| / 4] && even[h / 2..] == Evens(s)[|s| / 4..];
    OddEvenMerge(even, e - 1);
    assert odd[..h / 2] == Odds(s)[..|s| / 4] && odd[h / 2..] == Odds(s)[|s| / 4..];
    OddEvenMerge(odd, e - 1);
  }

  /** Lines 727-730 */
  method CompareNeighbours(a: array<Cell>, even: array<Cell>, odd: array<Cell>)
    requires a != even && a != odd && even.Length == odd.Length > 1 && a.Length == 2 * even.Length
    modifies a
    ensures a[..] == Pairs(Interleave(even[..], odd[..]))
  {
    hide Pairs, Lower, Higher;
    ghost var c := Interleave(even[..], odd[..]);
    var n := a.Length;
    PairsEnds(c);
    a[0] := even[0];
    for i := 1 to n / 2
      invariant forall t: nat :: t < 2 * i - 1 ==> a[t] == Pairs(c)[t]
    {
      PairAt(c, i);
      a[2 * i - 1], a[2 * i] := Lower(odd[i - 1], even[i]), Higher(odd[i - 1], even[i]);
    }
    a[n - 1] := odd[odd.Length - 1];
  }

  /** Lines 732-746: sorts lists of power-of-two length and refuses others before it changes anything. */
  method OddEvenMergeSort(a: array<Cell>) returns (ok: bool)
    requires a.Length > 0
    modifies a
    ensures ok <==> IsPow2(a.Length)
    ensures ok ==> Sorted(a[..]) && multiset(a[..]) == multiset(old(a[..]))
    ensures !ok ==> a[..] == old(a[..])
    decreases a.Length
  {
    hide Sorted, Pow2, IsPow2, Lower, Higher;
    var n := a.Length;
    if n == 1 {
      OneIsSorted(a[..]);
      return true;
    } else if n % 2 != 0 {
      OddIsNotPow2(n);
      return false;
    }
    HalfOfPow2(n);
    var lower := FromSeq(a[..n / 2]);
    var upper := FromSeq(a[n / 2..]);
    ok := OddEvenMergeSort(lower);
    if !ok {
      return;
    }
    ok := OddEvenMergeSort(upper);
    assert a[..] == a[..n / 2] + a[n / 2..];
    ghost var e := Exponent(n);
    var all := FromSeq(lower[..] + upper[..]);
    assert multiset(all[..]) == multiset(old(a[..]));
    assert all[..n / 2] == lower[..] && all[n / 2..] == upper[..];
    OddEvenMerge(all, e);
    CopyTo(all, a);
  }

  /** Line 744 */
  method CopyTo(from: array<Cell>, to: array<Cell>)
    requires from != to && from.Length == to.Length
    modifies to
    ensures to[..] == from[..]
  {
    for i := 0 to to.Length
      invariant to[..i] == from[..i]
    {
      to[i] := from[i];
    }
  }

  lemma OneIsSorted(s: seq<Cell>)
    requires |s| == 1
    ensures Sorted(s) && IsPow2(1)
  {
    assert Pow2(0) == 1;
  }

  lemma OddIsNotPow2(n: nat)
    requires n > 1 && n % 2 == 1
    ensures !IsPow2(n)
  {
  }

  lemma Exponent(n: nat) returns (e: nat)
    requires n > 1 && IsPow2(n)
    ensures n == Pow2(e) && e > 0
  {
    e :| n == Pow2(e);
  }

  lemma HalfOfPow2(n: nat)
    requires n > 1 && n % 2 == 0
    ensures IsPow2(n) <==> IsPow2(n / 2)
  {
    if IsPow2(n) {
      var e: nat :| n == Pow2(e);
      assert n / 2 == Pow2(e - 1);
    }
    if IsPow2(n / 2) {
      var e: nat :| n / 2 == Pow2(e);
      assert n == Pow2(e + 1);
    }
  }

  lemma PairAt(c: seq<Cell>, i: nat)
    requires |c| % 2 == 0 && |c| > 2 && 0 < i < |c| / 2
    ensures Pairs(c)[2 * i - 1] == Lower(c[2 * i - 1], c[2 * i]) && Pairs(c)[2 * i] == Higher(c[2 * i - 1], c[2 * i])
  {
  }

  lemma PairsOfTwo(s: seq<Cell>, r: seq<Cell>)
    requires |s| == 2 && r == [Lower(s[0], s[1]), Higher(s[0], s[1])]
    ensures Sorted(r) && multiset(r) == multiset(s)
  {
    assert s == [s[0], s[1]];
  }
}
