/** Compiler/decision_tree.py:189-230, 355-399: how the marks `g` and the node ids `NID` of the training rows stay in step
    while every layer splits the nodes and sorts the rows. */
module NodeGroups {
  import opened Powers
  import opened Bits
  import opened FiniteSets
  import opened GroupVectors

  /** `g` marks the first row of every node, and the rows of a node are adjacent. */
  ghost predicate Marks(g: seq<Bit>, ids: seq<int>) {
    |g| == |ids| > 0 && FirstRows(g, ids) && Adjacent(ids)
  }

  ghost predicate FirstRows(g: seq<Bit>, ids: seq<int>) {
    |g| == |ids| && forall r: nat :: r < |g| ==> (g[r] == 1 <==> IsNew(ids, r))
  }

  ghost predicate IsNew(ids: seq<int>, r: nat)
    requires r < |ids|
  {
    forall i: nat :: i < r ==> ids[i] != ids[r]
  }

  ghost predicate Adjacent(ids: seq<int>) {
    forall i: nat, l: nat, j: nat :: i <= l <= j < |ids| && ids[i] == ids[j] ==> ids[l] == ids[i]
  }

  lemma AreAdjacent(ids: seq<int>, i: nat, l: nat, j: nat)
    requires Adjacent(ids) && i <= l <= j < |ids| && ids[i] == ids[j]
    ensures ids[l] == ids[i]
  {
  }

  lemma MarkAt(g: seq<Bit>, ids: seq<int>, r: nat)
    requires FirstRows(g, ids) && r < |g|
    ensures g[r] == 1 <==> IsNew(ids, r)
  {
  }

  lemma MarksGroup(g: seq<Bit>, ids: seq<int>)
    requires Marks(g, ids)
    ensures Grouped(g) && |g| == |ids| && FirstRows(g, ids) && Adjacent(ids)
  {
    assert IsNew(ids, 0);
  }

  lemma {:induction false} IdOfFirst(g: seq<Bit>, ids: seq<int>, r: nat)
    requires Marks(g, ids) && Grouped(g) && r < |g|
    ensures ids[First(g, r)] == ids[r]
  {
    hide Adjacent, FirstRows;
    if g[r] != 1 {
      MarkAt(g, ids, r);
      var i: nat :| i < r && ids[i] == ids[r];
      AreAdjacent(ids, i, r - 1, r);
      IdOfFirst(g, ids, r - 1);
    }
  }

  lemma SameIdSameFirst(g: seq<Bit>, ids: seq<int>, i: nat, j: nat)
    requires Marks(g, ids) && Grouped(g) && i <= j < |g| && ids[i] == ids[j]
    ensures First(g, i) == First(g, j)
  {
    hide Adjacent, FirstRows;
    forall l: nat | First(g, i) < l <= j ensures g[l] == 0 {
      if l > i {
        AreAdjacent(ids, i, l, j);
        MarkAt(g, ids, l);
      }
    }
    FirstIs(g, First(g, i), j);
  }

  /** Two rows are at the same node exactly when they are in the same group. */
  lemma SameNode(g: seq<Bit>, ids: seq<int>, i: nat, j: nat)
    requires Marks(g, ids) && i < |g| && j < |g|
    ensures Grouped(g) && |ids| == |g|
    ensures ids[i] == ids[j] <==> First(g, i) == First(g, j)
  {
    hide *;
    MarksGroup(g, ids);
    GroupedHere(g);
    IdOfFirst(g, ids, i);
    IdOfFirst(g, ids, j);
    if ids[i] == ids[j] && i <= j {
      SameIdSameFirst(g, ids, i, j);
    } else if ids[i] == ids[j] {
      SameIdSameFirst(g, ids, j, i);
    }
  }

  lemma InGroup(g: seq<Bit>, r: nat, i: nat)
    requires Grouped(g) && r < |g| && i < |g|
    ensures First(g, i) == First(g, r) <==> First(g, r) <= i < End(g, r)
  {
    if First(g, r) <= i < End(g, r) {
      FirstIs(g, First(g, r), i);
    }
  }

  /** A group is exactly the rows of one node. */
  lemma GroupIsNode(g: seq<Bit>, ids: seq<int>, r: nat, i: nat)
    requires Marks(g, ids) && r < |g| && i < |g|
    ensures Grouped(g) && |ids| == |g|
    ensures First(g, r) <= i < End(g, r) <==> ids[i] == ids[r]
  {
    hide *;
    SameNode(g, ids, i, r);
    GroupedHere(g);
    InGroup(g, r, i);
  }

  // ----- splitting all nodes -----

  ghost predicate InLayer(ids: seq<int>, k: nat) {
    forall r: nat :: r < |ids| ==> 1 <= ids[r] <= Pow2(k)
  }

  /** Line 392: a row whose test holds moves to the second child. */
  function Split(ids: seq<int>, b: seq<Bit>, k: nat): (s: seq<int>)
    requires |b| == |ids|
    ensures |s| == |ids|
  {
    seq(|ids|, r requires 0 <= r < |ids| => if b[r] == 1 then ids[r] + Pow2(k) else ids[r])
  }

  lemma SplitAt(ids: seq<int>, b: seq<Bit>, k: nat, r: nat)
    requires |b| == |ids| && r < |ids|
    ensures Split(ids, b, k)[r] == if b[r] == 1 then ids[r] + Pow2(k) else ids[r]
  {
  }

  lemma SplitInLayer(ids: seq<int>, b: seq<Bit>, k: nat)
    requires |b| == |ids| && InLayer(ids, k)
    ensures InLayer(Split(ids, b, k), k + 1)
  {
  }

  /** Rows stay together exactly when they were together and agree on the test. */
  lemma SplitSame(ids: seq<int>, b: seq<Bit>, k: nat, i: nat, j: nat)
    requires |b| == |ids| && InLayer(ids, k) && i < |ids| && j < |ids|
    ensures Split(ids, b, k)[i] == Split(ids, b, k)[j] <==> ids[i] == ids[j] && b[i] == b[j]
  {
  }

  function Either(a: Bit, b: Bit): Bit
    requires !(a == 1 && b == 1)
  {
    if a == 1 then 1 else b
  }

  lemma OnlyOne(g: seq<Bit>, b: seq<Bit>, r: nat)
    requires |b| == |g| && r < |g|
    ensures !(GroupFirstOne(g, Nots(b))[r] == 1 && GroupFirstOne(g, b)[r] == 1)
  {
    hide GroupPrefixSum;
  }

  /** Line 396 */
  function NewMarks(g: seq<Bit>, b: seq<Bit>): (n: seq<Bit>)
    requires |b| == |g|
    ensures |n| == |g|
  {
    seq<Bit>(|g|, r requires 0 <= r < |g| =>
      (OnlyOne(g, b, r); Either(GroupFirstOne(g, Nots(b))[r], GroupFirstOne(g, b)[r])))
  }

  lemma NewMarkAt(g: seq<Bit>, b: seq<Bit>, r: nat)
    requires Grouped(g) && |b| == |g| && r < |g|
    ensures NewMarks(g, b)[r] == 1 <==> forall i: nat :: First(g, r) <= i < r ==> b[i] != b[r]
  {
    hide GroupFirstOne, First;
    GroupFirstOneIsFirst(g, Nots(b), r);
    GroupFirstOneIsFirst(g, b, r);
    OnlyOne(g, b, r);
    if b[r] == 1 {
      assert GroupFirstOne(g, Nots(b))[r] != 1;
    } else {
      assert GroupFirstOne(g, b)[r] != 1;
      assert forall i: nat :: i < r ==> (b[i] != b[r] <==> Nots(b)[i] == 0);
    }
  }

  /** The new marks are on the first row of every child node. */
  lemma NewMarksAreFirst(g: seq<Bit>, ids: seq<int>, b: seq<Bit>, k: nat)
    requires Marks(g, ids) && |b| == |ids| && InLayer(ids, k)
    ensures |NewMarks(g, b)| == |g| == |ids| && FirstRows(NewMarks(g, b), Split(ids, b, k))
  {
    hide First, End, NewMarks, Split, Adjacent, Marks, InLayer;
    MarksGroup(g, ids);
    var s := Split(ids, b, k);
    forall r: nat | r < |g| ensures NewMarks(g, b)[r] == 1 <==> IsNew(s, r) {
      NewMarkAt(g, b, r);
      forall i: nat | i < r ensures (s[i] == s[r] <==> First(g, r) <= i && b[i] == b[r]) {
        SplitSame(ids, b, k, i, r);
        GroupIsNode(g, ids, r, i);
      }
    }
  }

  // ----- sorting the rows by the test -----

  lemma OrderIsStable(b: seq<Bit>, i: nat, j: nat)
    requires i < j < |b|
    ensures Order(b)[i] < |b| && Order(b)[j] < |b| && b[Order(b)[i]] <= b[Order(b)[j]]
    ensures b[Order(b)[i]] == b[Order(b)[j]] ==> Order(b)[i] < Order(b)[j]
  {
    WhereIsAscending(b, 0, |b|);
    WhereIsAscending(b, 1, |b|);
    WhereSizes(b, |b|);
  }

  lemma ApplyAt<T>(b: seq<Bit>, x: seq<T>, i: nat)
    requires |x| == |b| && i < |b|
    ensures Order(b)[i] < |b| && Apply(b, x)[i] == x[Order(b)[i]]
  {
    OrderIsRow(b, i);
  }

  /** Earlier in the sorted rows, for rows with equal test: earlier before. */
  lemma SortedEarlier(b: seq<Bit>, i: nat, j: nat)
    requires i < |b| && j < |b|
    ensures Order(b)[i] < |b| && Order(b)[j] < |b|
    ensures b[Order(b)[i]] == b[Order(b)[j]] ==> (i < j <==> Order(b)[i] < Order(b)[j])
  {
    hide *;
    OrderIsRow(b, i);
    OrderIsRow(b, j);
    if i < j {
      OrderIsStable(b, i, j);
    } else if j < i {
      OrderIsStable(b, j, i);
    }
  }

  /** Rows with one id agree on the test. */
  ghost predicate TestOf(ids: seq<int>, b: seq<Bit>) {
    |b| == |ids| && forall i: nat, j: nat :: i < |ids| && j < |ids| && ids[i] == ids[j] ==> b[i] == b[j]
  }

  /** Rows with one id are adjacent among those with the same test. */
  ghost predicate AdjacentInHalf(ids: seq<int>, b: seq<Bit>) {
    |b| == |ids| && forall i: nat, l: nat, j: nat ::
      i <= l <= j < |ids| && ids[i] == ids[j] && b[l] == b[i] ==> ids[l] == ids[i]
  }

  lemma HalfAdjacent(ids: seq<int>, b: seq<Bit>, i: nat, l: nat, j: nat)
    requires AdjacentInHalf(ids, b) && i <= l <= j < |ids| && ids[i] == ids[j]
    ensures |b| == |ids| && (b[l] == b[i] ==> ids[l] == ids[i])
  {
  }

  lemma TestAgrees(ids: seq<int>, b: seq<Bit>, i: nat, j: nat)
    requires TestOf(ids, b) && i < |ids| && j < |ids|
    ensures |b| == |ids| && (ids[i] == ids[j] ==> b[i] == b[j])
  {
  }

  lemma SortedIsNew(ids: seq<int>, b: seq<Bit>, p: nat)
    requires TestOf(ids, b) && |b| == |ids| && p < |ids|
    ensures Order(b)[p] < |ids| && (IsNew(Apply(b, ids), p) <==> IsNew(ids, Order(b)[p]))
  {
    hide *;
    var s, r := Apply(b, ids), Order(b)[p];
    ApplyAt(b, ids, p);
    if IsNew(ids, r) {
      forall q: nat | q < p ensures s[q] != s[p] {
        ApplyAt(b, ids, q);
        SortedEarlier(b, q, p);
        TestAgrees(ids, b, Order(b)[q], r);
        NotNew(ids, Order(b)[q], r);
      }
      AllNew(s, p);
    }
    if IsNew(s, p) {
      forall i: nat | i < r ensures ids[i] != ids[r] {
        var q := Dest(b, i);
        OrderOfDest(b, i);
        ApplyAt(b, ids, q);
        SortedEarlier(b, q, p);
        TestAgrees(ids, b, i, r);
        NotNew(s, q, p);
      }
      AllNew(ids, r);
    }
  }

  lemma NotNew(ids: seq<int>, i: nat, r: nat)
    requires i < |ids| && r < |ids|
    ensures i < r && ids[i] == ids[r] ==> !IsNew(ids, r)
  {
  }

  lemma AllNew(ids: seq<int>, r: nat)
    requires r < |ids| && forall i: nat :: i < r ==> ids[i] != ids[r]
    ensures IsNew(ids, r)
  {
  }

  lemma SortedAdjacent(ids: seq<int>, b: seq<Bit>, i: nat, l: nat, j: nat)
    requires TestOf(ids, b) && AdjacentInHalf(ids, b) && |b| == |ids|
    requires i <= l <= j < |ids| && Apply(b, ids)[i] == Apply(b, ids)[j]
    ensures Apply(b, ids)[l] == Apply(b, ids)[i]
  {
    hide *;
    ApplyAt(b, ids, i);
    ApplyAt(b, ids, l);
    ApplyAt(b, ids, j);
    var (oi, ol, oj) := (Order(b)[i], Order(b)[l], Order(b)[j]);
    TestAgrees(ids, b, oi, oj);
    if i < l < j {
      OrderIsStable(b, i, l);
      OrderIsStable(b, l, j);
      HalfAdjacent(ids, b, oi, ol, oj);
    }
  }

  /** Sorting the rows stably by the test keeps the marks right. */
  lemma SortKeepsMarks(g: seq<Bit>, ids: seq<int>, b: seq<Bit>)
    requires |g| == |ids| == |b| > 0 && FirstRows(g, ids) && TestOf(ids, b) && AdjacentInHalf(ids, b)
    ensures Marks(Apply(b, g), Apply(b, ids))
  {
    hide Order, Apply, TestOf, AdjacentInHalf, IsNew;
    var (h, s) := (Apply(b, g), Apply(b, ids));
    forall p: nat | p < |h| ensures h[p] == 1 <==> IsNew(s, p) {
      ApplyAt(b, g, p);
      SortedIsNew(ids, b, p);
    }
    forall i: nat, l: nat, j: nat | i <= l <= j < |s| && s[i] == s[j] ensures s[l] == s[i] {
      SortedAdjacent(ids, b, i, l, j);
    }
  }

  /** Lines 392-399: splitting every node by its test and sorting the rows by the test gives marks on the first rows of the
      children again. */
  lemma LayerKeepsMarks(g: seq<Bit>, ids: seq<int>, b: seq<Bit>, k: nat)
    requires Marks(g, ids) && |b| == |ids| == |g| && InLayer(ids, k)
    ensures Marks(Apply(b, NewMarks(g, b)), Apply(b, Split(ids, b, k)))
    ensures InLayer(Apply(b, Split(ids, b, k)), k + 1)
  {
    hide NewMarks, Order, Apply, Split, FirstRows, First, InLayer, Adjacent;
    var s := Split(ids, b, k);
    NewMarksAreFirst(g, ids, b, k);
    MarksGroup(g, ids);
    forall i: nat, j: nat | i < |s| && j < |s| && s[i] == s[j] ensures b[i] == b[j] {
      SplitSame(ids, b, k, i, j);
    }
    forall i: nat, l: nat, j: nat | i <= l <= j < |s| && s[i] == s[j] && b[l] == b[i] ensures s[l] == s[i] {
      SplitSame(ids, b, k, i, j);
      AreAdjacent(ids, i, l, j);
      SplitSame(ids, b, k, l, i);
    }
    SortKeepsMarks(NewMarks(g, b), s, b);
    SplitInLayer(ids, b, k);
    SortedInLayer(s, b, k + 1);
  }

  lemma SortedInLayer(ids: seq<int>, b: seq<Bit>, k: nat)
    requires |b| == |ids| && InLayer(ids, k)
    ensures InLayer(Apply(b, ids), k)
  {
    hide Order;
    forall r: nat | r < |ids| ensures 1 <= Apply(b, ids)[r] <= Pow2(k) {
      ApplyAt(b, ids, r);
    }
  }

  // ----- at most one entry per node -----

  lemma StartIds(g: seq<Bit>, ids: seq<int>, i: nat, j: nat)
    requires Marks(g, ids) && i < |Starts(g)| && j < |Starts(g)|
    ensures Starts(g)[i] < |ids| && Starts(g)[j] < |ids|
    ensures ids[Starts(g)[i]] == ids[Starts(g)[j]] <==> i == j
  {
    hide Starts, First, Adjacent, FirstRows;
    MarksGroup(g, ids);
    StartsAscend(g);
    var (f, h) := (Starts(g)[i], Starts(g)[j]);
    SameNode(g, ids, f, h);
    FirstIs(g, f, f);
    FirstIs(g, h, h);
  }

  /** A layer has no more groups than nodes. */
  lemma GroupsFit(g: seq<Bit>, ids: seq<int>, k: nat)
    requires Marks(g, ids) && InLayer(ids, k)
    ensures |Starts(g)| <= Pow2(k)
  {
    hide Starts, Adjacent, FirstRows, Marks;
    var n := |Starts(g)|;
    forall i: nat | i < n ensures Starts(g)[i] < |ids| {
      StartIds(g, ids, i, i);
    }
    var at: seq<nat> := seq(n, i requires 0 <= i < n => ids[Starts(g)[i]] - 1);
    forall a: nat, b: nat | a < b < |at| ensures at[a] != at[b] {
      StartIds(g, ids, a, b);
    }
    DistinctSize(at);
    forall v | v in ToSet(at) ensures v in Below(Pow2(k)) {
    }
    SubsetSize(ToSet(at), Below(Pow2(k)));
  }
}
