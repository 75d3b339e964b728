/** Compiler/decision_tree.py: training layer by layer, and the evaluation of a trained tree. Attributes, thresholds and
    scores are integers; the scores of the candidate tests may be anything. */
module DecisionTrees {
  import opened Powers
  import opened Bits
  import opened GroupVectors
  import opened NodeGroups
  import opened PrefixNetworks

  const MIN_VALUE := -10000

  /** One layer of a trained tree: node ids with the attribute and the threshold of their tests. */
  datatype Layer = Layer(nids: seq<int>, aids: seq<int>, thresholds: seq<int>)

  datatype Tree = Tree(layers: seq<Layer>, leaves: seq<int>, labels: seq<int>)

  datatype Example = Example(data: seq<int>, truth: Bit)

  // ----- selecting by position -----

  function Chosen(data: seq<int>, i: int): (c: seq<int>)
    ensures |c| == |data|
  {
    seq(|data|, j requires 0 <= j < |data| => if i == j then data[j] else 0)
  }

  /** Lines 253-258 and 510-514: the sum of all attributes times the indicator of `i`. */
  function Selected(data: seq<int>, i: int): int {
    Sum(Chosen(data, i), 0, |data|)
  }

  /** Equality on `k` bits, or in full for `k` = 0. */
  predicate Same(a: int, b: int, k: nat) {
    if k == 0 then a == b else (a - b) % Pow2(k) == 0
  }

  function Equal(ids: seq<int>, index: int, k: nat): (bits: seq<Bit>)
    ensures |bits| == |ids| && forall i: nat :: i < |ids| ==> (bits[i] == 1 <==> Same(ids[i], index, k))
  {
    seq<Bit>(|ids|, i requires 0 <= i < |ids| => if Same(ids[i], index, k) then 1 else 0)
  }

  /** Lines 484-491 */
  function Pick(bits: seq<Bit>, x: seq<int>): int
    requires |bits| == |x|
  {
    Sum(Times(x, bits), 0, |x|)
  }

  lemma SumOfOnly(x: seq<int>, i: nat)
    requires i < |x| && forall j: nat :: j < |x| && j != i ==> x[j] == 0
    ensures Sum(x, 0, |x|) == x[i]
  {
    SumSplit(x, 0, i, |x|);
    ZeroSum(x, 0, i);
    SumOfOne(x, i, |x|);
  }

  lemma SelectedIs(data: seq<int>, i: nat)
    requires i < |data|
    ensures Selected(data, i) == data[i]
  {
    SumOfOnly(Chosen(data, i), i);
  }

  // ----- evaluation -----

  predicate LayerShape(l: Layer, k: nat) {
    |l.nids| == |l.aids| == |l.thresholds| <= Pow2(k)
  }

  predicate Shaped(layers: seq<Layer>) {
    forall k: nat :: k < |layers| ==> LayerShape(layers[k], k)
  }

  predicate TreeShape(t: Tree) {
    Shaped(t.layers) && |t.leaves| == |t.labels|
  }

  /** One round of lines 503-516. */
  function Step(l: Layer, k: nat, data: seq<int>, index: int): int
    requires LayerShape(l, k)
  {
    var bits := Equal(l.nids, index, k);
    if 2 * Selected(data, Pick(bits, l.aids)) < Pick(bits, l.thresholds) then index + Pow2(k) else index
  }

  /** The node that `data` reaches. */
  function Walk(layers: seq<Layer>, data: seq<int>): int
    requires Shaped(layers)
  {
    if layers == [] then 1
    else
      var k := |layers| - 1;
      Step(layers[k], k, data, Walk(layers[..k], data))
  }

  function Prediction(t: Tree, data: seq<int>): int
    requires TreeShape(t)
  {
    Pick(Equal(t.leaves, Walk(t.layers, data), |t.layers|), t.labels)
  }

  /** Lines 493-518 */
  method RunDecisionTree(t: Tree, data: seq<int>) returns (guess: int)
    requires TreeShape(t)
    ensures guess == Prediction(t, data)
  {
    var h := |t.layers|;
    var index := 1;
    for k := 0 to h
      invariant index == Walk(t.layers[..k], data)
    {
      var layer := t.layers[k];
      var bits := Equal(layer.nids, index, k);
      var threshold := Pick(bits, layer.thresholds);
      var keyIndex := Pick(bits, layer.aids);
      var key := Selected(data, keyIndex);
      var child := if 2 * key < threshold then 1 else 0;
      assert t.layers[..k + 1][..k] == t.layers[..k];
      index := index + child * Pow2(k);
    }
    assert t.layers[..h] == t.layers;
    var bits := Equal(t.leaves, index, h);
    guess := Pick(bits, t.labels);
  }

  lemma WalkNext(layers: seq<Layer>, l: Layer, data: seq<int>)
    requires Shaped(layers) && LayerShape(l, |layers|)
    ensures Shaped(layers + [l]) && Walk(layers + [l], data) == Step(l, |layers|, data, Walk(layers, data))
  {
    assert (layers + [l])[..|layers|] == layers;
  }

  // ----- layers -----

  function Bound(a: nat, b: nat): nat {
    if a <= b then a else b
  }

  /** Lines 192-202: one entry per group, in order, then zeros. */
  function FormatLayerWithoutCrop(g: seq<Bit>, a: seq<int>): (v: seq<int>)
    requires |a| == |g|
    ensures |v| == |g|
  {
    Apply(Nots(g), Times(a, g))
  }

  /** Lines 204-209 */
  function CropLayer(k: nat, v: seq<int>): (c: seq<int>)
    ensures |c| == Bound(Pow2(k), |v|)
  {
    v[..Bound(Pow2(k), |v|)]
  }

  function FormatLayer(k: nat, g: seq<Bit>, a: seq<int>): (c: seq<int>)
    requires |a| == |g|
    ensures |c| == Bound(Pow2(k), |g|)
  {
    CropLayer(k, FormatLayerWithoutCrop(g, a))
  }

  lemma EntryIs(k: nat, g: seq<Bit>, a: seq<int>, i: nat)
    requires |a| == |g| && i < Bound(Pow2(k), |g|)
    ensures i < |Starts(g)| ==> Starts(g)[i] < |g| && FormatLayer(k, g, a)[i] == a[Starts(g)[i]]
    ensures i >= |Starts(g)| ==> FormatLayer(k, g, a)[i] == 0
  {
    hide Order, Apply, Starts;
    ApplyAt(Nots(g), Times(a, g), i);
    StartsFirst(g, i);
  }

  lemma Mod0(a: int, p: nat)
    requires 0 < p && a < p && 0 < p + a
    ensures a % p == 0 <==> a == 0
  {
    if a < 0 {
      DivUnique(a, p, -1, a + p);
    } else {
      DivUnique(a, p, 0, a);
    }
  }

  lemma SameInLayer(a: int, b: int, k: nat)
    requires 1 <= a <= Pow2(k) && 1 <= b <= Pow2(k)
    ensures Same(a, b, k) <==> a == b
  {
    Mod0(a - b, Pow2(k));
  }

  /** At the id of row `r`, a layer holds what the first row of its node had. */
  lemma PickStart(k: nat, g: seq<Bit>, ids: seq<int>, a: seq<int>, r: nat)
    requires Marks(g, ids) && InLayer(ids, k) && |a| == |g| == |ids| && r < |g|
    ensures Grouped(g) && Pick(Equal(FormatLayer(k, g, ids), ids[r], k), FormatLayer(k, g, a)) == a[First(g, r)]
  {
    hide *;
    MarksGroup(g, ids);
    GroupedHere(g);
    GroupsFit(g, ids, k);
    var bits, v := Equal(FormatLayer(k, g, ids), ids[r], k), FormatLayer(k, g, a);
    var f, i := First(g, r), |Where(Nots(g), 0, First(g, r))|;
    StartAt(g, f);
    NoMoreStarts(g);
    BoundIs(Pow2(k), |g|);
    EntryIs(k, g, a, i);
    forall j: nat | j < |v| ensures Times(v, bits)[j] == if j == i then a[f] else 0 {
      OneBit(k, g, ids, a, r, i, j);
    }
    SumOfOnly(Times(v, bits), i);
    PickIs(bits, v);
  }

  lemma BoundIs(a: nat, b: nat)
    ensures Bound(a, b) <= a && Bound(a, b) <= b && (Bound(a, b) == a || Bound(a, b) == b)
  {
  }

  lemma PickIs(bits: seq<Bit>, x: seq<int>)
    requires |bits| == |x|
    ensures Pick(bits, x) == Sum(Times(x, bits), 0, |x|)
  {
  }

  lemma StartAt(g: seq<Bit>, f: nat)
    requires f < |g| && g[f] == 1
    ensures |Where(Nots(g), 0, f)| < |Starts(g)| && Starts(g)[|Where(Nots(g), 0, f)|] == f
  {
    WhereIs(Nots(g), 0, f);
  }

  lemma NoMoreStarts(g: seq<Bit>)
    ensures |Starts(g)| <= |g|
  {
  }

  lemma OneBit(k: nat, g: seq<Bit>, ids: seq<int>, a: seq<int>, r: nat, i: nat, j: nat)
    requires Marks(g, ids) && InLayer(ids, k) && |a| == |g| == |ids| && r < |g| && Grouped(g)
    requires i < |Starts(g)| <= Bound(Pow2(k), |g|) && Starts(g)[i] == First(g, r) && j < Bound(Pow2(k), |g|)
    ensures Times(FormatLayer(k, g, a), Equal(FormatLayer(k, g, ids), ids[r], k))[j] == if j == i then a[First(g, r)] else 0
  {
    hide FormatLayer, First, Starts, Marks, Same, Pow2, Bound;
    EntryIs(k, g, a, j);
    EntryIs(k, g, ids, j);
    if j < |Starts(g)| {
      StartIds(g, ids, i, j);
      IdOfFirst(g, ids, r);
      SameInLayer(ids[Starts(g)[j]], ids[r], k);
    }
  }

  // ----- one layer of training -----

  /** Every attribute has one value per row. */
  ghost predicate Columns(x: seq<seq<int>>, n: nat) {
    forall j: nat :: j < |x| ==> |x[j]| == n
  }

  function Column(x: seq<seq<int>>, r: nat): (d: seq<int>)
    requires forall j: nat :: j < |x| ==> r < |x[j]|
    ensures |d| == |x|
  {
    seq(|x|, j requires 0 <= j < |x| => x[j][r])
  }

  /** The values of the rows are the same within each group. */
  ghost predicate PerGroup(g: seq<Bit>, a: seq<int>)
    requires Grouped(g)
  {
    |a| == |g| && forall r: nat :: r < |g| ==> a[r] == a[First(g, r)]
  }

  /** Lines 247-262 */
  function ApplyTests(x: seq<seq<int>>, aid: seq<int>, threshold: seq<int>): (b: seq<Bit>)
    requires |aid| == |threshold| && forall j: nat :: j < |x| ==> |x[j]| == |aid|
    ensures |b| == |aid|
  {
    seq<Bit>(|aid|, r requires 0 <= r < |aid| => if 2 * Selected(Column(x, r), aid[r]) < threshold[r] then 1 else 0)
  }

  function LayerOf(k: nat, g: seq<Bit>, ids: seq<int>, aid: seq<int>, threshold: seq<int>): (l: Layer)
    requires |aid| == |threshold| == |ids| == |g|
    ensures LayerShape(l, k)
  {
    Layer(FormatLayer(k, g, ids), FormatLayer(k, g, aid), FormatLayer(k, g, threshold))
  }

  /** The test of a row is on the attribute that was chosen. */
  lemma TestAt(x: seq<seq<int>>, aid: seq<int>, threshold: seq<int>, r: nat)
    requires |aid| == |threshold| && Columns(x, |aid|) && r < |aid|
    ensures ApplyTests(x, aid, threshold)[r] == 1 <==> 2 * Selected(Column(x, r), aid[r]) < threshold[r]
    ensures 0 <= aid[r] < |x| ==> (ApplyTests(x, aid, threshold)[r] == 1 <==> 2 * x[aid[r]][r] < threshold[r])
  {
    if 0 <= aid[r] < |x| {
      SelectedIs(Column(x, r), aid[r]);
    }
  }

  lemma PerGroupAt(g: seq<Bit>, a: seq<int>, r: nat)
    requires Grouped(g) && PerGroup(g, a) && r < |g|
    ensures |a| == |g| && g[0] == 1 && a[r] == a[First(g, r)]
  {
  }

  /** The layer sends a training row to the node that the training moves it to. */
  lemma RowSteps(k: nat, x: seq<seq<int>>, g: seq<Bit>, ids: seq<int>, aid: seq<int>, threshold: seq<int>, r: nat)
    requires Marks(g, ids) && InLayer(ids, k) && Grouped(g) && PerGroup(g, aid) && PerGroup(g, threshold)
    requires |aid| == |threshold| == |g| == |ids| && Columns(x, |g|) && r < |g|
    ensures Step(LayerOf(k, g, ids, aid, threshold), k, Column(x, r), ids[r])
      == Split(ids, ApplyTests(x, aid, threshold), k)[r]
  {
    hide Marks, InLayer, PerGroup, Selected, Pick, Equal, FormatLayer, Pow2, First, Column, ApplyTests, Split;
    PickStart(k, g, ids, aid, r);
    PickStart(k, g, ids, threshold, r);
    PerGroupAt(g, aid, r);
    PerGroupAt(g, threshold, r);
    TestAt(x, aid, threshold, r);
    SplitAt(ids, ApplyTests(x, aid, threshold), k, r);
  }

  function ApplyAll(b: seq<Bit>, x: seq<seq<int>>): (y: seq<seq<int>>)
    requires forall j: nat :: j < |x| ==> |x[j]| == |b|
    ensures |y| == |x| && forall j: nat :: j < |x| ==> |y[j]| == |b|
  {
    seq(|x|, j requires 0 <= j < |x| => Apply(b, x[j]))
  }

  lemma ColumnMoves(b: seq<Bit>, x: seq<seq<int>>, i: nat)
    requires Columns(x, |b|) && i < |b|
    ensures Order(b)[i] < |b| && Column(ApplyAll(b, x), i) == Column(x, Order(b)[i])
  {
    hide Order, Apply;
    OrderIsRow(b, i);
    forall j: nat | j < |x| ensures Apply(b, x[j])[i] == x[j][Order(b)[i]] {
      ApplyAt(b, x[j], i);
    }
    assert Column(ApplyAll(b, x), i) == Column(x, Order(b)[i]);
  }

  // ----- what training keeps -----

  /** The layers so far send every training row to its own node. */
  ghost predicate Trained(layers: seq<Layer>, x: seq<seq<int>>, g: seq<Bit>, ids: seq<int>) {
    && Marks(g, ids) && InLayer(ids, |layers|) && Columns(x, |ids|) && Shaped(layers) && Reach(layers, x, ids)
  }

  ghost predicate Reach(layers: seq<Layer>, x: seq<seq<int>>, ids: seq<int>)
    requires Columns(x, |ids|) && Shaped(layers)
  {
    forall r: nat :: r < |ids| ==> Walk(layers, Column(x, r)) == ids[r]
  }

  lemma ReachAt(layers: seq<Layer>, x: seq<seq<int>>, ids: seq<int>, r: nat)
    requires Columns(x, |ids|) && Shaped(layers) && Reach(layers, x, ids) && r < |ids|
    ensures Walk(layers, Column(x, r)) == ids[r]
  {
  }

  lemma LayerReaches(layers: seq<Layer>, x: seq<seq<int>>, g: seq<Bit>, ids: seq<int>, aid: seq<int>, threshold: seq<int>)
    requires Trained(layers, x, g, ids) && Grouped(g) && PerGroup(g, aid) && PerGroup(g, threshold)
    requires |aid| == |threshold| == |g| == |ids|
    ensures Columns(x, |ids|)
    ensures var (k, b) := (|layers|, ApplyTests(x, aid, threshold));
      && Shaped(layers + [LayerOf(k, g, ids, aid, threshold)])
      && Columns(ApplyAll(b, x), |ids|)
      && Reach(layers + [LayerOf(k, g, ids, aid, threshold)], ApplyAll(b, x), Apply(b, Split(ids, b, k)))
  {
    hide Marks, InLayer, PerGroup, LayerOf, Walk, ApplyTests, Split, Apply, Order, ApplyAll, Step, Column;
    var (k, b) := (|layers|, ApplyTests(x, aid, threshold));
    var l, s := LayerOf(k, g, ids, aid, threshold), Split(ids, b, k);
    forall i: nat | i < |ids| ensures Walk(layers + [l], Column(ApplyAll(b, x), i)) == Apply(b, s)[i] {
      ColumnMoves(b, x, i);
      ApplyAt(b, s, i);
      var r := Order(b)[i];
      ReachAt(layers, x, ids, r);
      WalkNext(layers, l, Column(x, r));
      RowSteps(k, x, g, ids, aid, threshold, r);
    }
    WalkNext(layers, l, []);
  }

  /** Lines 355-399 keep the rows with their nodes. */
  lemma LayerKeepsTrained(layers: seq<Layer>, x: seq<seq<int>>, g: seq<Bit>, ids: seq<int>, aid: seq<int>, threshold: seq<int>)
    requires Trained(layers, x, g, ids) && Grouped(g) && PerGroup(g, aid) && PerGroup(g, threshold)
    ensures |aid| == |threshold| == |g| == |ids| && Columns(x, |ids|)
    ensures var (k, b) := (|layers|, ApplyTests(x, aid, threshold));
      Trained(layers + [LayerOf(k, g, ids, aid, threshold)], ApplyAll(b, x), Apply(b, NewMarks(g, b)), Apply(b, Split(ids, b, k)))
  {
    hide Marks, InLayer, LayerOf, ApplyTests, Split, Apply, ApplyAll, Reach, NewMarks;
    MarksGroup(g, ids);
    LayerReaches(layers, x, g, ids, aid, threshold);
    LayerKeepsMarks(g, ids, ApplyTests(x, aid, threshold), |layers|);
  }

  // ----- the rows are kept -----

  function Rows(x: seq<seq<int>>, y: seq<Bit>): (rows: seq<Example>)
    requires forall j: nat :: j < |x| ==> |x[j]| == |y|
    ensures |rows| == |y|
  {
    seq(|y|, r requires 0 <= r < |y| => Example(Column(x, r), y[r]))
  }

  function Gather<T>(s: seq<T>, w: seq<nat>): (r: seq<T>)
    requires forall i: nat :: i < |w| ==> w[i] < |s|
    ensures |r| == |w|
  {
    seq(|w|, i requires 0 <= i < |w| => s[w[i]])
  }

  lemma {:induction false} GatherKeepsRows<T>(b: seq<Bit>, s: seq<T>, n: nat)
    requires n <= |b| == |s|
    ensures forall v: Bit, i: nat :: i < |Where(b, v, n)| ==> Where(b, v, n)[i] < |s|
    ensures multiset(s[..n]) == multiset(Gather(s, Where(b, 0, n))) + multiset(Gather(s, Where(b, 1, n)))
  {
    WhereIsAscending(b, 0, n);
    WhereIsAscending(b, 1, n);
    if n > 0 {
      GatherKeepsRows(b, s, n - 1);
      var v := b[n - 1];
      assert s[..n] == s[..n - 1] + [s[n - 1]];
      assert Gather(s, Where(b, v, n)) == Gather(s, Where(b, v, n - 1)) + [s[n - 1]];
    }
  }

  lemma SortKeepsRows<T>(b: seq<Bit>, s: seq<T>)
    requires |b| == |s|
    ensures multiset(Apply(b, s)) == multiset(s)
  {
    hide Where;
    var n := |b|;
    GatherKeepsRows(b, s, n);
    WhereSizes(b, n);
    assert s[..n] == s;
    var parts := Gather(s, Where(b, 0, n)) + Gather(s, Where(b, 1, n));
    forall i: nat | i < n ensures Apply(b, s)[i] == parts[i] {
      ApplyAt(b, s, i);
    }
    assert Apply(b, s) == parts;
  }

  lemma SortedRows(b: seq<Bit>, x: seq<seq<int>>, y: seq<Bit>)
    requires |b| == |y| && Columns(x, |y|)
    ensures Rows(ApplyAll(b, x), Apply(b, y)) == Apply(b, Rows(x, y))
    ensures multiset(Rows(ApplyAll(b, x), Apply(b, y))) == multiset(Rows(x, y))
  {
    hide Order, Apply, ApplyAll, Column;
    forall i: nat | i < |y| ensures Rows(ApplyAll(b, x), Apply(b, y))[i] == Apply(b, Rows(x, y))[i] {
      ColumnMoves(b, x, i);
      ApplyAt(b, y, i);
      ApplyAt(b, Rows(x, y), i);
    }
    assert Rows(ApplyAll(b, x), Apply(b, y)) == Apply(b, Rows(x, y));
    SortKeepsRows(b, Rows(x, y));
  }

  // ----- leaves -----

  /** How many examples with label `v` reach node `id`. */
  ghost function Count(layers: seq<Layer>, rows: seq<Example>, id: int, v: Bit): nat
    requires Shaped(layers)
  {
    if rows == [] then 0
    else Count(layers, rows[..|rows| - 1], id, v) + One(layers, rows[|rows| - 1], id, v)
  }

  ghost function One(layers: seq<Layer>, e: Example, id: int, v: Bit): Bit
    requires Shaped(layers)
  {
    if e.truth == v && Walk(layers, e.data) == id then 1 else 0
  }

  lemma {:induction false} CountConcat(layers: seq<Layer>, a: seq<Example>, b: seq<Example>, id: int, v: Bit)
    requires Shaped(layers)
    ensures Count(layers, a + b, id, v) == Count(layers, a, id, v) + Count(layers, b, id, v)
  {
    if b == [] {
      assert a + b == a;
    } else {
      assert (a + b)[..|a + b| - 1] == a + b[..|b| - 1];
      CountConcat(layers, a, b[..|b| - 1], id, v);
    }
  }

  lemma CountWithout(layers: seq<Layer>, b: seq<Example>, i: nat, id: int, v: Bit)
    requires Shaped(layers) && i < |b|
    ensures Count(layers, b, id, v) == Count(layers, b[..i] + b[i + 1..], id, v) + One(layers, b[i], id, v)
  {
    hide Walk, Shaped, One;
    var e := b[i];
    assert b == b[..i] + [e] + b[i + 1..];
    CountConcat(layers, b[..i], b[i + 1..], id, v);
    CountConcat(layers, b[..i] + [e], b[i + 1..], id, v);
    CountConcat(layers, b[..i], [e], id, v);
    assert [e][..0] == [];
  }

  /** The last of one list taken out of a permutation of it. */
  lemma WithoutLast<T>(a: seq<T>, b: seq<T>) returns (i: nat)
    requires a != [] && multiset(a) == multiset(b)
    ensures i < |b| && b[i] == a[|a| - 1] && multiset(a[..|a| - 1]) == multiset(b[..i] + b[i + 1..])
  {
    var n := |a| - 1;
    var e := a[n];
    assert a == a[..n] + [e];
    assert e in multiset(b);
    i :| i < |b| && b[i] == e;
    assert b == b[..i] + [e] + b[i + 1..];
    assert multiset(a) == multiset(a[..n]) + multiset{e};
    assert multiset(b) == multiset(b[..i] + b[i + 1..]) + multiset{e};
    assert multiset(a[..n]) == multiset(a) - multiset{e};
  }

  lemma {:induction false} SameRowsSameCount(layers: seq<Layer>, a: seq<Example>, b: seq<Example>, id: int, v: Bit)
    requires Shaped(layers) && multiset(a) == multiset(b)
    ensures Count(layers, a, id, v) == Count(layers, b, id, v)
    decreases |a|
  {
    hide Walk, Shaped, One;
    if a == [] {
      assert |multiset(b)| == 0;
    } else {
      var i := WithoutLast(a, b);
      SameRowsSameCount(layers, a[..|a| - 1], b[..i] + b[i + 1..], id, v);
      CountWithout(layers, b, i, id, v);
    }
  }

  /** 1 where the label is `v`. */
  function Labelled(y: seq<Bit>, v: Bit): seq<Bit> {
    if v == 1 then y else Nots(y)
  }

  ghost function Hits(ids: seq<int>, y: seq<Bit>, id: int, v: Bit): (s: seq<int>)
    requires |ids| == |y|
    ensures |s| == |y|
  {
    seq(|y|, i requires 0 <= i < |y| => if ids[i] == id && y[i] == v then 1 else 0)
  }

  lemma {:induction false} CountIsSum(layers: seq<Layer>, x: seq<seq<int>>, y: seq<Bit>, ids: seq<int>, id: int, v: Bit, n: nat)
    requires Columns(x, |ids|) && |y| == |ids| && Shaped(layers) && Reach(layers, x, ids) && n <= |y|
    ensures Count(layers, Rows(x, y)[..n], id, v) == Sum(Hits(ids, y, id, v), 0, n)
  {
    hide Column, Walk;
    if n > 0 {
      CountIsSum(layers, x, y, ids, id, v, n - 1);
      ReachAt(layers, x, ids, n - 1);
      var part := Rows(x, y)[..n];
      assert part[..n - 1] == Rows(x, y)[..n - 1];
    }
  }

  lemma {:induction false} SameSum(a: seq<int>, b: seq<int>, lo: nat, hi: nat)
    requires lo <= hi <= |a| == |b| && forall i: nat :: lo <= i < hi ==> a[i] == b[i]
    ensures Sum(a, lo, hi) == Sum(b, lo, hi)
  {
    if lo < hi {
      SameSum(a, b, lo, hi - 1);
    }
  }

  /** The sum over a group counts the examples of its node. */
  lemma TotalCounts(layers: seq<Layer>, x: seq<seq<int>>, y: seq<Bit>, g: seq<Bit>, ids: seq<int>, r: nat, v: Bit)
    requires Trained(layers, x, g, ids) && |y| == |ids| && r < |ids|
    ensures Grouped(g) && |g| == |ids| && |Labelled(y, v)| == |g|
    ensures Total(g, Labelled(y, v), r) == Count(layers, Rows(x, y), ids[r], v)
  {
    hide Marks, InLayer, Reach, Rows, First, End, Shaped;
    MarksGroup(g, ids);
    GroupedHere(g);
    var n, f, e := |y|, First(g, r), End(g, r);
    var hits := Hits(ids, y, ids[r], v);
    CountIsSum(layers, x, y, ids, ids[r], v, n);
    assert Rows(x, y)[..n] == Rows(x, y);
    SumSplit(hits, 0, f, n);
    SumSplit(hits, f, e, n);
    forall i: nat | i < n ensures f <= i < e <==> ids[i] == ids[r] {
      GroupIsNode(g, ids, r, i);
    }
    ZeroSum(hits, 0, f);
    ZeroSum(hits, e, n);
    SameSum(hits, Labelled(y, v), f, e);
  }

  /** Line 214: the greater sum of labels wins, 0 in a draw. */
  function LeafLabels(g: seq<Bit>, y: seq<Bit>): (l: seq<Bit>)
    requires |y| == |g|
    ensures |l| == |g|
  {
    seq<Bit>(|g|, r requires 0 <= r < |g| => if GroupSum(g, Nots(y))[r] < GroupSum(g, y)[r] then 1 else 0)
  }

  lemma LeafLabelAt(g: seq<Bit>, y: seq<Bit>, r: nat)
    requires Grouped(g) && |y| == |g| && r < |g|
    ensures LeafLabels(g, y)[r] == if Total(g, Labelled(y, 0), r) < Total(g, Labelled(y, 1), r) then 1 else 0
    ensures LeafLabels(g, y)[First(g, r)] == LeafLabels(g, y)[r]
  {
    hide GroupSum, First, End;
    GroupSumIsTotal(g, y, r);
    GroupSumIsTotal(g, Nots(y), r);
    GroupSumIsTotal(g, y, First(g, r));
    GroupSumIsTotal(g, Nots(y), First(g, r));
    FirstIs(g, First(g, r), First(g, r));
    SameEnd(g, First(g, r), r);
  }

  /** What most training examples at the node of `data` are labelled. */
  ghost function Majority(layers: seq<Layer>, rows: seq<Example>, data: seq<int>): Bit
    requires Shaped(layers)
  {
    var id := Walk(layers, data);
    if Count(layers, rows, id, 0) < Count(layers, rows, id, 1) then 1 else 0
  }

  lemma TrainedRowIsPredicted(layers: seq<Layer>, x: seq<seq<int>>, y: seq<Bit>, g: seq<Bit>, ids: seq<int>, t: Tree, r: nat)
    requires Trained(layers, x, g, ids) && |y| == |ids| == |g| && r < |ids|
    requires t.layers == layers && t.leaves == FormatLayer(|layers|, g, ids) && t.labels == FormatLayer(|layers|, g, LeafLabels(g, y))
    ensures TreeShape(t) && Prediction(t, Column(x, r)) == Majority(layers, Rows(x, y), Column(x, r))
  {
    hide Marks, InLayer, Reach, Rows, First, FormatLayer, LeafLabels, Walk, Pick, Equal, Count, Total, Column, Shaped;
    MarksGroup(g, ids);
    ReachAt(layers, x, ids, r);
    PickStart(|layers|, g, ids, LeafLabels(g, y), r);
    LeafLabelAt(g, y, r);
    TotalCounts(layers, x, y, g, ids, r, 0);
    TotalCounts(layers, x, y, g, ids, r, 1);
  }

  // ----- choosing the tests -----

  /** The greatest score of every attribute among rows `f` to `e`. */
  ghost function Tops(s: seq<seq<int>>, f: nat, e: nat): (tops: seq<int>)
    requires f < e && forall j: nat :: j < |s| ==> e <= |s[j]|
    ensures |tops| == |s|
  {
    seq(|s|, j requires 0 <= j < |s| => s[j][LastMax(s[j], f, e)])
  }

  /** The attribute with the greatest score among rows `f` to `e`. */
  ghost function BestAttribute(s: seq<seq<int>>, f: nat, e: nat): (j: nat)
    requires f < e && |s| > 0 && forall j: nat :: j < |s| ==> e <= |s[j]|
    ensures j < |s|
  {
    LastMax(Tops(s, f, e), 0, |s|)
  }

  /** The threshold that goes with the greatest score. */
  ghost function BestThreshold(s: seq<seq<int>>, t: seq<seq<int>>, f: nat, e: nat): int
    requires f < e && |s| == |t| > 0 && forall j: nat :: j < |s| ==> e <= |s[j]| == |t[j]|
  {
    var j := BestAttribute(s, f, e);
    t[j][LastMax(s[j], f, e)]
  }

  ghost predicate Pure(y: seq<Bit>, f: nat, e: nat)
    requires e <= |y|
  {
    forall i: nat, j: nat :: f <= i < e && f <= j < e ==> y[i] == y[j]
  }

  /** A group of one label gets a test that sends all rows with values from MIN_VALUE / 2 up to the first child. */
  ghost function TestAids(g: seq<Bit>, y: seq<Bit>, s: seq<seq<int>>): (a: seq<int>)
    requires Grouped(g) && |y| == |g| && |s| > 0 && Columns(s, |g|)
    ensures |a| == |g|
  {
    seq(|g|, r requires 0 <= r < |g| =>
      if Pure(y, First(g, r), End(g, r)) then 0 else BestAttribute(s, First(g, r), End(g, r)))
  }

  ghost function TestThresholds(g: seq<Bit>, y: seq<Bit>, s: seq<seq<int>>, t: seq<seq<int>>): (a: seq<int>)
    requires Grouped(g) && |y| == |g| && |s| == |t| > 0 && Columns(s, |g|) && Columns(t, |g|)
    ensures |a| == |g|
  {
    seq(|g|, r requires 0 <= r < |g| =>
      if Pure(y, First(g, r), End(g, r)) then MIN_VALUE else BestThreshold(s, t, First(g, r), End(g, r)))
  }

  lemma SameBounds(g: seq<Bit>, r: nat)
    requires Grouped(g) && r < |g|
    ensures First(g, First(g, r)) == First(g, r) && End(g, First(g, r)) == End(g, r)
  {
    FirstIs(g, First(g, r), First(g, r));
    SameEnd(g, First(g, r), r);
  }

  lemma TestsPerGroup(g: seq<Bit>, y: seq<Bit>, s: seq<seq<int>>, t: seq<seq<int>>)
    requires Grouped(g) && |y| == |g| && |s| == |t| > 0 && Columns(s, |g|) && Columns(t, |g|)
    ensures PerGroup(g, TestAids(g, y, s)) && PerGroup(g, TestThresholds(g, y, s, t))
  {
    hide First, End, Pure, BestAttribute, BestThreshold;
    forall r: nat | r < |g| ensures First(g, First(g, r)) == First(g, r) && End(g, First(g, r)) == End(g, r) {
      SameBounds(g, r);
    }
  }

  function Ones(n: nat): (o: seq<int>)
    ensures |o| == n
  {
    seq(n, _ => 1)
  }

  /** Lines 217-225 */
  function GroupSame(g: seq<Bit>, y: seq<Bit>): (same: seq<Bit>)
    requires |y| == |g|
    ensures |same| == |g|
  {
    var (s, s0, s1) := (GroupSum(g, Ones(|g|)), GroupSum(g, Nots(y)), GroupSum(g, y));
    seq<Bit>(|g|, r requires 0 <= r < |g| => if s[r] == s0[r] || s[r] == s1[r] then 1 else 0)
  }

  lemma {:induction false} LabelsAddUp(y: seq<Bit>, lo: nat, hi: nat)
    requires lo <= hi <= |y|
    ensures Sum(Ones(|y|), lo, hi) == Sum(Nots(y), lo, hi) + Sum(y, lo, hi)
  {
    if lo < hi {
      LabelsAddUp(y, lo, hi - 1);
    }
  }

  /** The comparison of sums finds exactly the groups with one label. */
  lemma GroupSameIsPure(g: seq<Bit>, y: seq<Bit>, r: nat)
    requires Grouped(g) && |y| == |g| && r < |g|
    ensures GroupSame(g, y)[r] == 1 <==> Pure(y, First(g, r), End(g, r))
  {
    hide GroupSum, First, End;
    var (f, e) := (First(g, r), End(g, r));
    GroupSumIsTotal(g, Ones(|g|), r);
    GroupSumIsTotal(g, Nots(y), r);
    GroupSumIsTotal(g, y, r);
    LabelsAddUp(y, f, e);
    CountZero(y, f, e);
    CountZero(Nots(y), f, e);
    assert y[f] == 0 || Nots(y)[f] == 0;
    if Pure(y, f, e) {
      assert forall i: nat :: f <= i < e ==> y[i] == y[f];
    }
  }

  /** Score, number and threshold of an attribute. */
  datatype Candidate = Candidate(key: int, attribute: int, threshold: int)

  /** Lines 88-94, for one row: the second of two candidates unless the first has the greater score. */
  function Better(x: Candidate, y: Candidate): Candidate {
    if x.key > y.key then x else y
  }

  function BetterOf(): (Candidate, Candidate) -> Candidate {
    (x: Candidate, y: Candidate) => Better(x, y)
  }

  lemma BetterIsAssociative()
    ensures Associative(BetterOf())
  {
  }

  function CandidatesAt(keys: seq<seq<int>>, data: seq<seq<int>>, r: nat): (c: seq<Candidate>)
    requires |keys| == |data| && forall j: nat :: j < |keys| ==> r < |keys[j]| == |data[j]|
    ensures |c| == |keys|
  {
    seq(|keys|, j requires 0 <= j < |keys| => Candidate(keys[j][r], j, data[j][r]))
  }

  /** Combining candidates from the left finds the last one with the greatest score. */
  lemma {:induction false} FoldIsLastMax(keys: seq<seq<int>>, data: seq<seq<int>>, r: nat, n: nat)
    requires |keys| == |data| && (forall j: nat :: j < |keys| ==> r < |keys[j]| == |data[j]|) && 0 < n <= |keys|
    ensures var c := LastMax(Column(keys, r), 0, n);
      Seg(BetterOf(), CandidatesAt(keys, data, r), 0, n) == Candidate(keys[c][r], c, data[c][r])
  {
    if n > 1 {
      FoldIsLastMax(keys, data, r, n - 1);
    }
  }

  lemma TreeIsLastMax(keys: seq<seq<int>>, data: seq<seq<int>>, r: nat)
    requires |keys| == |data| > 0 && forall j: nat :: j < |keys| ==> r < |keys[j]| == |data[j]|
    ensures var c := LastMax(Column(keys, r), 0, |keys|);
      TreeReduce(BetterOf(), CandidatesAt(keys, data, r)) == Candidate(keys[c][r], c, data[c][r])
  {
    hide LastMax, TreeReduce, Seg, BetterOf, Column;
    BetterIsAssociative();
    TreeIsFold(BetterOf(), CandidatesAt(keys, data, r));
    FoldIsLastMax(keys, data, r, |keys|);
  }

  /** Lines 87-100, 345-346: the tree reduction of all attributes, row by row, finds for every row the last attribute with
      the greatest score, and its threshold. */
  method VectMax(n: nat, keys: seq<seq<int>>, data: seq<seq<int>>) returns (a: seq<int>, tt: seq<int>)
    requires |keys| == |data| > 0 && Columns(keys, n) && Columns(data, n)
    ensures |a| == |tt| == n
    ensures forall r: nat {:trigger a[r]} :: r < n ==> a[r] == LastMax(Column(keys, r), 0, |keys|)
    ensures forall r: nat {:trigger tt[r]} :: r < n ==> tt[r] == data[LastMax(Column(keys, r), 0, |keys|)][r]
  {
    hide LastMax, TreeReduce, BetterOf, Column;
    a, tt := [], [];
    for i := 0 to n
      invariant |a| == |tt| == i
      invariant forall r: nat {:trigger a[r]} :: r < i ==> a[r] == LastMax(Column(keys, r), 0, |keys|)
      invariant forall r: nat {:trigger tt[r]} :: r < i ==> tt[r] == data[LastMax(Column(keys, r), 0, |keys|)][r]
    {
      TreeIsLastMax(keys, data, i);
      var best := TreeReduce(BetterOf(), CandidatesAt(keys, data, i));
      a, tt := a + [best.attribute], tt + [best.threshold];
    }
  }

  lemma TopColumn(g: seq<Bit>, s: seq<seq<int>>, tops: seq<seq<int>>, r: nat)
    requires Grouped(g) && Columns(s, |g|) && Columns(tops, |g|) && |tops| == |s| && r < |g|
    requires forall j: nat :: j < |s| ==> FromMax(g, s[j], s[j], tops[j])
    ensures Column(tops, r) == Tops(s, First(g, r), End(g, r))
  {
    hide First, End, LastMax;
    forall j: nat | j < |s| ensures tops[j][r] == s[j][LastMax(s[j], First(g, r), End(g, r))] {
      assert FromMax(g, s[j], s[j], tops[j]);
    }
  }

  /** Lines 294-299 and 345-353, from the scores on: every group gets the attribute with the best score and its threshold. */
  method GlobalTestSelection(g: seq<Bit>, s: seq<seq<int>>, t: seq<seq<int>>) returns (a: seq<int>, tt: seq<int>)
    requires Grouped(g) && |s| == |t| > 0 && Columns(s, |g|) && Columns(t, |g|)
    ensures |a| == |tt| == |g|
    ensures forall r: nat {:trigger a[r]} :: r < |g| ==> a[r] == BestAttribute(s, First(g, r), End(g, r))
    ensures forall r: nat {:trigger tt[r]} :: r < |g| ==> tt[r] == BestThreshold(s, t, First(g, r), End(g, r))
  {
    hide First, End, LastMax, Grouped, Column, Tops;
    var best, thresholds := [], [];
    for j := 0 to |s|
      invariant |best| == |thresholds| == j && Columns(best, |g|) && Columns(thresholds, |g|)
      invariant forall i: nat :: i < j ==> FromMax(g, s[i], s[i], best[i]) && FromMax(g, s[i], t[i], thresholds[i])
    {
      var max, values := GroupMax(g, s[j], [t[j]]);
      assert FromMax(g, s[j], [t[j]][0], values[0]);
      best, thresholds := best + [max], thresholds + [values[0]];
    }
    a, tt := VectMax(|g|, best, thresholds);
    GroupedHere(g);
    forall r: nat | r < |g|
      ensures a[r] == BestAttribute(s, First(g, r), End(g, r))
      ensures tt[r] == BestThreshold(s, t, First(g, r), End(g, r))
    {
      TopColumn(g, s, best, r);
      assert FromMax(g, s[a[r]], t[a[r]], thresholds[a[r]]);
    }
  }

  /** Lines 359-368 */
  method ChooseTests(y: seq<Bit>, g: seq<Bit>, s: seq<seq<int>>, t: seq<seq<int>>) returns (aid: seq<int>, threshold: seq<int>)
    requires Grouped(g) && |y| == |g| && |s| == |t| > 0 && Columns(s, |g|) && Columns(t, |g|)
    ensures aid == TestAids(g, y, s) && threshold == TestThresholds(g, y, s, t)
  {
    hide GroupSame, First, End, Pure, BestAttribute, BestThreshold;
    var a, tt := GlobalTestSelection(g, s, t);
    var same := GroupSame(g, y);
    forall r: nat | r < |g| ensures same[r] == 1 <==> Pure(y, First(g, r), End(g, r)) {
      GroupSameIsPure(g, y, r);
    }
    aid := seq(|g|, r requires 0 <= r < |g| == |a| == |same| => if same[r] == 1 then 0 else a[r]);
    threshold := seq(|g|, r requires 0 <= r < |g| == |tt| == |same| => if same[r] == 1 then MIN_VALUE else tt[r]);
  }

  // ----- the trainer -----

  function Cropped(nids: seq<seq<int>>, aids: seq<seq<int>>, thresholds: seq<seq<int>>, k: nat): (layers: seq<Layer>)
    requires k <= |nids| == |aids| == |thresholds|
    ensures |layers| == k
  {
    seq(k, i requires 0 <= i < k => Layer(CropLayer(i, nids[i]), CropLayer(i, aids[i]), CropLayer(i, thresholds[i])))
  }

  lemma NextCropped(nids: seq<seq<int>>, aids: seq<seq<int>>, thresholds: seq<seq<int>>, k: nat,
                    g: seq<Bit>, ids: seq<int>, aid: seq<int>, threshold: seq<int>)
    requires k < |nids| == |aids| == |thresholds| && |g| == |ids| == |aid| == |threshold|
    ensures Cropped(nids[k := FormatLayerWithoutCrop(g, ids)], aids[k := FormatLayerWithoutCrop(g, aid)],
                    thresholds[k := FormatLayerWithoutCrop(g, threshold)], k + 1)
      == Cropped(nids, aids, thresholds, k) + [LayerOf(k, g, ids, aid, threshold)]
  {
    hide FormatLayerWithoutCrop, CropLayer;
  }

  lemma StartsTrained(x: seq<seq<int>>, g: seq<Bit>, ids: seq<int>)
    requires |g| == |ids| > 0 && Columns(x, |g|)
    requires forall r: nat {:trigger g[r]} {:trigger ids[r]} :: r < |g| ==> ids[r] == 1 && g[r] == if r == 0 then 1 else 0
    ensures Trained([], x, g, ids)
  {
    forall r: nat | r < |g| ensures g[r] == 1 <==> IsNew(ids, r) {
      assert ids[0] == 1;
    }
  }

  /** What training has before a layer: examples, first rows of the groups, and the node of every row. */
  datatype State = State(x: seq<seq<int>>, y: seq<Bit>, g: seq<Bit>, ids: seq<int>)

  /** Lines 401-408: all examples are in one group, at node 1. */
  ghost predicate IsStart(a: State, x: seq<seq<int>>, y: seq<Bit>) {
    && a.x == x && a.y == y && |a.g| == |a.ids| == |y|
    && forall r: nat {:trigger a.g[r]} {:trigger a.ids[r]} :: r < |y| ==> a.ids[r] == 1 && a.g[r] == if r == 0 then 1 else 0
  }

  ghost predicate Ready(a: State, s: seq<seq<int>>, t: seq<seq<int>>) {
    && Grouped(a.g) && |a.y| == |a.g| == |a.ids| && Columns(a.x, |a.g|)
    && |s| == |t| == |a.x| > 0 && Columns(s, |a.g|) && Columns(t, |a.g|)
  }

  /** In every group the tests are those of the greatest score, or the one for a single label. */
  ghost predicate IsLayer(l: Layer, k: nat, a: State, s: seq<seq<int>>, t: seq<seq<int>>) {
    Ready(a, s, t) && l == LayerOf(k, a.g, a.ids, TestAids(a.g, a.y, s), TestThresholds(a.g, a.y, s, t))
  }

  /** After the layer, rows are at the child that the test tells, and sorted by it. */
  ghost predicate IsNext(b: State, k: nat, a: State, s: seq<seq<int>>, t: seq<seq<int>>) {
    && Ready(a, s, t)
    && var test := ApplyTests(a.x, TestAids(a.g, a.y, s), TestThresholds(a.g, a.y, s, t));
    b == State(ApplyAll(test, a.x), Apply(test, a.y), Apply(test, NewMarks(a.g, test)), Apply(test, Split(a.ids, test, k)))
  }

  /** The states of a whole training, and the tree that comes of it. */
  ghost predicate IsTraining(states: seq<State>, layers: seq<Layer>, s: seq<seq<seq<int>>>, t: seq<seq<seq<int>>>) {
    && |layers| <= |s| == |t| && |states| == |layers| + 1
    && forall k: nat {:trigger layers[k]} :: k < |layers| ==>
      IsLayer(layers[k], k, states[k], s[k], t[k]) && IsNext(states[k + 1], k, states[k], s[k], t[k])
  }

  /** Lines 211-215 and 462-468: the leaves are the nodes of the groups, with their labels. */
  ghost predicate HasLeaves(tree: Tree, h: nat, a: State) {
    && |a.y| == |a.g| == |a.ids|
    && tree.leaves == FormatLayer(h, a.g, a.ids) && tree.labels == FormatLayer(h, a.g, LeafLabels(a.g, a.y))
  }

  lemma TrainingNext(states: seq<State>, layers: seq<Layer>, s: seq<seq<seq<int>>>, t: seq<seq<seq<int>>>, l: Layer, b: State)
    requires IsTraining(states, layers, s, t) && |layers| < |s|
    requires IsLayer(l, |layers|, states[|layers|], s[|layers|], t[|layers|])
    requires IsNext(b, |layers|, states[|layers|], s[|layers|], t[|layers|])
    ensures IsTraining(states + [b], layers + [l], s, t)
  {
    hide IsLayer, IsNext;
    var all, more := states + [b], layers + [l];
    forall k: nat | k < |more| ensures IsLayer(more[k], k, all[k], s[k], t[k]) && IsNext(all[k + 1], k, all[k], s[k], t[k]) {
      if k < |layers| {
        assert more[k] == layers[k];
      }
    }
  }

  /** Lines 232-468 */
  class TreeTrainer {
    var x: seq<seq<int>>
    var y: seq<Bit>
    var g: seq<Bit>
    var NID: seq<int>
    var nids: seq<seq<int>>
    var aids: seq<seq<int>>
    var thresholds: seq<seq<int>>

    ghost predicate Valid(k: nat)
      reads this
    {
      && |x| > 0 && |y| == |NID| && Columns(x, |y|)
      && k <= |nids| == |aids| == |thresholds| && Trained(Cropped(nids, aids, thresholds, k), x, g, NID)
    }

    ghost function Layers(k: nat): seq<Layer>
      requires k <= |nids| == |aids| == |thresholds|
      reads this
    {
      Cropped(nids, aids, thresholds, k)
    }

    ghost function Now(): State
      reads this
    {
      State(x, y, g, NID)
    }

    ghost function Examples(): seq<Example>
      requires Columns(x, |y|)
      reads this
    {
      Rows(x, y)
    }

    /** Lines 401-430 */
    constructor (x: seq<seq<int>>, y: seq<Bit>, h: nat)
      requires |x| > 0 && |y| > 0 && Columns(x, |y|)
      ensures Valid(0) && IsStart(Now(), x, y) && |nids| == h
    {
      this.x, this.y := x, y;
      this.g := [1] + seq<Bit>(|y| - 1, _ => 0);
      this.NID := seq(|y|, _ => 1);
      var unset := seq(h, _ => seq(|y|, _ => 0));
      this.nids, this.aids, this.thresholds := unset, unset, unset;
      new;
      StartsTrained(x, g, NID);
      assert Cropped(nids, aids, thresholds, 0) == [];
    }

    /** Lines 375-399, with the scores `s` and thresholds `t` of the candidate tests given. */
    method TrainLayer(k: nat, s: seq<seq<int>>, t: seq<seq<int>>)
      requires Valid(k) && k < |nids| && |s| == |t| == |x| && Columns(s, |y|) && Columns(t, |y|)
      modifies this
      ensures Valid(k + 1) && |x| == old(|x|) && |y| == old(|y|) && |nids| == old(|nids|)
      ensures multiset(Examples()) == old(multiset(Examples()))
      ensures IsNext(Now(), k, old(Now()), s, t)
      ensures |Layers(k + 1)| == k + 1 && Layers(k + 1) == old(Layers(k)) + [Layers(k + 1)[k]] && IsLayer(Layers(k + 1)[k], k, old(Now()), s, t)
    {
      hide Columns, Grouped, Trained, Cropped, LayerOf, FormatLayerWithoutCrop, ApplyTests, ApplyAll, NewMarks, Split, Apply,
        TestAids, TestThresholds, PerGroup, Rows;
      ghost var layers := Layers(k);
      TrainedShape(layers, x, g, NID);
      ColumnsAre(x, |y|);
      var aid, threshold := ChooseTests(y, g, s, t);
      var b := ApplyTests(x, aid, threshold);
      NextCropped(nids, aids, thresholds, k, g, NID, aid, threshold);
      TestsPerGroup(g, y, s, t);
      LayerKeepsTrained(layers, x, g, NID, aid, threshold);
      SortedRows(b, x, y);
      nids := nids[k := FormatLayerWithoutCrop(g, NID)];
      aids := aids[k := FormatLayerWithoutCrop(g, aid)];
      thresholds := thresholds[k := FormatLayerWithoutCrop(g, threshold)];
      NID := Split(NID, b, k);
      g := NewMarks(g, b);
      y, g, NID, x := Apply(b, y), Apply(b, g), Apply(b, NID), ApplyAll(b, x);
      TrainedShape(Layers(k + 1), x, g, NID);
    }

    /** At every depth there are at most as many groups as nodes. */
    lemma GroupsOfLayer(k: nat)
      requires Valid(k)
      ensures Grouped(g) && |Starts(g)| <= Pow2(k)
    {
      MarksGroup(g, NID);
      GroupsFit(g, NID, k);
    }

    /** Lines 462-468 and 211-215 */
    method GetTree(h: nat) returns (tree: Tree)
      requires Valid(h)
      ensures TreeShape(tree) && tree.layers == Layers(h) && |tree.leaves| <= Pow2(h) && HasLeaves(tree, h, Now())
      ensures forall r: nat :: r < |y| ==>
        Prediction(tree, Column(x, r)) == Majority(tree.layers, Examples(), Column(x, r))
    {
      hide Trained, Columns, Cropped, FormatLayer, LeafLabels, Majority, Prediction, Column, Rows;
      ColumnsAre(x, |y|);
      TrainedShape(Layers(h), x, g, NID);
      var labels := LeafLabels(g, y);
      tree := Tree(Cropped(nids, aids, thresholds, h), FormatLayer(h, g, NID), FormatLayer(h, g, labels));
      TrainedRowIsPredicted(tree.layers, x, y, g, NID, tree, 0);
      forall r: nat | r < |y| ensures Prediction(tree, Column(x, r)) == Majority(tree.layers, Examples(), Column(x, r)) {
        TrainedRowIsPredicted(tree.layers, x, y, g, NID, tree, r);
      }
    }

    /** Lines 432-438: after training, every training example is sent to the majority label of its node. */
    method Train(s: seq<seq<seq<int>>>, t: seq<seq<seq<int>>>) returns (tree: Tree, ghost states: seq<State>)
      requires Valid(0) && |s| == |t| == |nids|
      requires forall k: nat :: k < |s| ==> |s[k]| == |t[k]| == |x| && Columns(s[k], |y|) && Columns(t[k], |y|)
      modifies this
      ensures |tree.layers| == |s| && TreeShape(tree)
      ensures IsTraining(states, tree.layers, s, t) && states[0] == old(Now()) && HasLeaves(tree, |s|, states[|s|])
      ensures forall e :: e in old(Examples()) ==> Prediction(tree, e.data) == Majority(tree.layers, old(Examples()), e.data)
    {
      hide Trained, Columns, Cropped, Majority, Prediction, Column, ApplyTests, ApplyAll, NewMarks, Split, TestAids, TestThresholds,
        LayerOf, IsNext, IsLayer, HasLeaves;
      var h := |nids|;
      states := [Now()];
      for k := 0 to h
        invariant Valid(k) && |nids| == h && |x| == old(|x|) && |y| == old(|y|)
        invariant multiset(Examples()) == old(multiset(Examples()))
        invariant |states| == k + 1 && states[0] == old(Now()) && states[k] == Now() && IsTraining(states, Layers(k), s, t)
      {
        ghost var layers := Layers(k);
        TrainLayer(k, s[k], t[k]);
        TrainingNext(states, layers, s, t, Layers(k + 1)[k], Now());
        states := states + [Now()];
      }
      tree := GetTree(h);
      forall e | e in old(Examples()) ensures Prediction(tree, e.data) == Majority(tree.layers, old(Examples()), e.data) {
        assert e in multiset(Examples());
        assert e in Examples();
        SameMajority(tree.layers, Examples(), old(Examples()), e.data);
      }
    }
  }

  lemma SameMajority(layers: seq<Layer>, a: seq<Example>, b: seq<Example>, data: seq<int>)
    requires Shaped(layers) && multiset(a) == multiset(b)
    ensures Majority(layers, a, data) == Majority(layers, b, data)
  {
    SameRowsSameCount(layers, a, b, Walk(layers, data), 0);
    SameRowsSameCount(layers, a, b, Walk(layers, data), 1);
  }

  lemma ColumnsAre(x: seq<seq<int>>, n: nat)
    ensures Columns(x, n) <==> forall j: nat :: j < |x| ==> |x[j]| == n
  {
  }

  lemma TrainedShape(layers: seq<Layer>, x: seq<seq<int>>, g: seq<Bit>, ids: seq<int>)
    requires Trained(layers, x, g, ids)
    ensures Grouped(g) && |g| == |ids| && Columns(x, |ids|)
  {
    MarksGroup(g, ids);
  }

  /** Lines 470-471 and 493-518: a tree trained with any scores answers every training example with the majority label of the
      examples at its node. */
  method TrainAndRun(x: seq<seq<int>>, y: seq<Bit>, s: seq<seq<seq<int>>>, t: seq<seq<seq<int>>>, r: nat)
    returns (tree: Tree, guess: int, ghost states: seq<State>)
    requires |x| > 0 && Columns(x, |y|) && r < |y| && |s| == |t|
    requires forall k: nat :: k < |s| ==> |s[k]| == |t[k]| == |x| && Columns(s[k], |y|) && Columns(t[k], |y|)
    ensures |tree.layers| == |s| && TreeShape(tree)
    ensures IsTraining(states, tree.layers, s, t) && IsStart(states[0], x, y) && HasLeaves(tree, |s|, states[|s|])
    ensures guess == Prediction(tree, Column(x, r)) == Majority(tree.layers, Rows(x, y), Column(x, r))
  {
    hide Majority, Prediction, Column, Trained, Cropped, HasLeaves, IsLayer, IsNext;
    var trainer := new TreeTrainer(x, y, |s|);
    tree, states := trainer.Train(s, t);
    guess := RunDecisionTree(tree, Column(x, r));
    assert Rows(x, y)[r] in Rows(x, y);
  }
}
