/** Compiler/circuit_oram.py: eviction along one path of Circuit ORAM. Level 0 is the stash, level 1 the root and
    level D + 1 the leaf. A tree node is named by the bits that lead to it. */
module CircuitOram {
  import opened Powers
  import opened Bits
  import opened OramDepths

  datatype Block = Block(index: nat, leaf: seq<Bit>, data: int)
  datatype Slot = Empty | Full(block: Block)
  type Bucket = seq<Slot>

  /** The secret-or-empty level numbers of the plan. */
  datatype Value = None | Some(level: nat)

  // ----- blocks, buckets and paths -----

  ghost predicate IsEmpty(b: Bucket) {
    forall k: nat :: k < |b| ==> b[k].Empty?
  }

  ghost predicate HasEmpty(b: Bucket) {
    exists k: nat :: k < |b| && b[k].Empty?
  }

  ghost function Blocks(b: Bucket): multiset<Block> {
    if b == [] then multiset{} else Blocks(b[..|b| - 1]) + OfSlot(b[|b| - 1])
  }

  function OfSlot(s: Slot): multiset<Block> {
    if s.Full? then multiset{s.block} else multiset{}
  }

  ghost function Total(levels: seq<Bucket>): multiset<Block> {
    if levels == [] then multiset{} else Total(levels[..|levels| - 1]) + Blocks(levels[|levels| - 1])
  }

  lemma Regroup<T>(a: multiset<T>, b: multiset<T>, x: multiset<T>, y: multiset<T>, z: multiset<T>)
    requires a + y == b + z
    ensures (a + x) + y == (b + x) + z
  {
    assert (a + x) + y == (a + y) + x;
  }

  lemma {:induction false} BlocksUpdate(b: Bucket, k: nat, s: Slot)
    requires k < |b|
    ensures Blocks(b[k := s]) + OfSlot(b[k]) == Blocks(b) + OfSlot(s)
  {
    hide OfSlot;
    var last, c := |b| - 1, b[k := s];
    if k < last {
      BlocksUpdate(b[..last], k, s);
      assert c[..last] == b[..last][k := s] && c[last] == b[last];
      Regroup(Blocks(c[..last]), Blocks(b[..last]), OfSlot(b[last]), OfSlot(b[k]), OfSlot(s));
    } else {
      assert c[..last] == b[..last];
    }
    assert Blocks(c) == Blocks(c[..last]) + OfSlot(c[last]);
  }

  lemma {:induction false} TotalUpdate(levels: seq<Bucket>, i: nat, b: Bucket)
    requires i < |levels|
    ensures Total(levels[i := b]) + Blocks(levels[i]) == Total(levels) + Blocks(b)
  {
    hide Blocks;
    var last, c := |levels| - 1, levels[i := b];
    if i < last {
      TotalUpdate(levels[..last], i, b);
      assert c[..last] == levels[..last][i := b] && c[last] == levels[last];
      Regroup(Total(c[..last]), Total(levels[..last]), Blocks(levels[last]), Blocks(levels[i]), Blocks(b));
    } else {
      assert c[..last] == levels[..last];
    }
    assert Total(c) == Total(c[..last]) + Blocks(c[last]);
  }

  /** How many bits the block's leaf shares with the path. */
  function Common(b: Block, path: seq<Bit>): nat
    requires |b.leaf| == |path|
  {
    Agree(b.leaf, path, 0)
  }

  /** A block may stay at `level` of the path when the path to its own leaf passes through that node. */
  ghost predicate MayStay(b: Block, path: seq<Bit>, level: nat) {
    |b.leaf| == |path| && (level > 0 ==> level - 1 <= |path| && b.leaf[..level - 1] == path[..level - 1])
  }

  lemma MayStayIsCommon(b: Block, path: seq<Bit>, level: nat)
    requires |b.leaf| == |path|
    ensures MayStay(b, path, level) <==> level <= Common(b, path) + 1
  {
    var d, f := Diff(b.leaf, path, 0), Common(b, path);
    assert f < |d| ==> b.leaf[f] != path[f];
    assert 0 < level && f < level - 1 <= |path| ==> b.leaf[..level - 1][f] == b.leaf[f] && path[..level - 1][f] == path[f];
    if 0 < level <= f + 1 {
      forall k: nat | k < level - 1 ensures b.leaf[k] == path[k] {
        assert d[k] == 0;
      }
    }
  }

  lemma {:induction false} FirstAfterZeros(d: seq<Bit>, n: nat)
    requires n <= |d| && forall k: nat :: k < n ==> d[k] == 0
    ensures FirstOne(d) == n + FirstOne(d[n..])
  {
    if n > 0 {
      FirstAfterZeros(d[1..], n - 1);
      assert d[1..][n - 1..] == d[n..];
    }
  }

  lemma AgreeFrom(leaf: seq<Bit>, path: seq<Bit>, start: nat)
    requires |leaf| == |path| && start <= |path| && leaf[..start] == path[..start]
    ensures start + Agree(leaf, path, start) == Agree(leaf, path, 0)
  {
    var d, e := Diff(leaf, path, start), Diff(leaf, path, 0);
    forall k: nat | k < start ensures e[k] == 0 {
      assert leaf[..start][k] == path[..start][k];
    }
    assert d == e[start..];
    FirstAfterZeros(e, start);
  }

  // ----- where a node is kept -----

  /** A path as a number, highest bit first. */
  function PathNumber(path: seq<Bit>): nat {
    if path == [] then 0 else 2 * PathNumber(path[..|path| - 1]) + path[|path| - 1] as nat
  }

  /** Lines 132-134 */
  function RamIndex(path: seq<Bit>, level: nat): nat
    requires 0 < level <= |path| + 1
  {
    (Pow2(|path|) + PathNumber(path)) / Pow2(|path| - (level - 1))
  }

  lemma {:induction false} IndexOfPrefix(path: seq<Bit>, n: nat)
    requires n <= |path|
    ensures (Pow2(|path|) + PathNumber(path)) / Pow2(|path| - n) == Pow2(n) + PathNumber(path[..n])
    decreases |path|
  {
    if n < |path| {
      var last := |path| - 1;
      IndexOfPrefix(path[..last], n);
      var x, p := Pow2(|path|) + PathNumber(path), Pow2(last - n);
      assert x / 2 == Pow2(last) + PathNumber(path[..last]);
      assert Pow2(|path| - n) == 2 * p;
      assert path[..last][..n] == path[..n];
      hide Pow2, PathNumber;
      HalfOfHalves(x, p);
    } else {
      assert path[..n] == path;
    }
  }

  lemma {:induction false} PathNumberInjective(a: seq<Bit>, b: seq<Bit>)
    requires |a| == |b| && PathNumber(a) == PathNumber(b)
    ensures a == b
  {
    if a != [] {
      var last := |a| - 1;
      PathNumberInjective(a[..last], b[..last]);
      assert a == a[..last] + [a[last]] && b == b[..last] + [b[last]];
    }
  }

  /** Two paths use the same bucket of a level exactly if they begin with the same bits, so buckets may be named
      by those bits. */
  lemma SameIndexSamePrefix(a: seq<Bit>, b: seq<Bit>, level: nat)
    requires |a| == |b| && 0 < level <= |a| + 1
    ensures RamIndex(a, level) == RamIndex(b, level) <==> a[..level - 1] == b[..level - 1]
  {
    IndexOfPrefix(a, level - 1);
    IndexOfPrefix(b, level - 1);
    if RamIndex(a, level) == RamIndex(b, level) {
      PathNumberInjective(a[..level - 1], b[..level - 1]);
    }
  }

  // ----- plans -----

  /** Slot `k` of level `s` holds a block that may stay at level `t`. */
  ghost predicate CanMove(levels: seq<Bucket>, path: seq<Bit>, s: nat, k: nat, t: nat) {
    s < |levels| && k < |levels[s]| && levels[s][k].Full? && MayStay(levels[s][k].block, path, t)
  }

  ghost predicate NothingFor(levels: seq<Bucket>, path: seq<Bit>, t: nat)
    requires t <= |levels|
  {
    forall s: nat, k: nat {:trigger levels[s][k]} :: s < t && k < |levels[s]| && levels[s][k].Full? ==> !MayStay(levels[s][k].block, path, t)
  }

  /** No block above level i goes further than the one in slot `k` of level `s`, and none above level `s` as far. */
  ghost predicate Furthest(levels: seq<Bucket>, path: seq<Bit>, s: nat, k: nat, i: nat)
    requires i <= |levels| && CanMove(levels, path, s, k, i)
  {
    forall u: nat, v: nat {:trigger levels[u][v]} :: u < i && v < |levels[u]| && levels[u][v].Full? && |levels[u][v].block.leaf| == |path| ==>
      && Common(levels[u][v].block, path) <= Common(levels[s][k].block, path)
      && (u < s ==> Common(levels[u][v].block, path) < Common(levels[s][k].block, path))
  }

  /** `deepest[i]` names the block above level i that goes furthest of those that may go there, the topmost of several, and is
      empty only if there is none. */
  ghost predicate DeepestOk(levels: seq<Bucket>, path: seq<Bit>, deepest: seq<Value>, index: seq<nat>) {
    && |deepest| == |index| == |levels|
    && (forall i: nat :: 1 <= i < |levels| && deepest[i].Some? ==>
      deepest[i].level < i && CanMove(levels, path, deepest[i].level, index[i], i) && Furthest(levels, path, deepest[i].level, index[i], i))
    && (forall i: nat :: 1 <= i < |levels| && deepest[i].None? ==> NothingFor(levels, path, i))
  }

  /** Moves go down to places that are free or become free; between its ends a move passes no other move's start. */
  ghost predicate Planned(levels: seq<Bucket>, path: seq<Bit>, target: seq<Value>, index: seq<nat>, i: nat) {
    && |target| == |index| == |levels| && i < |levels|
    && (target[i].Some? ==>
         && i < target[i].level < |levels| && CanMove(levels, path, i, index[i], target[i].level)
         && (forall j: nat :: i < j < target[i].level ==> target[j].None?)
         && (HasEmpty(levels[target[i].level]) || target[target[i].level].Some?))
  }

  ghost predicate TargetOk(levels: seq<Bucket>, path: seq<Bit>, target: seq<Value>, index: seq<nat>) {
    |target| == |index| == |levels| && forall i: nat :: i < |levels| ==> Planned(levels, path, target, index, i)
  }

  ghost predicate EndsAt(target: seq<Value>, s: nat, i: nat) {
    s < i && s < |target| && target[s] == Some(i)
  }

  /** A move from above level i to a level below it. */
  ghost predicate Crosses(target: seq<Value>, s: nat, i: nat) {
    s < i && s < |target| && target[s].Some? && target[s].level > i
  }

  /** Some move ends at level i just when there is a block for it above, a place that is free or becomes free, and no other move
      goes past; and then it is the deepest block that moves. */
  ghost predicate Exact(levels: seq<Bucket>, deepest: seq<Value>, deepestIndex: seq<nat>, target: seq<Value>, index: seq<nat>, i: nat) {
    && |deepest| == |deepestIndex| == |target| == |index| == |levels| && i < |levels|
    && ((exists s: nat :: EndsAt(target, s, i)) <==>
      deepest[i].Some? && (HasEmpty(levels[i]) || target[i].Some?) && !exists s: nat :: Crosses(target, s, i))
    && (forall s: nat :: EndsAt(target, s, i) ==> deepest[i] == Some(s) && index[s] == deepestIndex[i])
  }

  ghost predicate TargetsExact(levels: seq<Bucket>, deepest: seq<Value>, deepestIndex: seq<nat>, target: seq<Value>, index: seq<nat>) {
    forall i: nat :: 1 <= i < |levels| ==> Exact(levels, deepest, deepestIndex, target, index, i)
  }

  // ----- the deepest blocks -----

  /** The running choice of lines 149-169: how deep the best block so far may go, in bits, and where it is. */
  datatype Best = Best(goal: seq<Bit>, src: Value, index: nat)

  function Candidates(b: Bucket, d: nat): (c: seq<Candidate>)
    ensures |c| == |b|
  {
    seq(|b|, k requires 0 <= k < |b| => match b[k] case Empty => Candidate(seq(d, _ => 0), 1) case Full(x) => Candidate(x.leaf, 0))
  }

  /** Every block of the bucket may stay where it is. */
  ghost predicate Placed(b: Bucket, path: seq<Bit>, level: nat) {
    forall k: nat :: k < |b| && b[k].Full? ==> MayStay(b[k].block, path, level)
  }

  /** The best block of the levels up to `i`. */
  ghost predicate BestOk(levels: seq<Bucket>, path: seq<Bit>, w: nat, i: nat, best: Best) {
    && |best.goal| == w && i < |levels| && Num(best.goal) <= |path| + 1
    && (best.src.None? <==> Num(best.goal) == 0)
    && (best.src.Some? ==> best.src.level <= i && CanMove(levels, path, best.src.level, best.index, Num(best.goal)))
    && (best.src.Some? ==> forall s: nat, k: nat {:trigger levels[s][k]} ::
      s < best.src.level && k < |levels[s]| && levels[s][k].Full? ==> !MayStay(levels[s][k].block, path, Num(best.goal)))
    && NoneBeyond(levels, path, i, Num(best.goal))
  }

  ghost predicate NoneBeyond(levels: seq<Bucket>, path: seq<Bit>, i: nat, goal: nat)
    requires i < |levels|
  {
    forall s: nat, k: nat {:trigger levels[s][k]} :: s <= i && k < |levels[s]| && levels[s][k].Full? ==> !MayStay(levels[s][k].block, path, goal + 1)
  }

  /** What line 150 or 157 finds in one bucket. */
  method DeepestOf(b: Bucket, path: seq<Bit>, level: nat, w: nat) returns (goal: seq<Bit>, index: nat)
    requires |b| > 1 && level <= |path| && Placed(b, path, level) && |path| + 2 <= Pow2(w)
    ensures |goal| == w && index < |b| && 0 < Num(goal) <= |path| + 1
    ensures !IsEmpty(b) ==> b[index].Full? && MayStay(b[index].block, path, Num(goal))
    ensures !IsEmpty(b) ==> forall k: nat :: k < |b| && b[k].Full? ==> !MayStay(b[k].block, path, Num(goal) + 1)
  {
    hide *;
    var start := if level == 0 then 0 else level - 1;
    var paths := Candidates(b, |path|);
    CandidatesFit(b, path, level);
    var (levelBits, winner, i) := FindDeepest(paths, path, start);
    DeepestWins(paths, path, start);
    DeepestLevel(paths, path, start);
    var depth := WeightedSum(levelBits, 0);
    WeightedOneHot(|path| + 1, start + Agree(winner.leaf, path, start), 0);
    goal, index := BitsOf(depth, w), i;
    NumOfBits(depth, w);
    DeepestIsFurthest(b, paths, winner, i, path, level, start, depth);
  }

  lemma CandidatesFit(b: Bucket, path: seq<Bit>, level: nat)
    requires Placed(b, path, level)
    ensures Fit(Candidates(b, |path|), path)
  {
  }

  lemma DeepestIsFurthest(b: Bucket, paths: seq<Candidate>, winner: Candidate, i: nat, path: seq<Bit>, level: nat, start: nat, depth: nat)
    requires level <= |path| && Placed(b, path, level) && start == (if level == 0 then 0 else level - 1)
    requires paths == Candidates(b, |path|) && Fit(paths, path) && i < |b| && winner == paths[i] && IsDeepest(paths, winner, path, start)
    requires depth == start + Agree(winner.leaf, path, start) + 1
    ensures !IsEmpty(b) ==> b[i].Full? && MayStay(b[i].block, path, depth)
    ensures !IsEmpty(b) ==> forall k: nat :: k < |b| && b[k].Full? ==> !MayStay(b[k].block, path, depth + 1)
  {
    hide Agree;
    forall k: nat | k < |b| && b[k].Full?
      ensures winner.empty == 0 && |b[k].block.leaf| == |path|
      ensures start + Agree(b[k].block.leaf, path, start) == Common(b[k].block, path) <= start + Agree(winner.leaf, path, start) {
      assert MayStay(b[k].block, path, level) && paths[k].empty == 0;
      AgreeFrom(b[k].block.leaf, path, start);
    }
    forall k: nat | k < |b| && b[k].Full? ensures !MayStay(b[k].block, path, depth + 1) {
      MayStayIsCommon(b[k].block, path, depth + 1);
    }
    if !IsEmpty(b) {
      var k: nat :| k < |b| && b[k].Full?;
      assert paths[k].empty == 0;
      MayStayIsCommon(b[i].block, path, depth);
    }
  }

  /** Lines 159-168: takes the bucket's block if it goes further. */
  method Step(best: Best, l: seq<Bit>, index: nat, i: nat, bucketEmpty: bool, ghost levels: seq<Bucket>, ghost path: seq<Bit>)
    returns (next: Best)
    requires 0 < i < |levels| && |l| > 0 && BestOk(levels, path, |l|, i - 1, best) && bucketEmpty == IsEmpty(levels[i])
    requires index < |levels[i]| && 0 < Num(l) <= |path| + 1
    requires !bucketEmpty ==> levels[i][index].Full? && MayStay(levels[i][index].block, path, Num(l))
    requires !bucketEmpty ==> forall k: nat :: k < |levels[i]| && levels[i][k].Full? ==> !MayStay(levels[i][k].block, path, Num(l) + 1)
    ensures BestOk(levels, path, |l|, i, next)
  {
    hide CompBinary, Num, MayStay;
    var (high, low) := CompBinary(l, best.goal);
    CompBinaryCompares(l, best.goal);
    var replace := high == 1 && low == 0 && !bucketEmpty;
    next := Best(if replace then l else best.goal, if replace then Some(i) else best.src, if replace then index else best.index);
    MayStayLess(levels, path, i);
  }

  lemma MayStayLess(levels: seq<Bucket>, path: seq<Bit>, i: nat)
    requires i < |levels|
    ensures forall s: nat, k: nat, a: nat, b: nat {:trigger MayStay(levels[s][k].block, path, a), MayStay(levels[s][k].block, path, b)} ::
      s <= i && k < |levels[s]| && levels[s][k].Full? && a <= b && MayStay(levels[s][k].block, path, b) ==> MayStay(levels[s][k].block, path, a)
  {
    forall s: nat, k: nat, a: nat, b: nat | s <= i && k < |levels[s]| && levels[s][k].Full? && a <= b && MayStay(levels[s][k].block, path, b)
      ensures MayStay(levels[s][k].block, path, a) {
      MayStayIsCommon(levels[s][k].block, path, a);
      MayStayIsCommon(levels[s][k].block, path, b);
    }
  }

  method BucketIsEmpty(b: Bucket) returns (empty: bool)
    ensures empty == IsEmpty(b)
  {
    empty := forall k :: 0 <= k < |b| ==> b[k].Empty?;
  }

  /** All levels of a path hold only blocks that may stay there, and no bucket is trivial. */
  ghost predicate WellPlaced(levels: seq<Bucket>, path: seq<Bit>) {
    |levels| == |path| + 2 && forall i: nat :: i < |levels| ==> |levels[i]| > 1 && Placed(levels[i], path, i)
  }

  /** Lines 145-176, for a counter of `w` bits. */
  method PrepareDeepest(levels: seq<Bucket>, path: seq<Bit>, w: nat) returns (deepest: seq<Value>, deepestIndex: seq<nat>)
    requires WellPlaced(levels, path) && w > 0 && |levels| <= Pow2(w)
    ensures DeepestOk(levels, path, deepest, deepestIndex)
  {
    hide DeepestOk, BestOk, CompBinary, Num, MayStay, IsEmpty, BitsOf, Placed;
    var last := |levels| - 1;
    var goal, index := DeepestOf(levels[0], path, 0, w);
    var stashEmpty := BucketIsEmpty(levels[0]);
    var best := if stashEmpty then Best(seq(w, _ => 0), None, 0) else Best(goal, Some(0), index);
    FirstBest(levels, path, goal, index, best);
    var bests := [best];
    for i := 1 to last
      invariant |bests| == i && forall j: nat :: j < i ==> BestOk(levels, path, w, j, bests[j])
    {
      var l, at := DeepestOf(levels[i], path, i, w);
      var empty := BucketIsEmpty(levels[i]);
      best := Step(bests[i - 1], l, at, i, empty, levels, path);
      bests := bests + [best];
    }
    deepest, deepestIndex := [None], [0];
    for i := 1 to last + 1
      invariant |deepest| == |deepestIndex| == i
      invariant forall j: nat :: 1 <= j < i ==> DeepestAt(levels, path, deepest[j], deepestIndex[j], j)
    {
      best := bests[i - 1];
      BestSizes(levels, path, w, i - 1, best);
      NumOfBits(i, w);
      CompBinaryCompares(best.goal, BitsOf(i, w));
      var (high, low) := CompBinary(best.goal, BitsOf(i, w));
      var cond := !(low == 1 && high == 0);
      deepest := deepest + [if cond then best.src else None];
      deepestIndex := deepestIndex + [if cond then best.index else 0];
      ReachesOrNot(levels, path, w, i, best);
    }
    AllDeepest(levels, path, deepest, deepestIndex);
  }

  ghost predicate DeepestAt(levels: seq<Bucket>, path: seq<Bit>, d: Value, k: nat, i: nat) {
    && 1 <= i < |levels|
    && (d.Some? ==> d.level < i && CanMove(levels, path, d.level, k, i) && Furthest(levels, path, d.level, k, i))
    && (d.None? ==> NothingFor(levels, path, i))
  }

  lemma AllDeepest(levels: seq<Bucket>, path: seq<Bit>, deepest: seq<Value>, index: seq<nat>)
    requires |deepest| == |index| == |levels|
    requires forall j: nat :: 1 <= j < |levels| ==> DeepestAt(levels, path, deepest[j], index[j], j)
    ensures DeepestOk(levels, path, deepest, index)
  {
    hide CanMove, NothingFor, Furthest;
    forall i: nat | 1 <= i < |levels|
      ensures deepest[i].Some? ==>
        deepest[i].level < i && CanMove(levels, path, deepest[i].level, index[i], i) && Furthest(levels, path, deepest[i].level, index[i], i)
      ensures deepest[i].None? ==> NothingFor(levels, path, i) {
      assert DeepestAt(levels, path, deepest[i], index[i], i);
    }
  }

  lemma FirstBest(levels: seq<Bucket>, path: seq<Bit>, goal: seq<Bit>, index: nat, best: Best)
    requires |levels| > 1 && |goal| > 0 && 0 < Num(goal) <= |path| + 1
    requires !IsEmpty(levels[0]) ==> index < |levels[0]| && levels[0][index].Full? && MayStay(levels[0][index].block, path, Num(goal))
    requires !IsEmpty(levels[0]) ==> forall k: nat :: k < |levels[0]| && levels[0][k].Full? ==> !MayStay(levels[0][k].block, path, Num(goal) + 1)
    requires best == if IsEmpty(levels[0]) then Best(seq(|goal|, _ => 0), None, 0) else Best(goal, Some(0), index)
    ensures BestOk(levels, path, |goal|, 0, best)
  {
    hide MayStay;
    ZeroNum(|goal|);
  }

  lemma {:induction false} ZeroNum(n: nat)
    ensures Num(seq(n, _ => 0)) == 0
  {
    if n > 0 {
      ZeroNum(n - 1);
      assert seq(n, _ => 0)[1..] == seq(n - 1, _ => 0);
    }
  }

  lemma BestSizes(levels: seq<Bucket>, path: seq<Bit>, w: nat, i: nat, best: Best)
    requires BestOk(levels, path, w, i, best)
    ensures |best.goal| == w
  {
  }

  lemma ReachesOrNot(levels: seq<Bucket>, path: seq<Bit>, w: nat, i: nat, best: Best)
    requires 1 <= i < |levels| && BestOk(levels, path, w, i - 1, best)
    ensures Num(best.goal) >= i ==> DeepestAt(levels, path, best.src, best.index, i)
    ensures Num(best.goal) < i ==> DeepestAt(levels, path, None, 0, i)
  {
    hide MayStay, Num, Common;
    MayStayLess(levels, path, i - 1);
    if Num(best.goal) >= i {
      BestIsFurthest(levels, path, w, i, best);
    }
  }

  lemma BestIsFurthest(levels: seq<Bucket>, path: seq<Bit>, w: nat, i: nat, best: Best)
    requires 1 <= i < |levels| && BestOk(levels, path, w, i - 1, best) && Num(best.goal) >= i
    ensures best.src.Some? && CanMove(levels, path, best.src.level, best.index, i) && Furthest(levels, path, best.src.level, best.index, i)
  {
    hide MayStay, Num, Common;
    MayStayLess(levels, path, i - 1);
    var goal, s, k := Num(best.goal), best.src.level, best.index;
    var c := levels[s][k].block;
    assert |c.leaf| == |path| by {
      MayStaySize(c, path, goal);
    }
    MayStayIsCommon(c, path, goal);
    forall u: nat, v: nat | u < i && v < |levels[u]| && levels[u][v].Full? && |levels[u][v].block.leaf| == |path|
      ensures Common(levels[u][v].block, path) <= Common(c, path)
      ensures u < s ==> Common(levels[u][v].block, path) < Common(c, path) {
      MayStayIsCommon(levels[u][v].block, path, goal + 1);
      MayStayIsCommon(levels[u][v].block, path, goal);
    }
  }

  lemma MayStaySize(b: Block, path: seq<Bit>, level: nat)
    requires MayStay(b, path, level)
    ensures |b.leaf| == |path|
  {
  }

  // ----- the plan -----

  /** What is decided above level i when level i is next: a pending move from `src` to `dest`, or none. */
  ghost predicate Pending(levels: seq<Bucket>, path: seq<Bit>, target: seq<Value>, src: Value, index: nat, dest: Value, i: int) {
    && |target| == |levels| && -1 <= i < |levels|
    && (src.None? <==> dest.None?)
    && (src.Some? ==>
         && src.level <= i < dest.level < |levels| && CanMove(levels, path, src.level, index, dest.level)
         && (forall j: nat :: i < j < dest.level ==> target[j].None?)
         && (HasEmpty(levels[dest.level]) || target[dest.level].Some?))
  }

  /** The moves planned so far, from level i + 1 down. */
  ghost predicate PlannedAbove(levels: seq<Bucket>, path: seq<Bit>, target: seq<Value>, index: seq<nat>, i: int) {
    |target| == |index| == |levels| && forall j: nat :: i < j < |levels| ==> Planned(levels, path, target, index, j)
  }

  lemma MoreTargets(levels: seq<Bucket>, path: seq<Bit>, target: seq<Value>, index: seq<nat>, i: nat, t: Value, k: nat)
    requires PlannedAbove(levels, path, target, index, i) && i < |levels|
    requires t.Some? ==> i < t.level < |levels| && CanMove(levels, path, i, k, t.level)
    requires t.Some? ==> (forall j: nat :: i < j < t.level ==> target[j].None?) && (HasEmpty(levels[t.level]) || target[t.level].Some?)
    ensures PlannedAbove(levels, path, target[i := t], index[i := k], i - 1)
  {
    var target', index' := target[i := t], index[i := k];
    forall j: nat | i - 1 < j < |levels| ensures Planned(levels, path, target', index', j) {
      assert j > i ==> Planned(levels, path, target, index, j);
    }
  }

  /** Levels below i are decided, with the pending move counted in. */
  ghost predicate Decided(levels: seq<Bucket>, deepest: seq<Value>, deepestIndex: seq<nat>, all: seq<Value>, allIndex: seq<nat>, i: int) {
    forall j: nat :: i < j < |levels| && 1 <= j ==> Exact(levels, deepest, deepestIndex, all, allIndex, j)
  }

  /** `all` are the targets so far and the pending move. */
  ghost predicate WithPending(target: seq<Value>, index: seq<nat>, src: Value, srcIndex: nat, dest: Value, all: seq<Value>, allIndex: seq<nat>) {
    && |target| == |index| == |all| == |allIndex| && (src.Some? ==> src.level < |target| && dest.Some?)
    && all == (if src.Some? then target[src.level := dest] else target)
    && allIndex == (if src.Some? then index[src.level := srcIndex] else index)
  }

  /** A new move to level i changes nothing for the levels below. */
  lemma DecidedBelow(levels: seq<Bucket>, deepest: seq<Value>, deepestIndex: seq<nat>, all: seq<Value>, allIndex: seq<nat>, i: nat, s: nat, k: nat)
    requires Decided(levels, deepest, deepestIndex, all, allIndex, i) && s < i < |levels| == |all| == |allIndex| && all[s].None?
    ensures Decided(levels, deepest, deepestIndex, all[s := Some(i)], allIndex[s := k], i)
  {
    var all', index' := all[s := Some(i)], allIndex[s := k];
    forall j: nat | i < j < |levels| && 1 <= j ensures Exact(levels, deepest, deepestIndex, all', index', j) {
      assert Exact(levels, deepest, deepestIndex, all, allIndex, j);
      forall x: nat ensures (EndsAt(all', x, j) <==> EndsAt(all, x, j)) && (Crosses(all', x, j) <==> Crosses(all, x, j)) {
      }
    }
  }

  /** Lines 191-194 decide level i. */
  lemma DecidedHere(levels: seq<Bucket>, deepest: seq<Value>, deepestIndex: seq<nat>, target: seq<Value>, index: seq<nat>,
                    src: Value, srcIndex: nat, dest: Value, all: seq<Value>, allIndex: seq<nat>, i: nat)
    requires Decided(levels, deepest, deepestIndex, all, allIndex, i) && WithPending(target, index, src, srcIndex, dest, all, allIndex)
    requires |deepest| == |deepestIndex| == |target| == |levels| && 1 <= i < |levels|
    requires src.Some? ==> src.level < i < dest.level && target[i].None?
    requires src.None? <==> dest.None?
    requires forall j: nat :: j < i ==> target[j].None?
    requires deepest[i].Some? ==> deepest[i].level < i
    ensures var moves := ((dest.None? && HasEmpty(levels[i])) || target[i].Some?) && deepest[i].Some?;
      && (moves ==> src.None?)
      && (moves ==> Decided(levels, deepest, deepestIndex, all[deepest[i].level := Some(i)], allIndex[deepest[i].level := deepestIndex[i]], i - 1))
      && (!moves ==> Decided(levels, deepest, deepestIndex, all, allIndex, i - 1))
  {
    var moves := ((dest.None? && HasEmpty(levels[i])) || target[i].Some?) && deepest[i].Some?;
    assert forall s: nat :: !EndsAt(all, s, i);
    if moves {
      var s := deepest[i].level;
      DecidedBelow(levels, deepest, deepestIndex, all, allIndex, i, s, deepestIndex[i]);
      var all', index' := all[s := Some(i)], allIndex[s := deepestIndex[i]];
      assert EndsAt(all', s, i);
      assert forall x: nat :: !Crosses(all', x, i);
      assert Exact(levels, deepest, deepestIndex, all', index', i);
    }
    if !moves {
      if src.Some? {
        assert Crosses(all, src.level, i);
      } else {
        assert forall x: nat :: !Crosses(all, x, i);
      }
      assert Exact(levels, deepest, deepestIndex, all, allIndex, i);
    }
  }

  /** Lines 177-197. */
  method PlanTargets(levels: seq<Bucket>, ghost path: seq<Bit>, deepest: seq<Value>, deepestIndex: seq<nat>)
    returns (target: seq<Value>, targetIndex: seq<nat>)
    requires |levels| > 1 && DeepestOk(levels, path, deepest, deepestIndex)
    ensures TargetOk(levels, path, target, targetIndex) && target[|levels| - 1].None? && |target| == |targetIndex| == |levels|
    ensures TargetsExact(levels, deepest, deepestIndex, target, targetIndex)
  {
    hide CanMove, HasEmpty, NothingFor, Exact, Decided;
    ghost var all: seq<Value>, allIndex: seq<nat> := seq(|levels|, _ => None), seq(|levels|, _ => 0);
    assert Decided(levels, deepest, deepestIndex, all, allIndex, |levels| - 1) by {
      NothingDecided(levels, deepest, deepestIndex, all, allIndex);
    }
    var dest, src, srcIndex := None, None, 0;
    target, targetIndex := seq(|levels|, _ => None), seq(|levels|, _ => 0);
    var i := |levels| - 1;
    while true
      invariant 0 <= i < |levels|
      invariant Pending(levels, path, target, src, srcIndex, dest, i) && PlannedAbove(levels, path, target, targetIndex, i)
      invariant forall j: nat :: j <= i ==> target[j].None? && targetIndex[j] == 0
      invariant i == |levels| - 1 ==> src.None?
      invariant i < |levels| - 1 ==> target[|levels| - 1].None?
      invariant WithPending(target, targetIndex, src, srcIndex, dest, all, allIndex)
      invariant Decided(levels, deepest, deepestIndex, all, allIndex, i)
      decreases i
    {
      var here := src.Some? && src.level == i;
      MoreTargets(levels, path, target, targetIndex, i, if here then dest else None, if here then srcIndex else 0);
      target, targetIndex := target[i := if here then dest else None], targetIndex[i := if here then srcIndex else 0];
      dest := if here then None else dest;
      src := if here then None else src;
      if i == 0 {
        AllDecided(levels, deepest, deepestIndex, all, allIndex);
        assert all == target && allIndex == targetIndex;
        break;
      }
      var free := HasEmptySlot(levels[i]);
      DecidedHere(levels, deepest, deepestIndex, target, targetIndex, src, srcIndex, dest, all, allIndex, i);
      if ((dest.None? && free) || target[i].Some?) && deepest[i].Some? {
        src, srcIndex, dest := deepest[i], deepestIndex[i], Some(i);
        all, allIndex := all[deepest[i].level := Some(i)], allIndex[deepest[i].level := deepestIndex[i]];
      }
      i := i - 1;
    }
  }

  lemma NothingDecided(levels: seq<Bucket>, deepest: seq<Value>, deepestIndex: seq<nat>, all: seq<Value>, allIndex: seq<nat>)
    ensures Decided(levels, deepest, deepestIndex, all, allIndex, |levels| - 1)
  {
  }

  lemma AllDecided(levels: seq<Bucket>, deepest: seq<Value>, deepestIndex: seq<nat>, all: seq<Value>, allIndex: seq<nat>)
    requires Decided(levels, deepest, deepestIndex, all, allIndex, 0)
    ensures TargetsExact(levels, deepest, deepestIndex, all, allIndex)
  {
  }

  method HasEmptySlot(b: Bucket) returns (free: bool)
    ensures free == HasEmpty(b)
  {
    free := exists k :: 0 <= k < |b| && b[k].Empty?;
  }

  // ----- moving the blocks -----

  /** What a level holds once its moving block is gone. */
  ghost function Taken(levels: seq<Bucket>, target: seq<Value>, index: seq<nat>, i: nat): Bucket
    requires |target| == |index| == |levels| && i < |levels|
  {
    if target[i].Some? && index[i] < |levels[i]| then levels[i][index[i] := Empty] else levels[i]
  }

  /** Some move goes from above level i to it or past it. */
  ghost predicate Carried(target: seq<Value>, i: nat) {
    exists s: nat :: GoesTo(target, s, i)
  }

  ghost predicate GoesTo(target: seq<Value>, s: nat, i: nat) {
    s < i && s < |target| && target[s].Some? && target[s].level >= i
  }

  /** What is in hand comes from the one move under way. */
  ghost predicate InHand(levels: seq<Bucket>, target: seq<Value>, index: seq<nat>, hold: Slot, dest: Value, i: nat) {
    && |target| == |index| == |levels|
    && (hold.Full? <==> Carried(target, i))
    && (forall s: nat :: GoesTo(target, s, i) ==> s < |levels| && dest == target[s] && index[s] < |levels[s]| && hold == levels[s][index[s]])
  }

  /** Level i gets the block that is planned for it, and nothing if there is none. */
  ghost predicate Arrives(levels: seq<Bucket>, target: seq<Value>, index: seq<nat>, w: Slot, i: nat) {
    && |target| == |index| == |levels|
    && (w.Full? <==> exists s: nat :: EndsAt(target, s, i))
    && (forall s: nat :: EndsAt(target, s, i) ==> s < |levels| && index[s] < |levels[s]| && w == levels[s][index[s]])
  }

  lemma TakenHere(levels: seq<Bucket>, path: seq<Bit>, target: seq<Value>, index: seq<nat>, i: nat)
    requires TargetOk(levels, path, target, index) && i < |levels|
    ensures target[i].None? ==> AllTaken(levels, target, index)[i] == levels[i]
    ensures target[i].Some? ==> index[i] < |levels[i]| && levels[i][index[i]].Full?
    ensures target[i].Some? ==> AllTaken(levels, target, index)[i] == levels[i][index[i] := Empty]
  {
    assert Planned(levels, path, target, index, i);
  }

  lemma HandEmptyAtEnd(levels: seq<Bucket>, path: seq<Bit>, target: seq<Value>, index: seq<nat>, hold: Slot, dest: Value)
    requires TargetOk(levels, path, target, index) && InHand(levels, target, index, hold, dest, |levels|)
    ensures hold.Empty?
  {
    hide CanMove;
    forall s: nat ensures !GoesTo(target, s, |levels|) {
      assert s < |levels| ==> Planned(levels, path, target, index, s);
    }
  }

  lemma PlanSizes(levels: seq<Bucket>, path: seq<Bit>, target: seq<Value>, index: seq<nat>)
    requires TargetOk(levels, path, target, index)
    ensures |target| == |index| == |levels|
  {
  }

  lemma NothingInHand(levels: seq<Bucket>, target: seq<Value>, index: seq<nat>)
    requires |target| == |index| == |levels|
    ensures InHand(levels, target, index, Empty, None, 0)
  {
  }

  /** Moves do not cross, so at most one of them is under way at a level. */
  lemma OneUnderWay(levels: seq<Bucket>, path: seq<Bit>, target: seq<Value>, index: seq<nat>, s: nat, u: nat, i: nat)
    requires TargetOk(levels, path, target, index) && GoesTo(target, s, i) && GoesTo(target, u, i)
    ensures s == u
  {
    assert Planned(levels, path, target, index, s) && Planned(levels, path, target, index, u);
  }

  /** Lines 212-216 for level i. */
  lemma ArrivesHere(levels: seq<Bucket>, path: seq<Bit>, target: seq<Value>, index: seq<nat>, hold: Slot, dest: Value, i: nat)
    requires TargetOk(levels, path, target, index) && InHand(levels, target, index, hold, dest, i)
    ensures Arrives(levels, target, index, if hold.Full? && dest == Some(i) then hold else Empty, i)
    ensures hold.Full? && dest == Some(i) ==> forall s: nat :: !Crosses(target, s, i)
    ensures hold.Full? && dest != Some(i) && i < |target| ==> target[i].None?
  {
    hide CanMove;
    forall s: nat | EndsAt(target, s, i) ensures GoesTo(target, s, i) {
    }
    forall s: nat | Crosses(target, s, i) ensures GoesTo(target, s, i) {
    }
    if hold.Full? {
      var s: nat :| GoesTo(target, s, i);
      assert EndsAt(target, s, i) || Crosses(target, s, i);
      assert Planned(levels, path, target, index, s);
      forall u: nat | GoesTo(target, u, i) ensures u == s {
        OneUnderWay(levels, path, target, index, s, u, i);
      }
    }
  }

  /** Lines 218-225: what is in hand for the next level. */
  lemma HandNext(levels: seq<Bucket>, path: seq<Bit>, target: seq<Value>, index: seq<nat>, hold: Slot, dest: Value, i: nat, next: Slot, to: Value)
    requires TargetOk(levels, path, target, index) && InHand(levels, target, index, hold, dest, i) && i < |levels|
    requires target[i].Some? ==> !(hold.Full? && dest != Some(i))
    requires target[i].Some? ==> index[i] < |levels[i]| && to == target[i] && next == levels[i][index[i]]
    requires target[i].None? ==> to == (if hold.Full? && dest == Some(i) then None else dest)
    requires target[i].None? ==> next == (if hold.Full? && dest == Some(i) then Empty else hold)
    ensures InHand(levels, target, index, next, to, i + 1)
  {
    ArrivesHere(levels, path, target, index, hold, dest, i);
    assert Planned(levels, path, target, index, i);
    var n := i + 1;
    if target[i].Some? {
      assert GoesTo(target, i, n);
    }
    forall s: nat | Crosses(target, s, i) ensures GoesTo(target, s, i) && GoesTo(target, s, n) {
    }
    forall s: nat | GoesTo(target, s, n) ensures s == i || Crosses(target, s, i) {
    }
    if target[i].None? && Carried(target, n) {
      var s: nat :| GoesTo(target, s, n);
      assert Crosses(target, s, i) && GoesTo(target, s, i);
    }
    if target[i].Some? {
      forall s: nat | GoesTo(target, s, n) ensures s == i {
        assert s != i ==> Crosses(target, s, i) && GoesTo(target, s, i);
      }
    }
  }

  /** Above level i nothing is missing but what is in hand. */
  ghost predicate PrefixKept(levels: seq<Bucket>, taken: seq<Bucket>, towrite: seq<Slot>, hold: Slot, i: nat) {
    && i <= |levels| == |taken| && i <= |towrite|
    && Total(taken[..i]) + Blocks(towrite[..i]) + OfSlot(hold) == Total(levels[..i])
  }

  lemma {:induction false} TotalConcat(a: seq<Bucket>, b: seq<Bucket>)
    ensures Total(a + b) == Total(a) + Total(b)
  {
    hide Blocks;
    if b == [] {
      assert a + b == a;
    } else {
      assert (a + b)[..|a + b| - 1] == a + b[..|b| - 1];
      TotalConcat(a, b[..|b| - 1]);
    }
  }

  lemma PrefixOfWhole(levels: seq<Bucket>, now: seq<Bucket>, rest: multiset<Block>, i: nat)
    requires i <= |levels| == |now| && now[i..] == levels[i..] && Total(now) + rest == Total(levels)
    ensures Total(now[..i]) + rest == Total(levels[..i])
  {
    hide Total;
    assert now == now[..i] + now[i..] && levels == levels[..i] + levels[i..];
    TotalConcat(now[..i], now[i..]);
    TotalConcat(levels[..i], levels[i..]);
    var a, b, c := Total(now[..i]), Total(now[i..]), Total(levels[..i]);
    assert (a + rest) + b == (a + b) + rest;
    Uncover(a + rest, c, b);
  }

  lemma Uncover<T>(a: multiset<T>, b: multiset<T>, c: multiset<T>)
    requires a + c == b + c
    ensures a == b
  {
    forall x: T ensures a[x] == b[x] {
      assert (a + c)[x] == (b + c)[x];
    }
  }

  /** What was in hand at every level, and that above it nothing else was missing. */
  ghost predicate HoldsKept(levels: seq<Bucket>, taken: seq<Bucket>, towrite: seq<Slot>, holds: seq<Slot>, target: seq<Value>) {
    forall j: nat :: j < |holds| ==> PrefixKept(levels, taken, towrite, holds[j], j) && (holds[j].Full? <==> Carried(target, j))
  }

  lemma HoldsNext(levels: seq<Bucket>, taken: seq<Bucket>, now: seq<Bucket>, towrite: seq<Slot>, holds: seq<Slot>,
                  target: seq<Value>, index: seq<nat>, hold: Slot, dest: Value, w: Slot)
    requires HoldsKept(levels, taken, towrite, holds, target) && |holds| == |towrite| <= |levels| == |taken| == |now|
    requires InHand(levels, target, index, hold, dest, |towrite|)
    requires forall j: nat :: j < |levels| ==> now[j] == if j < |towrite| then taken[j] else levels[j]
    requires Total(now) + Blocks(towrite) + OfSlot(hold) == Total(levels)
    ensures HoldsKept(levels, taken, towrite + [w], holds + [hold], target)
  {
    hide Total, Blocks, OfSlot, PrefixKept, Carried;
    KeptHere(levels, taken, now, towrite, hold);
    var more := holds + [hold];
    forall j: nat | j < |more| ensures PrefixKept(levels, taken, towrite + [w], more[j], j) && (more[j].Full? <==> Carried(target, j)) {
      KeptStill(levels, taken, towrite, more[j], j, w);
    }
  }

  lemma NoHolds(levels: seq<Bucket>, taken: seq<Bucket>, target: seq<Value>)
    ensures HoldsKept(levels, taken, [], [], target)
  {
  }

  lemma HoldsAt(levels: seq<Bucket>, taken: seq<Bucket>, towrite: seq<Slot>, holds: seq<Slot>, target: seq<Value>, i: nat)
    requires HoldsKept(levels, taken, towrite, holds, target) && i < |holds|
    ensures PrefixKept(levels, taken, towrite, holds[i], i) && (holds[i].Full? <==> Carried(target, i))
  {
  }

  ghost function AllTaken(levels: seq<Bucket>, target: seq<Value>, index: seq<nat>): (t: seq<Bucket>)
    requires |target| == |index| == |levels|
    ensures |t| == |levels| && forall i: nat :: i < |t| ==> t[i] == Taken(levels, target, index, i)
  {
    seq(|levels|, i requires 0 <= i < |levels| => Taken(levels, target, index, i))
  }

  lemma KeptHere(levels: seq<Bucket>, taken: seq<Bucket>, now: seq<Bucket>, towrite: seq<Slot>, hold: Slot)
    requires |towrite| <= |levels| == |taken| == |now|
    requires forall j: nat :: j < |levels| ==> now[j] == if j < |towrite| then taken[j] else levels[j]
    requires Total(now) + Blocks(towrite) + OfSlot(hold) == Total(levels)
    ensures PrefixKept(levels, taken, towrite, hold, |towrite|)
  {
    hide Total, Blocks, OfSlot;
    var i := |towrite|;
    assert now[i..] == levels[i..] && now[..i] == taken[..i] && towrite[..i] == towrite;
    assert Total(now) + (Blocks(towrite) + OfSlot(hold)) == Total(levels);
    PrefixOfWhole(levels, now, Blocks(towrite) + OfSlot(hold), i);
  }

  lemma KeptStill(levels: seq<Bucket>, taken: seq<Bucket>, towrite: seq<Slot>, hold: Slot, i: nat, w: Slot)
    requires PrefixKept(levels, taken, towrite, hold, i)
    ensures PrefixKept(levels, taken, towrite + [w], hold, i)
  {
    assert (towrite + [w])[..i] == towrite[..i];
  }

  /** Above level i, exactly what was written there has come. */
  ghost predicate PrefixGrown(first: seq<Bucket>, now: seq<Bucket>, towrite: seq<Slot>, i: nat) {
    && i <= |first| == |now| && i <= |towrite|
    && Total(now[..i]) == Total(first[..i]) + Blocks(towrite[..i])
  }

  lemma NoneGrown(first: seq<Bucket>, towrite: seq<Slot>)
    requires |towrite| > 0 && towrite[0].Empty?
    ensures PrefixGrown(first, first, towrite, 0) && OfSlot(towrite[0]) == multiset{}
  {
  }

  lemma GrownHere(first: seq<Bucket>, now: seq<Bucket>, towrite: seq<Slot>, i: nat)
    requires i <= |first| == |now| && i <= |towrite| && now[i..] == first[i..]
    requires Total(now) == Total(first) + Blocks(towrite[..i])
    ensures PrefixGrown(first, now, towrite, i)
  {
    hide Total, Blocks;
    PrefixOfWhole(now, first, Blocks(towrite[..i]), i);
  }

  lemma GrownStill(first: seq<Bucket>, was: seq<Bucket>, now: seq<Bucket>, towrite: seq<Slot>, i: nat)
    requires PrefixGrown(first, was, towrite, i) && |now| == |was| && now[..i] == was[..i]
    ensures PrefixGrown(first, now, towrite, i)
  {
  }

  /** What a run does to the levels of its path: the block that moves past or into level i, if any, is all that those above lose. */
  ghost predicate PassedOn(levels: seq<Bucket>, now: seq<Bucket>, path: seq<Bit>, i: nat) {
    1 <= i < |levels| == |now| && exists moved: Slot :: Passed(levels, now, path, i, moved)
  }

  ghost predicate Passed(levels: seq<Bucket>, now: seq<Bucket>, path: seq<Bit>, i: nat, moved: Slot)
    requires i < |levels| == |now|
  {
    && Total(now[..i]) + OfSlot(moved) == Total(levels[..i])
    && (moved.Full? ==> !NothingFor(levels, path, i))
    && (HasEmpty(levels[i]) && !NothingFor(levels, path, i) ==> moved.Full?)
  }

  /** What a run leaves in level i: the block planned to leave it is gone and the one planned to come is there. */
  ghost predicate CarriedOut(levels: seq<Bucket>, now: Bucket, target: seq<Value>, index: seq<nat>, i: nat) {
    && |target| == |index| == |levels| && i < |levels|
    && exists w: Slot :: Arrives(levels, target, index, w, i) && Blocks(now) == Blocks(Taken(levels, target, index, i)) + OfSlot(w)
  }

  /** The moves are those of the plan. */
  ghost predicate IsPlan(levels: seq<Bucket>, path: seq<Bit>, target: seq<Value>, index: seq<nat>) {
    && TargetOk(levels, path, target, index)
    && exists deepest: seq<Value>, deepestIndex: seq<nat> ::
      DeepestOk(levels, path, deepest, deepestIndex) && TargetsExact(levels, deepest, deepestIndex, target, index)
  }

  /** Where there is room and a block for it, some move comes to the level or goes past. */
  lemma SomethingMoves(levels: seq<Bucket>, path: seq<Bit>, deepest: seq<Value>, deepestIndex: seq<nat>, target: seq<Value>, index: seq<nat>, i: nat)
    requires DeepestOk(levels, path, deepest, deepestIndex) && TargetsExact(levels, deepest, deepestIndex, target, index) && 1 <= i < |levels|
    requires HasEmpty(levels[i]) && !NothingFor(levels, path, i)
    ensures Carried(target, i)
  {
    hide NothingFor, CanMove, Furthest;
    assert Exact(levels, deepest, deepestIndex, target, index, i);
    if s: nat :| EndsAt(target, s, i) {
      assert GoesTo(target, s, i);
    } else {
      var s: nat :| Crosses(target, s, i);
      assert GoesTo(target, s, i);
    }
  }

  lemma MovesAreFor(levels: seq<Bucket>, path: seq<Bit>, target: seq<Value>, index: seq<nat>, i: nat)
    requires TargetOk(levels, path, target, index) && i < |levels| && Carried(target, i)
    ensures !NothingFor(levels, path, i)
  {
    var s: nat :| GoesTo(target, s, i);
    assert Planned(levels, path, target, index, s);
    var b := levels[s][index[s]].block;
    MayStaySize(b, path, target[s].level);
    MayStayIsCommon(b, path, target[s].level);
    MayStayIsCommon(b, path, i);
  }

  lemma LevelsPassOn(levels: seq<Bucket>, taken: seq<Bucket>, now: seq<Bucket>, path: seq<Bit>, deepest: seq<Value>, deepestIndex: seq<nat>,
                     target: seq<Value>, index: seq<nat>, towrite: seq<Slot>, moved: Slot, i: nat)
    requires DeepestOk(levels, path, deepest, deepestIndex) && TargetsExact(levels, deepest, deepestIndex, target, index)
    requires TargetOk(levels, path, target, index) && 1 <= i < |levels|
    requires PrefixKept(levels, taken, towrite, moved, i) && (moved.Full? <==> Carried(target, i)) && PrefixGrown(taken, now, towrite, i)
    ensures PassedOn(levels, now, path, i)
  {
    hide Total, Blocks, OfSlot, NothingFor, HasEmpty, DeepestOk, TargetsExact, TargetOk, Carried;
    if moved.Full? {
      MovesAreFor(levels, path, target, index, i);
    }
    if HasEmpty(levels[i]) && !NothingFor(levels, path, i) {
      SomethingMoves(levels, path, deepest, deepestIndex, target, index, i);
    }
    assert Passed(levels, now, path, i, moved);
  }

  lemma PlanIs(levels: seq<Bucket>, path: seq<Bit>, deepest: seq<Value>, deepestIndex: seq<nat>, target: seq<Value>, index: seq<nat>)
    requires TargetOk(levels, path, target, index)
    requires DeepestOk(levels, path, deepest, deepestIndex) && TargetsExact(levels, deepest, deepestIndex, target, index)
    ensures IsPlan(levels, path, target, index)
  {
  }

  lemma PlanCarriedOut(levels: seq<Bucket>, taken: Bucket, now: Bucket, target: seq<Value>, index: seq<nat>, w: Slot, i: nat)
    requires |target| == |index| == |levels| && i < |levels| && taken == Taken(levels, target, index, i)
    requires Arrives(levels, target, index, w, i) && Blocks(now) == Blocks(taken) + OfSlot(w)
    ensures CarriedOut(levels, now, target, index, i)
  {
  }

  /** Buckets outside the path are the same. */
  ghost predicate OffPath(path: seq<Bit>, ram: map<seq<Bit>, Bucket>, before: map<seq<Bit>, Bucket>) {
    forall node: seq<Bit> :: node in ram && !(node <= path) ==> node in before && ram[node] == before[node]
  }

  lemma StillOff(path: seq<Bit>, a: map<seq<Bit>, Bucket>, b: map<seq<Bit>, Bucket>, c: map<seq<Bit>, Bucket>)
    requires OffPath(path, a, b) && OffPath(path, b, c)
    ensures OffPath(path, a, c)
  {
  }

  lemma NoneOff(path: seq<Bit>, ram: map<seq<Bit>, Bucket>)
    ensures OffPath(path, ram, ram)
  {
  }

  class CircuitORAM {
    const depth: nat
    const stashSize: nat
    const bucketSize: nat
    var stash: Bucket
    var ram: map<seq<Bit>, Bucket>

    ghost predicate Valid()
      reads this
    {
      && depth > 0 && bucketSize > 1 && |stash| == stashSize > 1
      && (forall k: nat :: k < |stash| && stash[k].Full? ==> |stash[k].block.leaf| == depth)
      && (forall node: seq<Bit> :: |node| <= depth ==> node in ram)
      && (forall node :: node in ram ==> |ram[node]| == bucketSize && InSubtree(ram[node], node, depth))
    }

    static ghost predicate InSubtree(b: Bucket, node: seq<Bit>, depth: nat) {
      |node| <= depth && forall k: nat :: k < |b| && b[k].Full? ==> |b[k].block.leaf| == depth && b[k].block.leaf[..|node|] == node
    }

    /** Lines 135-144 */
    function GetBucket(path: seq<Bit>, i: nat): Bucket
      requires i > 0 ==> i - 1 <= |path| && path[..i - 1] in ram
      reads this
    {
      if i == 0 then stash else ram[path[..i - 1]]
    }

    method SetBucket(path: seq<Bit>, i: nat, b: Bucket)
      requires i > 0 ==> i - 1 <= |path|
      modifies this
      ensures stash == (if i == 0 then b else old(stash))
      ensures ram == if i == 0 then old(ram) else old(ram)[path[..i - 1] := b]
    {
      if i == 0 {
        stash := b;
      } else {
        ram := ram[path[..i - 1] := b];
      }
    }

    ghost function Levels(path: seq<Bit>): (levels: seq<Bucket>)
      requires Valid() && |path| == depth
      reads this
      ensures |levels| == depth + 2 && forall i: nat :: i < |levels| ==> levels[i] == GetBucket(path, i)
    {
      seq(depth + 2, i requires 0 <= i < depth + 2 && Valid() reads this => GetBucket(path, i))
    }

    lemma PathIsPlaced(path: seq<Bit>)
      requires Valid() && |path| == depth
      ensures WellPlaced(Levels(path), path)
    {
      forall i: nat | i < depth + 2 ensures |Levels(path)[i]| > 1 && Placed(Levels(path)[i], path, i) {
        if i > 0 {
          assert InSubtree(ram[path[..i - 1]], path[..i - 1], depth);
        }
      }
    }

    lemma InSubtreeIsPlaced(path: seq<Bit>, i: nat, b: Bucket)
      requires |path| == depth && i < depth + 2 && Placed(b, path, i)
      ensures i > 0 ==> InSubtree(b, path[..i - 1], depth)
      ensures forall k: nat :: k < |b| && b[k].Full? ==> |b[k].block.leaf| == depth
    {
    }

    /** Replaces one level of the path. */
    method Put(path: seq<Bit>, i: nat, b: Bucket)
      requires Valid() && |path| == depth && i < depth + 2 && |b| == |Levels(path)[i]| && Placed(b, path, i)
      modifies this
      ensures Valid() && Levels(path) == old(Levels(path))[i := b] && OffPath(path, ram, old(ram))
    {
      hide MayStay;
      ghost var was := Levels(path);
      SetBucket(path, i, b);
      InSubtreeIsPlaced(path, i, b);
      forall node | node in ram ensures |ram[node]| == bucketSize && InSubtree(ram[node], node, depth) {
      }
      assert Valid();
      assert Levels(path) == was[i := b] by {
        forall j: nat | j < depth + 2 && j != i ensures Levels(path)[j] == was[j] {
          assert i > 0 && j > 0 ==> |path[..i - 1]| != |path[..j - 1]|;
        }
      }
    }

    /** Lines 207-227, without the final adding: takes the moving blocks out and carries them to their levels. */
    method EvictOnceFast(path: seq<Bit>, target: seq<Value>, index: seq<nat>) returns (towrite: seq<Slot>, ghost holds: seq<Slot>)
      requires Valid() && |path| == depth && TargetOk(Levels(path), path, target, index) && target[depth + 1].None?
      modifies this
      ensures Valid() && OffPath(path, ram, old(ram)) && |towrite| == depth + 2
      ensures forall i: nat :: i < depth + 2 ==> Levels(path)[i] == Taken(old(Levels(path)), target, index, i)
      ensures forall i: nat :: i < depth + 2 ==> Arrives(old(Levels(path)), target, index, towrite[i], i)
      ensures Total(Levels(path)) + Blocks(towrite) == Total(old(Levels(path)))
      ensures |holds| == depth + 2 && HoldsKept(old(Levels(path)), Levels(path), towrite, holds, target)
    {
      hide Valid, Total, Blocks, MayStay, HasEmpty, OfSlot, OffPath, Placed, InHand, Arrives, HoldsKept, Taken, TargetOk, CanMove;
      ghost var levels := Levels(path);
      PlanSizes(levels, path, target, index);
      ghost var taken := AllTaken(levels, target, index);
      holds := [];
      PathIsPlaced(path);
      var hold, dest := Empty, None;
      towrite := [];
      NothingInHand(levels, target, index);
      NoHolds(levels, taken, target);
      Nothing();
      NoneOff(path, ram);
      for i := 0 to depth + 2
        invariant Valid() && OffPath(path, ram, old(ram)) && |towrite| == i
        invariant forall j: nat :: j < depth + 2 ==> Levels(path)[j] == if j < i then taken[j] else levels[j]
        invariant InHand(levels, target, index, hold, dest, i)
        invariant forall j: nat :: j < i ==> Arrives(levels, target, index, towrite[j], j)
        invariant Total(Levels(path)) + Blocks(towrite) + OfSlot(hold) == Total(levels)
        invariant |holds| == i && HoldsKept(levels, taken, towrite, holds, target)
      {
        ArrivesHere(levels, path, target, index, hold, dest, i);
        HoldsNext(levels, taken, Levels(path), towrite, holds, target, index, hold, dest, if hold.Full? && dest == Some(i) then hold else Empty);
        holds := holds + [hold];
        ghost var inHand, to := hold, dest;
        var arrived := hold.Full? && dest == Some(i);
        Write(towrite, if arrived then hold else Empty, hold, Total(Levels(path)), Total(levels));
        towrite := towrite + [if arrived then hold else Empty];
        hold := if arrived then Empty else hold;
        dest := if arrived then None else dest;
        TakenHere(levels, path, target, index, i);
        if i != depth + 1 && target[i].Some? {
          // nothing is in hand when a block is picked up
          assert hold.Empty?;
          ghost var before, was := ram, Levels(path);
          hold := TakeOut(path, i, index[i]);
          StillOff(path, ram, before, old(ram));
          Picked(Total(Levels(path)), OfSlot(hold), Total(was), Blocks(towrite), Total(levels));
          dest := target[i];
        }
        HandNext(levels, path, target, index, inHand, to, i, hold, dest);
      }
      HandEmptyAtEnd(levels, path, target, index, hold, dest);
      assert Levels(path) == taken;
    }

    /** Line 223: removes a block by its place. */
    method TakeOut(path: seq<Bit>, i: nat, k: nat) returns (hold: Slot)
      requires Valid() && |path| == depth && i < depth + 2 && k < |Levels(path)[i]| && Levels(path)[i][k].Full?
      modifies this
      ensures Valid() && OffPath(path, ram, old(ram)) && hold == old(Levels(path))[i][k]
      ensures Levels(path) == old(Levels(path))[i := old(Levels(path))[i][k := Empty]]
      ensures Total(Levels(path)) + OfSlot(hold) == Total(old(Levels(path)))
    {
      hide Valid, Total, Blocks;
      ghost var was := Levels(path);
      PathIsPlaced(path);
      InRam(path, i);
      var b := GetBucket(path, i);
      hold := b[k];
      BlocksUpdate(b, k, Empty);
      TotalUpdate(was, i, b[k := Empty]);
      Nothing();
      Cancel(Total(was[i := b[k := Empty]]), Blocks(b), Total(was), Blocks(b[k := Empty]), OfSlot(hold));
      Put(path, i, b[k := Empty]);
    }

    /** Line 231 for one level. */
    method AddAt(path: seq<Bit>, w: Slot, i: nat)
      requires Valid() && |path| == depth && i < depth + 2
      requires w.Full? ==> MayStay(w.block, path, i) && HasEmpty(Levels(path)[i])
      modifies this
      ensures Valid() && OffPath(path, ram, old(ram)) && Levels(path) == old(Levels(path))[i := Levels(path)[i]]
      ensures Blocks(Levels(path)[i]) == Blocks(old(Levels(path))[i]) + OfSlot(w)
      ensures Total(Levels(path)) == Total(old(Levels(path))) + OfSlot(w)
    {
      hide Valid, Total, Blocks, MayStay, HasEmpty, OfSlot, OffPath, Placed;
      ghost var was := Levels(path);
      PathIsPlaced(path);
      InRam(path, i);
      var b := GetBucket(path, i);
      var c := AddTo(b, w, path, i);
      TotalUpdate(was, i, c);
      Put(path, i, c);
      Grown(Total(Levels(path)), Blocks(b), Total(was), OfSlot(w));
    }

    /** Lines 228-231: adds after removing. */
    method AddEvicted(path: seq<Bit>, towrite: seq<Slot>)
      requires Valid() && |path| == depth && |towrite| == depth + 2 && towrite[0].Empty?
      requires forall i: nat :: i < depth + 2 && towrite[i].Full? ==> MayStay(towrite[i].block, path, i) && HasEmpty(Levels(path)[i])
      modifies this
      ensures Valid() && OffPath(path, ram, old(ram)) && Total(Levels(path)) == Total(old(Levels(path))) + Blocks(towrite)
      ensures forall i: nat :: i < depth + 2 ==> Blocks(Levels(path)[i]) == Blocks(old(Levels(path))[i]) + OfSlot(towrite[i])
      ensures forall i: nat :: i < depth + 2 ==> PrefixGrown(old(Levels(path)), Levels(path), towrite, i)
    {
      hide Valid, Total, Blocks, MayStay, HasEmpty, OfSlot, OffPath, Placed, PrefixGrown;
      ghost var first := Levels(path);
      NoneOff(path, ram);
      NoneGrown(first, towrite);
      OnlyEmpty(towrite);
      for i := 1 to depth + 2
        invariant Valid() && OffPath(path, ram, old(ram))
        invariant forall j: nat :: i <= j < depth + 2 ==> Levels(path)[j] == first[j]
        invariant Total(Levels(path)) == Total(first) + Blocks(towrite[..i])
        invariant forall j: nat :: j < i ==> Blocks(Levels(path)[j]) == Blocks(first[j]) + OfSlot(towrite[j])
        invariant forall j: nat :: j < i ==> PrefixGrown(first, Levels(path), towrite, j)
      {
        assert Levels(path)[i..] == first[i..];
        GrownHere(first, Levels(path), towrite, i);
        ghost var before, was := ram, Levels(path);
        AddAt(path, towrite[i], i);
        forall j: nat | j <= i ensures PrefixGrown(first, Levels(path), towrite, j) {
          assert Levels(path)[..j] == was[..j];
          GrownStill(first, was, Levels(path), towrite, j);
        }
        StillOff(path, ram, before, old(ram));
        Added(Total(Levels(path)), Total(was), Total(first), towrite, i);
      }
      assert towrite[..depth + 2] == towrite;
    }

    /** Lines 198-206 for one path: the planned moves are made, no block is lost or doubled, every block stays on the way to its
        leaf, and buckets outside the path are not touched. */
    method EvictOnce(path: seq<Bit>, w: nat) returns (ghost target: seq<Value>, ghost targetIndex: seq<nat>)
      requires Valid() && |path| == depth && depth + 2 <= Pow2(w)
      modifies this
      ensures Valid() && OffPath(path, ram, old(ram)) && Total(Levels(path)) == Total(old(Levels(path)))
      ensures IsPlan(old(Levels(path)), path, target, targetIndex)
      ensures forall i: nat :: i < depth + 2 ==> CarriedOut(old(Levels(path)), Levels(path)[i], target, targetIndex, i)
      ensures forall i: nat :: 1 <= i < depth + 2 ==> PassedOn(old(Levels(path)), Levels(path), path, i)
    {
      hide *;
      PathIsPlaced(path);
      Sizes();
      PathInRam();
      Width(w);
      var levels := seq(depth + 2, i requires 0 <= i < depth + 2 && (i > 0 ==> i - 1 <= |path| && path[..i - 1] in ram) reads this => GetBucket(path, i));
      assert levels == Levels(path);
      var deepest, deepestIndex := PrepareDeepest(levels, path, w);
      var moves, movesIndex := PlanTargets(levels, path, deepest, deepestIndex);
      target, targetIndex := moves, movesIndex;
      PlanIs(levels, path, deepest, deepestIndex, target, targetIndex);
      var towrite;
      ghost var holds;
      towrite, holds := EvictOnceFast(path, moves, movesIndex);
      ghost var before, taken := ram, Levels(path);
      Landings(levels, taken, path, target, targetIndex, towrite);
      AddEvicted(path, towrite);
      StillOff(path, ram, before, old(ram));
      forall i: nat | i < depth + 2 ensures CarriedOut(levels, Levels(path)[i], target, targetIndex, i) {
        PlanCarriedOut(levels, taken[i], Levels(path)[i], target, targetIndex, towrite[i], i);
      }
      forall i: nat | 1 <= i < depth + 2 ensures PassedOn(levels, Levels(path), path, i) {
        HoldsAt(levels, taken, towrite, holds, target, i);
        assert PrefixGrown(taken, Levels(path), towrite, i);
        LevelsPassOn(levels, taken, Levels(path), path, deepest, deepestIndex, target, targetIndex, towrite, holds[i], i);
      }
    }

    lemma Sizes()
      requires Valid()
      ensures depth > 0
    {
    }

    lemma PathInRam()
      requires Valid()
      ensures forall node: seq<Bit> :: |node| <= depth ==> node in ram
    {
    }

    lemma InRam(path: seq<Bit>, i: nat)
      requires Valid() && |path| == depth && i < depth + 2
      ensures i > 0 ==> i - 1 <= |path| && path[..i - 1] in ram
    {
    }
  }

  lemma Width(w: nat)
    ensures 2 <= Pow2(w) ==> w > 0
  {
  }

  /** Lines 759-765 of oram.py: the entry goes to the first empty slot. */
  method AddTo(b: Bucket, s: Slot, ghost path: seq<Bit>, ghost level: nat) returns (r: Bucket)
    requires Placed(b, path, level) && (s.Full? ==> MayStay(s.block, path, level) && HasEmpty(b))
    ensures |r| == |b| && Placed(r, path, level) && Blocks(r) == Blocks(b) + OfSlot(s)
  {
    hide MayStay, Blocks;
    for k := 0 to |b|
      invariant forall j: nat :: j < k ==> b[j].Full?
    {
      if b[k].Empty? {
        BlocksUpdate(b, k, s);
        return b[k := s];
      }
    }
    r := b;
  }

  /** A plan leaves a free slot wherever a block lands. */
  lemma Landings(levels: seq<Bucket>, taken: seq<Bucket>, path: seq<Bit>, target: seq<Value>, index: seq<nat>, towrite: seq<Slot>)
    requires TargetOk(levels, path, target, index) && |taken| == |towrite| == |levels| > 0
    requires forall i: nat :: i < |levels| ==> taken[i] == Taken(levels, target, index, i) && Arrives(levels, target, index, towrite[i], i)
    ensures towrite[0].Empty?
    ensures forall i: nat :: i < |levels| && towrite[i].Full? ==> MayStay(towrite[i].block, path, i) && HasEmpty(taken[i])
  {
    hide MayStay;
    assert Arrives(levels, target, index, towrite[0], 0);
    forall i: nat | i < |levels| && towrite[i].Full? ensures MayStay(towrite[i].block, path, i) && HasEmpty(taken[i]) {
      assert Arrives(levels, target, index, towrite[i], i) && Planned(levels, path, target, index, i);
      var s: nat :| EndsAt(target, s, i);
      assert Planned(levels, path, target, index, s);
      if target[i].Some? {
        assert taken[i][index[i]].Empty?;
      }
    }
  }

  lemma OnlyEmpty(towrite: seq<Slot>)
    requires |towrite| > 0 && towrite[0].Empty?
    ensures Blocks(towrite[..1]) == multiset{}
  {
    assert towrite[..1][..0] == [];
  }

  lemma Grown(now: multiset<Block>, b: multiset<Block>, was: multiset<Block>, x: multiset<Block>)
    requires now + b == was + (b + x)
    ensures now == was + x
  {
    forall y: Block ensures now[y] == (was + x)[y] {
      assert (now + b)[y] == (was + (b + x))[y];
    }
  }

  lemma Added(now: multiset<Block>, was: multiset<Block>, first: multiset<Block>, towrite: seq<Slot>, i: nat)
    requires i < |towrite| && now == was + OfSlot(towrite[i]) && was == first + Blocks(towrite[..i])
    ensures now == first + Blocks(towrite[..i + 1])
  {
    assert towrite[..i + 1][..i] == towrite[..i];
    assert now == first + (Blocks(towrite[..i]) + OfSlot(towrite[i]));
  }

  lemma Nothing()
    ensures Blocks([]) == multiset{} && OfSlot(Empty) == multiset{}
  {
  }

  lemma Cancel<T>(a: multiset<T>, b: multiset<T>, c: multiset<T>, d: multiset<T>, h: multiset<T>)
    requires a + b == c + d && d + h == b
    ensures a + h == c
  {
    assert a + b == (a + h) + d;
    forall x: T ensures (a + h)[x] == c[x] {
      assert (a + b)[x] == (c + d)[x];
    }
  }

  lemma Picked(now: multiset<Block>, h: multiset<Block>, was: multiset<Block>, towrite: multiset<Block>, all: multiset<Block>)
    requires now + h == was && was + towrite == all
    ensures now + towrite + h == all
  {
    assert now + towrite + h == (now + h) + towrite;
  }

  lemma Write(towrite: seq<Slot>, w: Slot, hold: Slot, now: multiset<Block>, all: multiset<Block>)
    requires (w == hold || w.Empty?) && now + Blocks(towrite) + OfSlot(hold) == all
    ensures now + Blocks(towrite + [w]) + OfSlot(if w.Full? then Empty else hold) == all
    ensures w == hold || hold.Empty? ==> now + Blocks(towrite + [w]) == all
  {
    assert (towrite + [w])[..|towrite|] == towrite;
    assert now + (Blocks(towrite) + OfSlot(w)) == now + Blocks(towrite) + OfSlot(w);
  }
}
