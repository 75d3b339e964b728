/** Compiler/graph.py: the sparse dependency graph and its depth-first topological sort. */
module Graph {
  import opened FiniteSets

  datatype SortResult = Order(nodes: seq<nat>) | GraphError(node: nat)

  /** Successor lists alone decide what a sort may return. */
  type Succ = seq<seq<nat>>

  ghost predicate InRange(succ: Succ) {
    forall i: nat, j: nat :: i < |succ| && j in succ[i] ==> j < |succ|
  }

  ghost predicate IsPath(succ: Succ, p: seq<nat>) {
    && |p| > 0
    && (forall a: nat :: a < |p| ==> p[a] < |succ|)
    && (forall a: nat :: a < |p| - 1 ==> p[a + 1] in succ[p[a]])
  }

  ghost predicate IsCycle(succ: Succ, p: seq<nat>) {
    IsPath(succ, p) && |p| >= 2 && p[0] == p[|p| - 1]
  }

  ghost predicate Connects(succ: Succ, p: seq<nat>, i: nat, j: nat) {
    IsPath(succ, p) && p[0] == i && p[|p| - 1] == j
  }

  ghost predicate Reaches(succ: Succ, i: nat, j: nat) {
    exists p :: Connects(succ, p, i, j)
  }

  ghost predicate ReachedFrom(succ: Succ, roots: seq<nat>, j: nat) {
    exists r :: r in roots && Reaches(succ, r, j)
  }

  /** Every node once, and every edge out of a listed node leads further down the list. */
  ghost predicate IsTopological(succ: Succ, order: seq<nat>) {
    && Distinct(order)
    && (forall a: nat :: a < |order| ==> order[a] < |succ|)
    && (forall a: nat, j: nat :: a < |order| && j in succ[order[a]] ==> j in order[a + 1..])
  }

  /** The mirror image kept while the search runs: successors come first. */
  ghost predicate IsPostOrder(succ: Succ, done: seq<nat>) {
    && Distinct(done)
    && (forall a: nat :: a < |done| ==> done[a] < |succ|)
    && (forall a: nat, j: nat :: a < |done| && j in succ[done[a]] ==> j in done[..a])
  }

  function Reversed(s: seq<nat>): (r: seq<nat>)
    ensures |r| == |s|
    ensures forall a: nat :: a < |s| ==> r[a] == s[|s| - 1 - a]
  {
    seq(|s|, a requires 0 <= a < |s| => s[|s| - 1 - a])
  }

  ghost function Flatten(frames: seq<seq<nat>>): seq<nat> {
    if frames == [] then [] else Flatten(frames[..|frames| - 1]) + frames[|frames| - 1]
  }

  lemma FlattenSnoc(frames: seq<seq<nat>>, last: seq<nat>)
    ensures Flatten(frames + [last]) == Flatten(frames) + last
  {
    assert (frames + [last])[..|frames|] == frames;
  }

  ghost function Last(s: seq<nat>): nat
    requires s != []
  {
    s[|s| - 1]
  }

  /** What a search keeps true of its stack. The ghost `frames` cut the stack into the batches that
      were pushed together; the last entry of every batch but the top one is the node whose
      successors form the next batch. Those nodes are seen but unexplored, and form one path. */
  ghost predicate SearchInv(succ: Succ, roots: seq<nat>, frames: seq<seq<nat>>, seen: set<nat>, done: seq<nat>) {
    && Stacked(succ, frames)
    && IsPostOrder(succ, done)
    && Rooted(succ, roots, frames)
    && (forall v: nat :: v in done ==> ReachedFrom(succ, roots, v))
    && Pending(succ, frames, done)
    && (forall v: nat :: v in seen <==> v in done || OnPath(frames, v))
  }

  ghost predicate Rooted(succ: Succ, roots: seq<nat>, frames: seq<seq<nat>>) {
    forall k: nat, v: nat {:trigger v in frames[k]} :: k < |frames| && v in frames[k] ==> v < |succ| && ReachedFrom(succ, roots, v)
  }

  ghost predicate Stacked(succ: Succ, frames: seq<seq<nat>>) {
    && |frames| > 0
    && (forall k: nat :: k < |frames| - 1 ==> frames[k] != [] && Last(frames[k]) < |succ|)
    && (forall k: nat, j: nat {:trigger j in frames[k]} :: 0 < k < |frames| && j in frames[k] ==> j in succ[Last(frames[k - 1])])
    && (forall k: nat, l: nat {:trigger frames[l], Last(frames[k])} :: k < l < |frames| ==> Last(frames[k]) !in frames[l])
  }

  /** Successors of a path node are explored or wait in the batch above it. */
  ghost predicate Pending(succ: Succ, frames: seq<seq<nat>>, done: seq<nat>)
    requires Stacked(succ, frames)
  {
    && (forall k: nat :: k < |frames| - 1 ==> Last(frames[k]) !in done)
    && (forall k: nat, j: nat {:trigger j in succ[Last(frames[k])]} :: k < |frames| - 1 && j in succ[Last(frames[k])] ==> j in done || j in frames[k + 1])
  }

  ghost predicate OnPath(frames: seq<seq<nat>>, v: nat) {
    exists k: nat {:trigger Last(frames[k])} :: k < |frames| - 1 && frames[k] != [] && Last(frames[k]) == v
  }

  lemma ReachStep(succ: Succ, roots: seq<nat>, i: nat, j: nat)
    requires i < |succ| && j < |succ| && j in succ[i] && ReachedFrom(succ, roots, i)
    ensures ReachedFrom(succ, roots, j)
  {
    var r :| r in roots && Reaches(succ, r, i);
    var p :| Connects(succ, p, r, i);
    assert Connects(succ, p + [j], r, j);
  }

  /** Consecutive path nodes are joined by edges: from the path node of frame `k` to any entry `w` of the top frame. */
  lemma StackPath(succ: Succ, frames: seq<seq<nat>>, k: nat, w: nat) returns (p: seq<nat>)
    requires InRange(succ) && Stacked(succ, frames) && k < |frames| - 1
    requires w in frames[|frames| - 1]
    ensures Connects(succ, p, Last(frames[k]), w)
    decreases |frames| - k
  {
    var i := Last(frames[k]);
    if k == |frames| - 2 {
      assert i < |succ| && w in succ[i];
      p := [i, w];
    } else {
      var q := StackPath(succ, frames, k + 1, w);
      p := [i] + q;
      assert Last(frames[k + 1]) in frames[k + 1];
      assert i < |succ|;
      forall a | 0 <= a < |p| - 1 ensures p[a + 1] in succ[p[a]] {
        if a > 0 { assert q[a] in succ[q[a - 1]]; }
      }
    }
  }

  lemma PostOrderReverses(succ: Succ, done: seq<nat>)
    requires IsPostOrder(succ, done)
    ensures IsTopological(succ, Reversed(done))
    ensures forall v :: v in Reversed(done) <==> v in done
  {
    var order := Reversed(done);
    forall a, j | 0 <= a < |order| && j in succ[order[a]] ensures j in order[a + 1..] {
      var b :| 0 <= b < |done| - 1 - a && done[b] == j;
      assert order[a + 1..][|done| - 1 - b - (a + 1)] == j;
    }
    forall v | v in done ensures v in order {
      var b :| 0 <= b < |done| && done[b] == v;
      assert order[|done| - 1 - b] == v;
    }
  }

  /** Along a path, positions in a topological order only grow; no listed node lies on a cycle. */
  lemma {:induction false} PathGoesForward(succ: Succ, order: seq<nat>, p: seq<nat>, a: nat) returns (b: nat)
    requires IsTopological(succ, order) && IsPath(succ, p)
    requires a < |order| && order[a] == p[0]
    ensures b < |order| && order[b] == p[|p| - 1] && a + |p| - 1 <= b
    decreases |p|
  {
    if |p| == 1 {
      b := a;
    } else {
      assert p[1] in succ[order[a]];
      var c :| 0 <= c < |order[a + 1..]| && order[a + 1..][c] == p[1];
      forall x | 0 <= x < |p[1..]| - 1 ensures p[1..][x + 1] in succ[p[1..][x]] {
        assert p[x + 2] in succ[p[x + 1]];
      }
      b := PathGoesForward(succ, order, p[1..], a + 1 + c);
    }
  }

  lemma TopologicalIsAcyclic(succ: Succ, order: seq<nat>, p: seq<nat>)
    requires IsTopological(succ, order) && IsPath(succ, p) && |p| >= 2 && p[0] in order
    ensures p[0] != p[|p| - 1]
  {
    var a :| 0 <= a < |order| && order[a] == p[0];
    var b := PathGoesForward(succ, order, p, a);
  }

  lemma TopologicalIsClosed(succ: Succ, order: seq<nat>, roots: seq<nat>, j: nat)
    requires IsTopological(succ, order) && (forall r :: r in roots ==> r in order)
    requires ReachedFrom(succ, roots, j)
    ensures j in order
  {
    var r :| r in roots && Reaches(succ, r, j);
    var p :| Connects(succ, p, r, j);
    var a :| 0 <= a < |order| && order[a] == r;
    var b := PathGoesForward(succ, order, p, a);
  }

  function CountDown(n: nat): (r: seq<nat>)
    ensures |r| == n
    ensures forall v :: v in r <==> 0 <= v < n
  {
    if n == 0 then [] else [(n - 1) as nat] + CountDown(n - 1)
  }

  lemma Start(succ: Succ, roots: seq<nat>, seen: set<nat>, done: seq<nat>, v: nat)
    requires SearchInv(succ, roots, [[]], seen, done) && v in roots && v < |succ|
    ensures SearchInv(succ, roots, [[v]], seen, done)
    ensures Flatten([[v]]) == [v]
  {
    assert Connects(succ, [v], v, v);
    assert forall u :: !OnPath([[]], u) && !OnPath([[v]], u);
    assert Flatten([[v]]) == Flatten([]) + [v];
  }

  /** The top of the stack is the last entry of the top batch or, once that is used up, the path node below it.
      Either way it is the last entry of the last nonempty batch, `Base`. */
  ghost function Base(frames: seq<seq<nat>>): seq<seq<nat>>
    requires |frames| > 0
  {
    if frames[|frames| - 1] == [] then frames[..|frames| - 1] else frames
  }

  ghost function Dropped(base: seq<seq<nat>>): (f: seq<seq<nat>>)
    requires |base| > 0 && base[|base| - 1] != []
    ensures |f| == |base|
  {
    var top := |base| - 1;
    base[..top] + [base[top][..|base[top]| - 1]]
  }

  lemma TopOfStack(succ: Succ, frames: seq<seq<nat>>)
    requires Stacked(succ, frames) && Flatten(frames) != []
    ensures Base(frames) != [] && Base(frames)[|Base(frames)| - 1] != []
    ensures Flatten(frames)[|Flatten(frames)| - 1] == Last(Base(frames)[|Base(frames)| - 1])
    ensures Flatten(frames)[..|Flatten(frames)| - 1] == Flatten(Dropped(Base(frames)))
  {
    var base := Base(frames);
    if base != frames {
      FlattenSnoc(base, []);
      assert frames == base + [[]];
      assert Flatten(frames) == Flatten(base);
    }
    var top := |base| - 1;
    FlattenSnoc(base[..top], base[top][..|base[top]| - 1]);
  }

  lemma TopEntry(succ: Succ, roots: seq<nat>, frames: seq<seq<nat>>, seen: set<nat>, done: seq<nat>)
    requires SearchInv(succ, roots, frames, seen, done) && Flatten(frames) != []
    ensures |frames| > 0 && Base(frames) != [] && Base(frames)[|Base(frames)| - 1] != []
    ensures var flat := Flatten(frames); var w := flat[|flat| - 1];
      && AtTop(frames, w) && w < |succ| && ReachedFrom(succ, roots, w)
      && flat[..|flat| - 1] == Flatten(Dropped(Base(frames)))
      && |Dropped(Base(frames))| > 0
      && (forall v :: v in frames[0] ==> v in Dropped(Base(frames))[0] || v == w)
  {
    hide Flatten;
    TopOfStack(succ, frames);
    var flat := Flatten(frames);
    var w := flat[|flat| - 1];
    TopInRange(succ, roots, frames, w);
    DropRel(frames, w);
  }

  ghost predicate AtTop(frames: seq<seq<nat>>, w: nat) {
    |frames| > 0 && var base := Base(frames); base != [] && base[|base| - 1] != [] && Last(base[|base| - 1]) == w
  }

  lemma TopInRange(succ: Succ, roots: seq<nat>, frames: seq<seq<nat>>, w: nat)
    requires Rooted(succ, roots, frames) && AtTop(frames, w)
    ensures w < |succ| && ReachedFrom(succ, roots, w)
  {
    var k: nat := |Base(frames)| - 1;
    assert w in Base(frames)[k];
    assert w in frames[k];
  }

  /** A successor that is seen but unexplored closes a cycle through the top of the stack. */
  lemma BackEdgeIsCycle(succ: Succ, roots: seq<nat>, frames: seq<seq<nat>>, seen: set<nat>, done: seq<nat>, w: nat, j: nat)
    requires InRange(succ) && SearchInv(succ, roots, frames, seen, done)
    requires AtTop(frames, w) && w < |succ| && j in succ[w] && j !in done && (j in seen || j == w)
    ensures ReachedFrom(succ, roots, j) && exists p :: IsCycle(succ, p) && p[0] == j
  {
    TopInRange(succ, roots, frames, w);
    ReachStep(succ, roots, w, j);
    if j == w {
      assert IsCycle(succ, [w, w]);
    } else {
      PushesOnTop(succ, frames, done, w, j);
      var k: nat :| k < |frames| - 1 && frames[k] != [] && Last(frames[k]) == j;
      var p := StackPath(succ, frames, k, w);
      CloseCycle(succ, p, j, w);
    }
  }

  /** While the top node has an unexplored successor that is not waiting above it, its batch is not used up. */
  lemma PushesOnTop(succ: Succ, frames: seq<seq<nat>>, done: seq<nat>, w: nat, j: nat)
    requires Stacked(succ, frames) && Pending(succ, frames, done)
    requires AtTop(frames, w) && w < |succ| && j in succ[w] && j !in done
    ensures frames[|frames| - 1] != [] && w == Last(frames[|frames| - 1]) && w in frames[|frames| - 1]
  {
    if frames[|frames| - 1] == [] {
      assert false;
    }
  }

  lemma CloseCycle(succ: Succ, p: seq<nat>, j: nat, w: nat)
    requires Connects(succ, p, j, w) && j < |succ| && w < |succ| && j in succ[w]
    ensures IsCycle(succ, p + [j]) && (p + [j])[0] == j
  {
  }

  /** Seen and explored nodes are graph nodes, so both counts stay bounded: the loop measure. */
  lemma SizeBounds(succ: Succ, roots: seq<nat>, frames: seq<seq<nat>>, seen: set<nat>, done: seq<nat>)
    requires SearchInv(succ, roots, frames, seen, done)
    ensures |done| <= |succ| && |seen| <= |succ|
  {
    var all := Below(|succ|);
    var d := ToSet(done);
    DistinctSize(done);
    forall v | v in seen ensures v in all {
      if v !in done {
        var k: nat :| k < |frames| - 1 && frames[k] != [] && Last(frames[k]) == v;
      }
    }
    SubsetSize(seen, all);
    SubsetSize(d, all);
  }

  /** What dropping the top entry `w` changes: nothing but the last batch. */
  ghost predicate Drops(frames: seq<seq<nat>>, f': seq<seq<nat>>, w: nat) {
    && 0 < |f'| <= |frames| <= |f'| + 1
    && (forall k: nat {:trigger f'[k]} :: k < |f'| - 1 ==> f'[k] == frames[k])
    && frames[|f'| - 1] == f'[|f'| - 1] + [w]
    && (|f'| < |frames| ==> frames[|f'|] == [])
  }

  lemma DropRel(frames: seq<seq<nat>>, w: nat)
    requires AtTop(frames, w)
    ensures Drops(frames, Dropped(Base(frames)), w)
  {
  }

  lemma DropStacked(succ: Succ, frames: seq<seq<nat>>, f': seq<seq<nat>>, w: nat)
    requires Stacked(succ, frames) && Drops(frames, f', w)
    ensures Stacked(succ, f')
  {
    forall k: nat, j: nat | 0 < k < |f'| && j in f'[k] ensures j in succ[Last(f'[k - 1])] {
      assert j in frames[k];
    }
    forall k: nat, l: nat | k < l < |f'| ensures Last(f'[k]) !in f'[l] {
      assert Last(frames[k]) !in frames[l];
    }
  }

  lemma DropRooted(succ: Succ, roots: seq<nat>, frames: seq<seq<nat>>, f': seq<seq<nat>>, w: nat)
    requires Rooted(succ, roots, frames) && Drops(frames, f', w)
    ensures Rooted(succ, roots, f')
  {
    forall k: nat, v: nat {:trigger v in f'[k]} | k < |f'| && v in f'[k]
      ensures v < |succ| && ReachedFrom(succ, roots, v)
    {
      assert v in frames[k];
    }
  }

  lemma DropPending(succ: Succ, frames: seq<seq<nat>>, f': seq<seq<nat>>, done: seq<nat>, done': seq<nat>, w: nat)
    requires Stacked(succ, frames) && Stacked(succ, f') && Drops(frames, f', w) && Pending(succ, frames, done)
    requires done' == done + [w] || (done' == done && w in done)
    ensures Pending(succ, f', done')
  {
    forall k: nat | k < |f'| - 1 ensures Last(f'[k]) !in done' {
      assert Last(frames[k]) !in done;
      assert Last(frames[k]) !in frames[|f'| - 1];
    }
    forall k: nat, j: nat | k < |f'| - 1 && j in succ[Last(f'[k])] ensures j in done' || j in f'[k + 1] {
      assert j in succ[Last(frames[k])];
      assert j in done || j in frames[k + 1];
    }
  }

  lemma DropOnPath(succ: Succ, frames: seq<seq<nat>>, f': seq<seq<nat>>, w: nat, v: nat)
    requires Stacked(succ, frames) && Drops(frames, f', w)
    ensures OnPath(f', v) <==> OnPath(frames, v) && v != w
  {
    if OnPath(frames, v) && v != w {
      var k: nat :| k < |frames| - 1 && frames[k] != [] && Last(frames[k]) == v;
      assert k < |f'| - 1;
      assert Last(f'[k]) == v;
    }
    if OnPath(f', v) {
      var k: nat :| k < |f'| - 1 && f'[k] != [] && Last(f'[k]) == v;
      assert Last(frames[k]) == v;
      assert Last(frames[k]) !in frames[|f'| - 1];
    }
  }

  lemma Pop(succ: Succ, roots: seq<nat>, frames: seq<seq<nat>>, seen: set<nat>, done: seq<nat>, w: nat)
    requires SearchInv(succ, roots, frames, seen, done) && AtTop(frames, w) && w in done
    ensures SearchInv(succ, roots, Dropped(Base(frames)), seen, done)
  {
    var f' := Dropped(Base(frames));
    DropRel(frames, w);
    DropStacked(succ, frames, f', w);
    DropRooted(succ, roots, frames, f', w);
    DropPending(succ, frames, f', done, done, w);
    forall v: nat ensures v in seen <==> v in done || OnPath(f', v) {
      DropOnPath(succ, frames, f', w, v);
    }
  }

  /** A batch of unseen successors is only pushed on a node that was not expanded before. */
  lemma ExpandsFreshNode(succ: Succ, frames: seq<seq<nat>>, done: seq<nat>, w: nat, newNodes: seq<nat>)
    requires Stacked(succ, frames) && Pending(succ, frames, done)
    requires AtTop(frames, w) && w < |succ| && newNodes != []
    requires forall j :: j in newNodes ==> j in succ[w] && j !in done
    ensures frames[|frames| - 1] != [] && w == Last(frames[|frames| - 1]) && !OnPath(frames, w)
  {
    PushesOnTop(succ, frames, done, w, newNodes[0]);
    assert forall k: nat :: k < |frames| - 1 ==> Last(frames[k]) !in frames[|frames| - 1];
  }

  lemma ExpandOnPath(frames: seq<seq<nat>>, newNodes: seq<nat>, w: nat, v: nat)
    requires |frames| > 0 && frames[|frames| - 1] != [] && w == Last(frames[|frames| - 1])
    ensures OnPath(frames + [newNodes], v) <==> OnPath(frames, v) || v == w
  {
    var f' := frames + [newNodes];
    if OnPath(frames, v) {
      var k: nat :| k < |frames| - 1 && frames[k] != [] && Last(frames[k]) == v;
      assert Last(f'[k]) == v;
    }
    if v == w { assert Last(f'[|frames| - 1]) == w; }
    if OnPath(f', v) {
      var k: nat :| k < |f'| - 1 && f'[k] != [] && Last(f'[k]) == v;
      assert Last(frames[k]) == v;
    }
  }

  lemma ExpandRooted(succ: Succ, roots: seq<nat>, frames: seq<seq<nat>>, w: nat, newNodes: seq<nat>)
    requires InRange(succ) && Rooted(succ, roots, frames) && w < |succ| && ReachedFrom(succ, roots, w)
    requires forall j :: j in newNodes ==> j in succ[w]
    ensures Rooted(succ, roots, frames + [newNodes])
  {
    var f' := frames + [newNodes];
    forall k: nat, v: nat {:trigger v in f'[k]} | k < |f'| && v in f'[k]
      ensures v < |succ| && ReachedFrom(succ, roots, v)
    {
      if k == |frames| {
        ReachStep(succ, roots, w, v);
      } else {
        assert v in frames[k];
      }
    }
  }

  lemma Expand(succ: Succ, roots: seq<nat>, frames: seq<seq<nat>>, seen: set<nat>, done: seq<nat>, w: nat, newNodes: seq<nat>)
    requires InRange(succ) && SearchInv(succ, roots, frames, seen, done)
    requires AtTop(frames, w) && w < |succ| && w !in done && newNodes != []
    requires forall j :: j in newNodes <==> j in succ[w] && j !in done
    requires forall j :: j in newNodes ==> j !in seen && j != w
    ensures w !in seen
    ensures SearchInv(succ, roots, frames + [newNodes], seen + {w}, done)
  {
    TopInRange(succ, roots, frames, w);
    ExpandsFreshNode(succ, frames, done, w, newNodes);
    forall k: nat | k < |frames| - 1 ensures Last(frames[k]) !in newNodes {
      assert OnPath(frames, Last(frames[k]));
    }
    ExpandShape(succ, frames, done, w, newNodes);
    ExpandRooted(succ, roots, frames, w, newNodes);
    forall v: nat ensures v in seen + {w} <==> v in done || OnPath(frames + [newNodes], v) {
      ExpandOnPath(frames, newNodes, w, v);
    }
  }

  lemma ExpandShape(succ: Succ, frames: seq<seq<nat>>, done: seq<nat>, w: nat, newNodes: seq<nat>)
    requires Stacked(succ, frames) && Pending(succ, frames, done)
    requires frames[|frames| - 1] != [] && w == Last(frames[|frames| - 1]) && w < |succ| && w !in done
    requires forall j :: j in newNodes <==> j in succ[w] && j !in done
    requires w !in newNodes && forall k: nat :: k < |frames| - 1 ==> Last(frames[k]) !in newNodes
    ensures Stacked(succ, frames + [newNodes]) && Pending(succ, frames + [newNodes], done)
  {
    var top := |frames| - 1;
    var f' := frames + [newNodes];
    forall k: nat | k < top + 1 ensures f'[k] != [] && Last(f'[k]) < |succ| && Last(f'[k]) !in done {}
    forall k: nat, l: nat | k < l < |f'| ensures Last(f'[k]) !in f'[l] {
      if l < top + 1 { assert Last(frames[k]) !in frames[l]; }
    }
    forall k: nat, j | k < top + 1 && j in f'[k + 1] ensures j in succ[Last(f'[k])] {
      if k < top { assert j in frames[k + 1]; }
    }
    forall k: nat, j | k < top + 1 && j in succ[Last(f'[k])] ensures j in done || j in f'[k + 1] {}
  }

  lemma PostOrderSnoc(succ: Succ, done: seq<nat>, w: nat)
    requires IsPostOrder(succ, done) && w < |succ| && w !in done
    requires forall j :: j in succ[w] ==> j in done
    ensures IsPostOrder(succ, done + [w])
  {
    var done' := done + [w];
    forall a: nat, j: nat | a < |done'| && j in succ[done'[a]] ensures j in done'[..a] {
      if a < |done| { assert done'[..a] == done[..a]; } else { assert done'[..a] == done; }
    }
  }

  lemma Finish(succ: Succ, roots: seq<nat>, frames: seq<seq<nat>>, seen: set<nat>, done: seq<nat>, w: nat)
    requires SearchInv(succ, roots, frames, seen, done)
    requires AtTop(frames, w) && w < |succ| && w !in done
    requires forall j :: j in succ[w] ==> j in done
    ensures SearchInv(succ, roots, Dropped(Base(frames)), seen + {w}, done + [w])
  {
    var f' := Dropped(Base(frames));
    TopInRange(succ, roots, frames, w);
    DropRel(frames, w);
    DropStacked(succ, frames, f', w);
    DropRooted(succ, roots, frames, f', w);
    DropPending(succ, frames, f', done, done + [w], w);
    PostOrderSnoc(succ, done, w);
    forall v: nat ensures v in seen + {w} <==> v in done + [w] || OnPath(f', v) {
      DropOnPath(succ, frames, f', w, v);
    }
  }

  lemma Stop(succ: Succ, roots: seq<nat>, frames: seq<seq<nat>>, seen: set<nat>, done: seq<nat>)
    requires SearchInv(succ, roots, frames, seen, done) && Flatten(frames) == []
    ensures frames == [[]]
  {
    FlattenSnoc(frames[..|frames| - 1], frames[|frames| - 1]);
    assert frames == frames[..|frames| - 1] + [frames[|frames| - 1]];
  }

  /** The successors of `w` still to be looked at, or the one that closes a cycle. */
  method NewNodes(succ: Succ, w: nat, seen: set<nat>, explored: seq<nat>) returns (newNodes: seq<nat>, bad: SortResult)
    requires w < |succ| && w in seen
    ensures bad.GraphError? ==> bad.node in succ[w] && bad.node !in explored && bad.node in seen
    ensures bad.Order? ==> forall j :: j in newNodes <==> j in succ[w] && j !in explored
    ensures bad.Order? ==> forall j :: j in newNodes ==> j !in seen
  {
    newNodes, bad := [], Order([]);
    for i := 0 to |succ[w]|
      invariant forall j :: j in newNodes <==> j in succ[w][..i] && j !in explored
      invariant forall j :: j in newNodes ==> j !in seen
    {
      var n := succ[w][i];
      if n !in explored {
        if n in seen {
          return newNodes, GraphError(n);
        }
        newNodes := newNodes + [n];
      }
    }
    assert succ[w][..|succ[w]|] == succ[w];
  }

  /** The search from one root: explores everything the root reaches, or finds a cycle. */
  method Explore(succ: Succ, ghost roots: seq<nat>, v: nat, seen0: set<nat>, explored0: seq<nat>)
    returns (seen: set<nat>, explored: seq<nat>, bad: SortResult)
    requires InRange(succ) && v in roots && v < |succ|
    requires SearchInv(succ, roots, [[]], seen0, explored0)
    ensures bad.GraphError? ==> ReachedFrom(succ, roots, bad.node) && exists p :: IsCycle(succ, p) && p[0] == bad.node
    ensures bad.Order? ==> SearchInv(succ, roots, [[]], seen, explored) && v in explored && explored0 <= explored
  {
    hide *;
    seen, explored, bad := seen0, explored0, Order([]);
    var fringe := [v];
    ghost var frames: seq<seq<nat>> := [[v]];
    Start(succ, roots, seen, explored, v);
    while fringe != []
      invariant SearchInv(succ, roots, frames, seen, explored)
      invariant fringe == Flatten(frames)
      invariant explored0 <= explored && bad.Order?
      invariant |frames| > 0 && (v in explored || v in frames[0])
      decreases |succ| - |explored|, |succ| - |seen|, |fringe|
    {
      SizeBounds(succ, roots, frames, seen, explored);
      TopEntry(succ, roots, frames, seen, explored);
      var w := fringe[|fringe| - 1];
      if w in explored {
        Pop(succ, roots, frames, seen, explored, w);
        frames, fringe := Dropped(Base(frames)), fringe[..|fringe| - 1];
      } else {
        ghost var before := seen;
        seen := seen + {w};
        var newNodes;
        newNodes, bad := NewNodes(succ, w, seen, explored);
        if bad.GraphError? {
          BackEdgeIsCycle(succ, roots, frames, before, explored, w, bad.node);
          return;
        }
        if newNodes != [] {
          Expand(succ, roots, frames, before, explored, w, newNodes);
          FlattenSnoc(frames, newNodes);
          frames, fringe := frames + [newNodes], fringe + newNodes;
        } else {
          Finish(succ, roots, frames, before, explored, w);
          explored := explored + [w];
          frames, fringe := Dropped(Base(frames)), fringe[..|fringe| - 1];
        }
        SizeBounds(succ, roots, frames, seen, explored);
      }
    }
    Stop(succ, roots, frames, seen, explored);
  }

  /** Compiler/graph.py:105-154 without `pref`. */
  method TopologicalSort(succ: Succ, nbunch: seq<nat>) returns (r: SortResult)
    requires InRange(succ) && forall v :: v in nbunch ==> v < |succ|
    ensures r.GraphError? <==> exists p :: IsCycle(succ, p) && ReachedFrom(succ, nbunch, p[0])
    ensures r.GraphError? ==> exists p :: IsCycle(succ, p) && p[0] == r.node
    ensures r.Order? ==> IsTopological(succ, r.nodes)
    ensures r.Order? ==> forall v :: v in r.nodes <==> ReachedFrom(succ, nbunch, v)
  {
    var seen, explored, bad := {}, [], Order([]);
    for i := 0 to |nbunch|
      invariant SearchInv(succ, nbunch, [[]], seen, explored)
      invariant forall a :: 0 <= a < i ==> nbunch[a] in explored
    {
      if nbunch[i] !in explored {
        seen, explored, bad := Explore(succ, nbunch, nbunch[i], seen, explored);
        if bad.GraphError? {
          return bad;
        }
      }
    }
    PostOrderReverses(succ, explored);
    r := Order(Reversed(explored));
    forall v | ReachedFrom(succ, nbunch, v) ensures v in r.nodes {
      TopologicalIsClosed(succ, r.nodes, nbunch, v);
    }
    forall p | IsCycle(succ, p) && ReachedFrom(succ, nbunch, p[0]) ensures false {
      TopologicalIsAcyclic(succ, r.nodes, p);
    }
  }
}
