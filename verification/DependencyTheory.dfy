/** What the dependency graph of a block, and its contraction, keep true (Compiler/allocator.py:350-479, 651-724). */
module DependencyTheory {
  import opened FiniteSets
  import opened Graph
  import opened BlockSemantics
  import opened SparseDiGraphs

  /** Instructions of one kind may be merged if their `id` (merge_id) is equal; `width` is what a round charges for it. */
  datatype MergeKind = NotMerged | Merged(kind: nat, id: nat, width: nat)
  datatype BlockInstr = BlockInstr(instr: Instr, merge: MergeKind)
  type Block = seq<BlockInstr>

  ghost function Plain(block: Block): (p: seq<Instr>)
    ensures |p| == |block| && forall k: nat :: k < |p| ==> p[k] == block[k].instr
  {
    seq(|block|, k requires 0 <= k < |block| => block[k].instr)
  }

  ghost function Open(block: Block, n: nat): (s: set<nat>)
    requires n <= |block|
    ensures forall i: nat :: i in s <==> i < n && block[i].merge.Merged?
  {
    set i: nat | i < n && block[i].merge.Merged?
  }

  ghost predicate WellNamed(block: Block, loc: seq<nat>) {
    forall i: nat :: i < |block| ==> Named(loc, block[i].instr.defs) && Named(loc, block[i].instr.uses)
  }

  /** The duplicates of a register: all names of its location. */
  function Duplicates(loc: seq<nat>, r: nat): (s: set<nat>)
    requires r < |loc|
    ensures forall q: nat :: q in s <==> q < |loc| && loc[q] == loc[r]
  {
    set q: nat | q < |loc| && loc[q] == loc[r]
  }

  // ----- the graph of the whole block -----

  ghost predicate Forward(succ: Succ) {
    forall i: nat, j: nat {:trigger j in succ[i]} :: i < |succ| && j in succ[i] ==> i < j < |succ|
  }

  /** Depths never fall along an edge, and rise on the way into an instruction that will be merged. */
  ghost predicate Layered(succ: Succ, depths: seq<nat>, open: set<nat>) {
    && |depths| == |succ|
    && forall i: nat, j: nat {:trigger j in succ[i]} :: i < |succ| && j < |succ| && j in succ[i] ==>
         depths[i] <= depths[j] && (j in open ==> depths[i] < depths[j])
  }

  /** Interfering instructions among the first `n` are joined by a path. */
  ghost predicate Covers(block: Block, loc: seq<nat>, succ: Succ, n: nat) {
    forall i: nat, j: nat {:trigger Conflict(loc, block[i].instr, block[j].instr)} :: i < j < n && n <= |block| && Conflict(loc, block[i].instr, block[j].instr) ==> Reaches(succ, i, j)
  }

  ghost predicate LastDefOk(block: Block, loc: seq<nat>, lastDef: seq<int>, n: nat)
    requires n <= |block|
  {
    && |lastDef| == |loc|
    && forall r: nat :: r < |loc| ==> DefinedLast(block, lastDef[r], r, n)
  }

  ghost predicate DefinedLast(block: Block, d: int, r: nat, n: nat)
    requires n <= |block|
  {
    && -1 <= d < n
    && (d >= 0 ==> r in block[d].instr.defs)
    && forall i: nat {:trigger block[i]} :: d < i < n ==> r !in block[i].instr.defs
  }

  ghost predicate LastReadOk(block: Block, loc: seq<nat>, lastRead: seq<seq<nat>>, n: nat)
    requires n <= |block|
  {
    && |lastRead| == |loc|
    && forall r: nat, i: nat {:trigger i in lastRead[r]} :: r < |loc| ==> (i in lastRead[r] <==> i < n && r in block[i].instr.uses)
  }

  /** `s1` is `s0` with edges from exactly the nodes of `preds` into `n`. */
  ghost predicate Into(s0: Succ, s1: Succ, n: nat, preds: set<nat>) {
    && |s1| == |s0|
    && forall a: nat, b: nat {:trigger b in s1[a]} {:trigger b in s0[a]} :: a < |s0| ==>
         (b in s1[a] <==> b in s0[a] || (b == n && a in preds))
  }

  lemma IntoAdded(s0: Succ, s1: Succ, s2: Succ, n: nat, preds: set<nat>, i: nat)
    requires Into(s0, s1, n, preds) && Added(s1, s2, i, n)
    ensures Into(s0, s2, n, preds + {i})
  {
  }

  lemma IntoInto(s0: Succ, s1: Succ, s2: Succ, n: nat, p: set<nat>, q: set<nat>)
    requires Into(s0, s1, n, p) && Into(s1, s2, n, q)
    ensures Into(s0, s2, n, p + q)
  {
  }

  lemma PathsSurvive(s0: Succ, s1: Succ, n: nat, preds: set<nat>, i: nat, j: nat)
    requires Into(s0, s1, n, preds) && Reaches(s0, i, j)
    ensures Reaches(s1, i, j)
  {
    var p :| Connects(s0, p, i, j);
    assert Connects(s1, p, i, j);
  }

  lemma ReachesEdge(succ: Succ, i: nat, j: nat)
    requires i < |succ| && j < |succ| && j in succ[i]
    ensures Reaches(succ, i, j)
  {
    assert Connects(succ, [i, j], i, j);
  }

  lemma ReachesTransitive(succ: Succ, i: nat, j: nat, k: nat)
    requires Reaches(succ, i, j) && Reaches(succ, j, k)
    ensures Reaches(succ, i, k)
  {
    var p :| Connects(succ, p, i, j);
    var q :| Connects(succ, q, j, k);
    var r := p + q[1..];
    forall a: nat | a < |r| - 1 ensures r[a + 1] in succ[r[a]] {
      if a < |p| - 1 {
        assert p[a + 1] in succ[p[a]];
      } else {
        assert q[a - |p| + 2] in succ[q[a - |p| + 1]];
      }
    }
    assert Connects(succ, r, i, k);
  }

  /** The predecessors an instruction must have: the last writers of every register it names,
      and all earlier readers of every register it writes. */
  ghost predicate PredsComplete(block: Block, loc: seq<nat>, n: nat, lastDef: seq<int>, lastRead: seq<seq<nat>>, preds: set<nat>)
    requires n < |block| && |lastDef| == |lastRead| == |loc|
  {
    && (forall r: nat, q: nat {:trigger r in block[n].instr.defs, loc[q]} ::
          r in block[n].instr.defs && r < |loc| && q < |loc| && loc[q] == loc[r] ==>
            (lastDef[q] == -1 || lastDef[q] in preds) && forall m :: m in lastRead[q] ==> m in preds)
    && (forall r: nat, q: nat {:trigger r in block[n].instr.uses, loc[q]} ::
          r in block[n].instr.uses && r < |loc| && q < |loc| && loc[q] == loc[r] ==> lastDef[q] == -1 || lastDef[q] in preds)
  }

  /** An earlier definition of `q` reaches whatever its last definition reaches. */
  lemma LastDefReaches(block: Block, loc: seq<nat>, succ: Succ, n: nat, lastDef: seq<int>, i: nat, q: nat)
    requires n < |block| && |succ| == |block| && WellNamed(block, loc)
    requires Covers(block, loc, succ, n) && LastDefOk(block, loc, lastDef, n)
    requires i < n && q < |loc| && q in block[i].instr.defs
    requires lastDef[q] >= 0 && lastDef[q] < |succ| && n in succ[lastDef[q]]
    ensures lastDef[q] >= i && Reaches(succ, i, n)
  {
    assert DefinedLast(block, lastDef[q], q, n);
    assert block[i].instr == block[i].instr;
    var m := lastDef[q];
    assert m >= i;
    ReachesEdge(succ, m, n);
    if i < m {
      DefinesNamed(loc, block[i].instr, q);
      DefinesNamed(loc, block[m].instr, q);
      assert Conflict(loc, block[i].instr, block[m].instr);
      ReachesTransitive(succ, i, m, n);
    }
  }

  lemma DefinesNamed(loc: seq<nat>, i: Instr, q: nat)
    requires q in i.defs && q < |loc|
    ensures Defines(loc, i, loc[q])
  {
    var k: nat :| k < |i.defs| && i.defs[k] == q;
    assert loc[i.defs[k]] == loc[q];
  }

  /** One more instruction: its predecessors extend the paths of the others. */
  lemma CoversNext(block: Block, loc: seq<nat>, s0: Succ, s1: Succ, n: nat, lastDef: seq<int>, lastRead: seq<seq<nat>>, preds: set<nat>)
    requires n < |block| && |s0| == |block| && WellNamed(block, loc)
    requires Covers(block, loc, s0, n) && LastDefOk(block, loc, lastDef, n) && LastReadOk(block, loc, lastRead, n)
    requires Into(s0, s1, n, preds) && PredsComplete(block, loc, n, lastDef, lastRead, preds)
    ensures Covers(block, loc, s1, n + 1)
  {
    forall i: nat, j: nat {:trigger Conflict(loc, block[i].instr, block[j].instr)} | i < j < n && Conflict(loc, block[i].instr, block[j].instr)
      ensures Reaches(s1, i, j)
    {
      PathsSurvive(s0, s1, n, preds, i, j);
    }
    assert Covers(block, loc, s1, n);
    forall i: nat {:trigger block[i]} | i < n && Conflict(loc, block[i].instr, block[n].instr)
      ensures Reaches(s1, i, n)
    {
      ConflictReaches(block, loc, s1, n, lastDef, lastRead, preds, i);
    }
  }

  lemma ConflictReaches(block: Block, loc: seq<nat>, succ: Succ, n: nat, lastDef: seq<int>, lastRead: seq<seq<nat>>,
                        preds: set<nat>, i: nat)
    requires n < |block| && |succ| == |block| && WellNamed(block, loc)
    requires Covers(block, loc, succ, n) && LastDefOk(block, loc, lastDef, n) && LastReadOk(block, loc, lastRead, n)
    requires forall a: nat :: a in preds ==> a < |succ| ==> n in succ[a]
    requires PredsComplete(block, loc, n, lastDef, lastRead, preds)
    requires i < n && Conflict(loc, block[i].instr, block[n].instr)
    ensures Reaches(succ, i, n)
  {
    var a, b := block[i].instr, block[n].instr;
    var x :| (Defines(loc, a, x) && (Defines(loc, b, x) || Uses(loc, b, x))) || (Uses(loc, a, x) && Defines(loc, b, x));
    if Defines(loc, a, x) {
      var k: nat :| k < |a.defs| && a.defs[k] < |loc| && loc[a.defs[k]] == x;
      var q := a.defs[k];
      assert DefinedLast(block, lastDef[q], q, n);
      assert block[i] == block[i];
      assert lastDef[q] != -1;
      if Defines(loc, b, x) {
        var l: nat :| l < |b.defs| && b.defs[l] < |loc| && loc[b.defs[l]] == x;
        assert b.defs[l] in b.defs;
      } else {
        var l: nat :| l < |b.uses| && b.uses[l] < |loc| && loc[b.uses[l]] == x;
        assert b.uses[l] in b.uses;
      }
      assert lastDef[q] in preds;
      LastDefReaches(block, loc, succ, n, lastDef, i, q);
    } else {
      var k: nat :| k < |a.uses| && a.uses[k] < |loc| && loc[a.uses[k]] == x;
      var l: nat :| l < |b.defs| && b.defs[l] < |loc| && loc[b.defs[l]] == x;
      assert b.defs[l] in b.defs;
      assert i in lastRead[a.uses[k]];
      ReachesEdge(succ, i, n);
    }
  }

  /** Depths stay layered when `n`, which nothing follows yet, moves below all its predecessors. */
  lemma LayeredInto(s0: Succ, s1: Succ, d0: seq<nat>, d1: seq<nat>, open: set<nat>, n: nat, preds: set<nat>, opens: bool)
    requires Layered(s0, d0, open) && Forward(s0) && Into(s0, s1, n, preds) && n < |s0| && n !in open
    requires forall j: nat, i: nat {:trigger j in s0[i]} :: i < |s0| && j in s0[i] ==> j < n
    requires |d1| == |d0| && d1 == d0[n := d1[n]] && forall a: nat :: a in preds ==> a < n && d0[a] <= d1[n]
    requires opens ==> forall a: nat :: a in preds ==> d0[a] < d1[n]
    ensures Forward(s1) && Layered(s1, d1, if opens then open + {n} else open)
    ensures forall j: nat, i: nat {:trigger j in s1[i]} :: i < |s1| && j in s1[i] ==> j < n + 1
  {
  }

  // ----- contraction -----

  /** Strictly grows along every edge, before and after any number of contractions:
      depth first; within a depth, merged nodes first and the others in text order. */
  ghost function Rank(depths: seq<nat>, open: set<nat>, a: nat): nat
    requires a < |depths|
  {
    depths[a] * (|depths| + 1) + (if a in open then 0 else a + 1)
  }

  ghost predicate Ranked(succ: Succ, depths: seq<nat>, open: set<nat>) {
    && |depths| == |succ|
    && forall a: nat, b: nat {:trigger b in succ[a]} :: a < |succ| && b in succ[a] ==>
         b < |succ| && Rank(depths, open, a) < Rank(depths, open, b)
  }

  lemma DepthDominates(d1: nat, d2: nat, n: nat, x: nat, y: nat)
    requires d1 < d2 && x <= n
    ensures d1 * (n + 1) + x < d2 * (n + 1) + y
  {
    assert (d1 + 1) * (n + 1) <= d2 * (n + 1);
  }

  lemma LayeredIsRanked(succ: Succ, depths: seq<nat>, open: set<nat>)
    requires Forward(succ) && Layered(succ, depths, open)
    ensures Ranked(succ, depths, open)
  {
    forall a: nat, b: nat {:trigger b in succ[a]} | a < |succ| && b in succ[a]
      ensures b < |succ| && Rank(depths, open, a) < Rank(depths, open, b)
    {
      if depths[a] < depths[b] {
        DepthDominates(depths[a], depths[b], |depths|, if a in open then 0 else a + 1, if b in open then 0 else b + 1);
      }
    }
  }

  lemma {:induction false} RankGrows(succ: Succ, depths: seq<nat>, open: set<nat>, p: seq<nat>)
    requires Ranked(succ, depths, open) && IsPath(succ, p) && |p| >= 2
    ensures Rank(depths, open, p[0]) < Rank(depths, open, p[|p| - 1])
    decreases |p|
  {
    assert p[1] in succ[p[0]];
    if |p| > 2 {
      var q := p[1..];
      forall a: nat | a < |q| - 1 ensures q[a + 1] in succ[q[a]] {
        assert p[a + 2] in succ[p[a + 1]];
      }
      RankGrows(succ, depths, open, q);
    }
  }

  /** Before and after any contractions, a path between instructions to be merged leads strictly deeper: at one depth
      there is none. */
  lemma NoPathWithinDepth(succ: Succ, depths: seq<nat>, open: set<nat>, p: seq<nat>)
    requires Ranked(succ, depths, open) && IsPath(succ, p) && |p| >= 2 && p[0] in open && p[|p| - 1] in open
    ensures |depths| == |succ| && depths[p[0]] < depths[p[|p| - 1]]
  {
    hide Ranked;
    RankGrows(succ, depths, open, p);
    RankedSizes(succ, depths, open);
    var d, e := depths[p[0]], depths[p[|p| - 1]];
    if e < d {
      DepthDominates(e, d, |depths|, 0, 0);
    }
  }

  lemma RankedSizes(succ: Succ, depths: seq<nat>, open: set<nat>)
    requires Ranked(succ, depths, open)
    ensures |depths| == |succ|
  {
  }

  lemma RankedIsAcyclic(succ: Succ, depths: seq<nat>, open: set<nat>, p: seq<nat>)
    requires Ranked(succ, depths, open)
    ensures !IsCycle(succ, p)
  {
    if IsCycle(succ, p) {
      RankGrows(succ, depths, open, p);
    }
  }

  /** `s1` is `s0` after node `j` has been merged into node `i`. */
  ghost predicate Contracted(s0: Succ, s1: Succ, i: nat, j: nat, removed: set<nat>) {
    && |s1| == |s0| && i < |s0| && j < |s0|
    && forall a: nat, b: nat {:trigger b in s1[a]} {:trigger b in s0[a]} :: a < |s0| ==>
         (b in s1[a] <==>
            || (Linked(s0, i, j, a, b) && !(b == j && a != j && a !in removed))
            || (a == i && Linked(s0, i, j, j, b))
            || (b == i && a !in removed && Linked(s0, i, j, a, j)))
  }

  /** An edge other than those between the two nodes being merged. */
  ghost predicate Linked(s: Succ, i: nat, j: nat, a: nat, b: nat)
    requires a < |s|
  {
    b in s[a] && !(a == i && b == j) && !(a == j && b == i)
  }

  lemma ContractedIsRanked(s0: Succ, s1: Succ, depths: seq<nat>, open: set<nat>, i: nat, j: nat, removed: set<nat>)
    requires Ranked(s0, depths, open) && Contracted(s0, s1, i, j, removed)
    requires i in open && j in open && depths[i] == depths[j]
    ensures Ranked(s1, depths, open)
  {
    forall a: nat, b: nat {:trigger b in s1[a]} | a < |s1| && b in s1[a]
      ensures b < |s1| && Rank(depths, open, a) < Rank(depths, open, b)
    {
      if b in s0[a] {
      } else if a == i && b in s0[j] {
        assert Rank(depths, open, i) == Rank(depths, open, j);
      } else {
        assert j in s0[a];
      }
    }
  }

  /** Every edge of the block's graph is still there between the representatives. */
  ghost predicate Carried(s0: Succ, succ: Succ, rep: seq<nat>) {
    && |rep| == |s0| == |succ|
    && (forall a: nat :: a < |rep| ==> rep[a] < |rep|)
    && forall a: nat, b: nat {:trigger b in s0[a]} :: a < |s0| && b < |s0| && b in s0[a] ==> rep[b] in succ[rep[a]]
  }

  /** Representatives: merged nodes share depth and are all to be merged. */
  ghost predicate Represents(rep: seq<nat>, depths: seq<nat>, open: set<nat>) {
    && |rep| == |depths|
    && (forall a: nat :: a < |rep| ==> rep[a] < |rep|)
    && (forall a: nat :: a < |rep| ==> rep[rep[a]] == rep[a])
    && (forall a: nat :: a < |rep| && rep[a] != a ==> a in open && rep[a] in open && depths[a] == depths[rep[a]])
  }

  ghost function Redirect(rep: seq<nat>, i: nat, j: nat): (r: seq<nat>)
    ensures |r| == |rep| && forall a: nat :: a < |r| ==> r[a] == if rep[a] == j then i else rep[a]
  {
    seq(|rep|, a requires 0 <= a < |rep| => if rep[a] == j then i else rep[a])
  }

  lemma RedirectRepresents(rep: seq<nat>, depths: seq<nat>, open: set<nat>, i: nat, j: nat)
    requires Represents(rep, depths, open) && i < |rep| && j < |rep| && rep[i] == i && rep[j] == j && i != j
    requires i in open && j in open && depths[i] == depths[j]
    ensures Represents(Redirect(rep, i, j), depths, open)
  {
    var r := Redirect(rep, i, j);
    forall a: nat | a < |r| && r[a] != a ensures a in open && r[a] in open && depths[a] == depths[r[a]] {
      assert rep[a] != a || a == j;
    }
  }

  lemma CarriedContracted(g: Succ, s0: Succ, s1: Succ, rep: seq<nat>, depths: seq<nat>, open: set<nat>, i: nat, j: nat, removed: set<nat>)
    requires Carried(g, s0, rep) && Contracted(s0, s1, i, j, removed) && Ranked(s0, depths, open)
    requires Represents(rep, depths, open) && rep[i] == i && rep[j] == j && i != j
    requires i in open && j in open && depths[i] == depths[j]
    requires forall a: nat :: a < |rep| ==> rep[a] !in removed
    ensures Carried(g, s1, Redirect(rep, i, j))
  {
    var r := Redirect(rep, i, j);
    forall a: nat, b: nat {:trigger b in g[a]} | a < |g| && b < |g| && b in g[a] ensures r[b] in s1[r[a]] {
      var x, y := rep[a], rep[b];
      assert y in s0[x];
      assert Rank(depths, open, x) < Rank(depths, open, y);
      assert Rank(depths, open, i) == Rank(depths, open, j);
      if x == j {
        assert y in s1[i];
      } else if y == j {
        assert i in s1[x];
      } else {
        assert y in s1[x];
      }
    }
  }

  lemma {:induction false} CarriedPath(g: Succ, succ: Succ, rep: seq<nat>, p: seq<nat>)
    requires Carried(g, succ, rep) && IsPath(g, p)
    ensures Reaches(succ, rep[p[0]], rep[p[|p| - 1]])
    decreases |p|
  {
    if |p| == 1 {
      assert Connects(succ, [rep[p[0]]], rep[p[0]], rep[p[0]]);
    } else {
      assert p[1] in g[p[0]];
      var q := p[1..];
      forall a: nat | a < |q| - 1 ensures q[a + 1] in g[q[a]] {
        assert p[a + 2] in g[p[a + 1]];
      }
      CarriedPath(g, succ, rep, q);
      ReachesEdge(succ, rep[p[0]], rep[p[1]]);
      ReachesTransitive(succ, rep[p[0]], rep[p[1]], rep[p[|p| - 1]]);
    }
  }

  lemma RepRank(rep: seq<nat>, depths: seq<nat>, open: set<nat>, a: nat)
    requires Represents(rep, depths, open) && a < |rep|
    ensures Rank(depths, open, rep[a]) == Rank(depths, open, a)
  {
  }

  // ----- the order of the merged block -----

  /** All members of the groups listed, group after group. */
  ghost function Flat(groups: seq<seq<nat>>, order: seq<nat>): seq<nat>
    requires forall k: nat :: k < |order| ==> order[k] < |groups|
  {
    if order == [] then [] else groups[order[0]] + Flat(groups, order[1..])
  }

  /** `groups[x]` lists, in text order, the nodes represented by `x`. */
  ghost predicate Grouped(groups: seq<seq<nat>>, rep: seq<nat>) {
    && |groups| == |rep|
    && (forall x: nat, v: nat {:trigger v in groups[x]} :: x < |rep| ==> (v in groups[x] <==> v < |rep| && rep[v] == x))
    && (forall x: nat :: x < |rep| ==> Ascending(groups[x]))
  }

  ghost predicate Ascending(s: seq<nat>) {
    forall a: nat, b: nat :: a < b < |s| ==> s[a] < s[b]
  }

  lemma {:induction false} FlatMembers(groups: seq<seq<nat>>, rep: seq<nat>, order: seq<nat>)
    requires Grouped(groups, rep) && DistinctIn(|rep|, order)
    ensures forall v: nat :: v in Flat(groups, order) <==> v < |rep| && rep[v] in order
    ensures DistinctIn(|rep|, Flat(groups, order))
  {
    if order != [] {
      var x, rest := order[0], Flat(groups, order[1..]);
      FlatMembers(groups, rep, order[1..]);
      var flat := Flat(groups, order);
      assert order == [x] + order[1..];
      assert x !in order[1..];
      forall a: nat, b: nat | a < b < |flat| ensures flat[a] != flat[b] {
        var m := |groups[x]|;
        if a < m <= b {
          assert groups[x][a] in groups[x];
          assert rest[b - m] in rest;
        }
      }
      forall a: nat | a < |flat| ensures flat[a] < |rep| {
        if a < |groups[x]| { assert groups[x][a] in groups[x]; }
      }
    }
  }

  lemma BeforeByAt(o: seq<nat>, u: nat, v: nat) returns (a: nat, b: nat)
    requires Before(o, u, v)
    ensures a < b < |o| && o[a] == u && o[b] == v
  {
    a, b :| a < b < |o| && o[a] == u && o[b] == v;
  }

  lemma {:induction false} FlatKeepsGroupOrder(groups: seq<seq<nat>>, rep: seq<nat>, order: seq<nat>, u: nat, v: nat)
    requires Grouped(groups, rep) && DistinctIn(|rep|, order) && u < |rep| && v < |rep|
    requires Before(order, rep[u], rep[v])
    ensures Before(Flat(groups, order), u, v)
  {
    var a, b := BeforeByAt(order, rep[u], rep[v]);
    var x, tail := order[0], order[1..];
    var rest := Flat(groups, tail);
    FlatMembers(groups, rep, tail);
    var m := |groups[x]|;
    if a == 0 {
      assert u in groups[x];
      assert tail[b - 1] == rep[v];
      assert v in rest;
      var c := FindIndex(groups[x], u);
      var d := FindIndex(rest, v);
      assert Flat(groups, order)[c] == u && Flat(groups, order)[m + d] == v;
    } else {
      assert tail[a - 1] == rep[u] && tail[b - 1] == rep[v];
      FlatKeepsGroupOrder(groups, rep, tail, u, v);
      var c, d := BeforeByAt(rest, u, v);
      assert Flat(groups, order)[m + c] == u && Flat(groups, order)[m + d] == v;
    }
  }

  ghost function Identity(n: nat): (s: seq<nat>)
    ensures |s| == n && DistinctIn(n, s)
    ensures forall v: nat :: v in s <==> v < n
    ensures forall k: nat :: k < n ==> s[k] == k
  {
    var s := seq(n, k requires 0 <= k < n => k as nat);
    assert forall v: nat :: v < n ==> v in s by {
      forall v: nat | v < n ensures v in s { assert s[v] == v; }
    }
    s
  }

  lemma SameLength(n: nat, o: seq<nat>)
    requires DistinctIn(n, o) && forall v: nat :: v < n ==> v in o
    ensures |o| == n
  {
    DistinctSize(o);
    var all := Below(n);
    assert ToSet(o) == all;
  }

  /** The heart of the pass: any topological order of the contracted graph runs every interfering
      pair of instructions in text order, and instructions merged into one do not interfere. */
  lemma ContractionKeepsConflicts(block: Block, loc: seq<nat>, g: Succ, succ: Succ, depths: seq<nat>, open: set<nat>, rep: seq<nat>,
                                  groups: seq<seq<nat>>, order: seq<nat>)
    requires |g| == |block| && Covers(block, loc, g, |block|) && Ranked(g, depths, open)
    requires Carried(g, succ, rep) && Represents(rep, depths, open) && Grouped(groups, rep)
    requires IsTopological(succ, order) && DistinctIn(|rep|, order) && forall a: nat :: a < |rep| ==> rep[a] in order
    ensures KeepsConflictOrder(loc, Plain(block), Identity(|block|), Flat(groups, order))
    ensures forall i: nat, j: nat :: i < j < |block| && rep[i] == rep[j] ==> !Conflict(loc, block[i].instr, block[j].instr)
  {
    var p, id := Plain(block), Identity(|block|);
    forall u: nat, v: nat | u < v < |block| && Conflict(loc, block[u].instr, block[v].instr)
      ensures rep[u] != rep[v] && Before(Flat(groups, order), u, v)
    {
      ConflictIsOrdered(block, loc, g, succ, depths, open, rep, order, u, v);
      FlatKeepsGroupOrder(groups, rep, order, u, v);
    }
    forall u: nat, v: nat {:trigger Before(id, u, v)} | Before(id, u, v) && u < |p| && v < |p| && Conflict(loc, p[u], p[v])
      ensures Before(Flat(groups, order), u, v)
    {
      var a, b := BeforeByAt(id, u, v);
    }
  }

  lemma ConflictIsOrdered(block: Block, loc: seq<nat>, g: Succ, succ: Succ, depths: seq<nat>, open: set<nat>, rep: seq<nat>,
                          order: seq<nat>, u: nat, v: nat)
    requires |g| == |block| && Covers(block, loc, g, |block|) && Ranked(g, depths, open)
    requires Carried(g, succ, rep) && Represents(rep, depths, open)
    requires IsTopological(succ, order) && forall a: nat :: a < |rep| ==> rep[a] in order
    requires u < v < |block| && Conflict(loc, block[u].instr, block[v].instr)
    ensures rep[u] != rep[v] && Before(order, rep[u], rep[v])
  {
    assert Reaches(g, u, v);
    var path :| Connects(g, path, u, v);
    RankGrows(g, depths, open, path);
    RepRank(rep, depths, open, u);
    RepRank(rep, depths, open, v);
    CarriedPath(g, succ, rep, path);
    var q :| Connects(succ, q, rep[u], rep[v]);
    var a := FindIndex(order, rep[u]);
    var b := PathGoesForward(succ, order, q, a);
    assert order[a] == rep[u] && order[b] == rep[v];
  }
}
