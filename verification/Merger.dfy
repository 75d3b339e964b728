/** Compiler/allocator.py:337-479, 651-724: building the dependency graph of a block, giving each
    communicating instruction a depth, merging equal depths and reordering the block. */
module Merging {
  import opened Graph
  import opened BlockSemantics
  import opened SparseDiGraphs
  import opened DependencyTheory

  /** A place in the instruction list: emptied by merging, or the instructions merged into it. */
  datatype Slot = Gone | Kept(parts: seq<Instr>)

  // ----- edges into one instruction -----

  ghost predicate EdgesTo(s0: Succ, s1: Succ, d0: seq<nat>, d1: seq<nat>, n: nat, preds: set<nat>) {
    && Into(s0, s1, n, preds)
    && |d1| == |d0| && n < |d0|
    && d0[n] <= d1[n] && d1 == d0[n := d1[n]]
    && (forall a: nat :: a in preds ==> a < n && d0[a] <= d1[n])
    && (d1[n] == d0[n] || exists a: nat :: a in preds && a < n && d0[a] == d1[n])
  }

  lemma EdgesToStart(s: Succ, d: seq<nat>, n: nat)
    requires n < |d|
    ensures EdgesTo(s, s, d, d, n, {})
  {
  }

  lemma EdgesToStep(s0: Succ, s1: Succ, s2: Succ, d0: seq<nat>, d1: seq<nat>, d2: seq<nat>, n: nat, preds: set<nat>, i: nat)
    requires EdgesTo(s0, s1, d0, d1, n, preds) && i < n
    requires Added(s1, s2, i, n) && d2 == d1[n := if d1[n] < d1[i] then d1[i] else d1[n]]
    ensures EdgesTo(s0, s2, d0, d2, n, preds + {i})
  {
    IntoAdded(s0, s1, s2, n, preds, i);
  }

  lemma EdgesToTransitive(s0: Succ, s1: Succ, s2: Succ, d0: seq<nat>, d1: seq<nat>, d2: seq<nat>, n: nat, p: set<nat>, q: set<nat>)
    requires EdgesTo(s0, s1, d0, d1, n, p) && EdgesTo(s1, s2, d1, d2, n, q)
    ensures EdgesTo(s0, s2, d0, d2, n, p + q)
  {
    IntoInto(s0, s1, s2, n, p, q);
  }

  ghost predicate DefsSeen(lastDef: seq<int>, n: nat, dups: set<nat>, preds: set<nat>) {
    forall q: nat :: q in dups && q < |lastDef| ==> lastDef[q] == -1 || lastDef[q] == n || lastDef[q] in preds
  }

  ghost predicate ReadsSeen(lastRead: seq<seq<nat>>, dups: set<nat>, preds: set<nat>) {
    forall q: nat, m: nat {:trigger m in lastRead[q]} :: q in dups && q < |lastRead| && m in lastRead[q] ==> m in preds
  }

  /** Edges come only from last writers and readers of the names in `dups`. */
  ghost predicate FromWritten(lastDef: seq<int>, lastRead: seq<seq<nat>>, dups: set<nat>, n: nat, preds: set<nat>) {
    forall a: nat :: a in preds ==> a != n && exists q: nat :: LeftBy(lastDef, lastRead, dups, q, a)
  }

  ghost predicate LeftBy(lastDef: seq<int>, lastRead: seq<seq<nat>>, dups: set<nat>, q: nat, a: nat) {
    q in dups && ((q < |lastDef| && lastDef[q] == a) || (q < |lastRead| && a in lastRead[q]))
  }

  /** All of `preds` are earlier instructions that conflict with instruction `n`. */
  ghost predicate AllConflict(block: Block, loc: seq<nat>, n: nat, preds: set<nat>) {
    forall a: nat :: a in preds ==> a < n < |block| && Conflict(loc, block[a].instr, block[n].instr)
  }

  /** No edge is there without a conflict. */
  ghost predicate Justified(block: Block, loc: seq<nat>, succ: Succ) {
    forall a: nat, b: nat {:trigger b in succ[a]} :: a < |succ| && b in succ[a] ==> a < b < |block| && Conflict(loc, block[a].instr, block[b].instr)
  }

  lemma JustifiedNext(block: Block, loc: seq<nat>, s0: Succ, s1: Succ, n: nat, preds: set<nat>)
    requires Justified(block, loc, s0) && Into(s0, s1, n, preds) && AllConflict(block, loc, n, preds)
    ensures Justified(block, loc, s1)
  {
    forall a: nat, b: nat {:trigger b in s1[a]} | a < |s1| && b in s1[a]
      ensures a < b < |block| && Conflict(loc, block[a].instr, block[b].instr) {
      assert b in s0[a] || (b == n && a in preds);
    }
  }

  lemma Shared(block: Block, loc: seq<nat>, l0: seq<int>, r0: seq<seq<nat>>, n: nat, reg: nat, q: nat, a: nat)
    requires n < |block| && LastDefOk(block, loc, l0, n) && LastReadOk(block, loc, r0, n) && reg < |loc| && q in Duplicates(loc, reg)
    ensures q < |loc| && l0[q] == a ==> a < n && Defines(loc, block[a].instr, loc[reg])
    ensures q < |loc| && a in r0[q] ==> a < n && Uses(loc, block[a].instr, loc[reg])
  {
    if l0[q] == a {
      assert DefinedLast(block, l0[q], q, n);
      var k: nat :| k < |block[a].instr.defs| && block[a].instr.defs[k] == q;
    }
    if a in r0[q] {
      var k: nat :| k < |block[a].instr.uses| && block[a].instr.uses[k] == q;
    }
  }

  lemma WriteConflicts(block: Block, loc: seq<nat>, l0: seq<int>, l1: seq<int>, r0: seq<seq<nat>>, n: nat, k: nat, more: set<nat>)
    requires n < |block| && LastDefOk(block, loc, l0, n) && LastReadOk(block, loc, r0, n) && WellNamed(block, loc)
    requires k < |block[n].instr.defs| && Overwritten(l0, l1, block[n].instr.defs[..k], n)
    requires FromWritten(l1, r0, Duplicates(loc, block[n].instr.defs[k]), n, more)
    ensures AllConflict(block, loc, n, more)
  {
    hide Conflict, LastDefOk, LastReadOk;
    var reg := block[n].instr.defs[k];
    assert reg < |loc|;
    assert Defines(loc, block[n].instr, loc[reg]);
    forall a: nat | a in more ensures a < n && Conflict(loc, block[a].instr, block[n].instr) {
      var q: nat :| LeftBy(l1, r0, Duplicates(loc, reg), q, a);
      Shared(block, loc, l0, r0, n, reg, q, a);
      AtLocation(loc, block[a].instr, block[n].instr, loc[reg]);
    }
  }

  lemma ReadConflicts(block: Block, loc: seq<nat>, l0: seq<int>, l1: seq<int>, r0: seq<seq<nat>>, n: nat, k: nat, more: set<nat>)
    requires n < |block| && LastDefOk(block, loc, l0, n) && LastReadOk(block, loc, r0, n) && WellNamed(block, loc)
    requires k < |block[n].instr.uses| && Overwritten(l0, l1, block[n].instr.defs, n)
    requires FromWritten(l1, [], Duplicates(loc, block[n].instr.uses[k]), n, more)
    ensures AllConflict(block, loc, n, more)
  {
    hide Conflict, LastDefOk, LastReadOk;
    var reg := block[n].instr.uses[k];
    assert reg < |loc|;
    assert Uses(loc, block[n].instr, loc[reg]);
    forall a: nat | a in more ensures a < n && Conflict(loc, block[a].instr, block[n].instr) {
      var q: nat :| LeftBy(l1, [], Duplicates(loc, reg), q, a);
      Shared(block, loc, l0, r0, n, reg, q, a);
      AtLocation(loc, block[a].instr, block[n].instr, loc[reg]);
    }
  }

  lemma AtLocation(loc: seq<nat>, i: Instr, j: Instr, x: nat)
    requires (Defines(loc, i, x) && (Defines(loc, j, x) || Uses(loc, j, x))) || (Uses(loc, i, x) && Defines(loc, j, x))
    ensures Conflict(loc, i, j)
  {
  }

  ghost predicate InBounds(lastDef: seq<int>, n: nat) {
    forall q: nat :: q < |lastDef| ==> -1 <= lastDef[q] <= n
  }

  ghost predicate ReadsBefore(lastRead: seq<seq<nat>>, n: nat) {
    forall q: nat, m: nat {:trigger m in lastRead[q]} :: q < |lastRead| && m in lastRead[q] ==> m < n
  }

  // ----- rounds -----

  ghost predicate InRound(block: Block, depths: seq<nat>, i: nat, e: nat) {
    i < |block| && i < |depths| && block[i].merge.Merged? && depths[i] == e
  }

  /** What the instructions before `n` open in round `e`. */
  ghost function WidthBefore(block: Block, depths: seq<nat>, n: nat, e: nat): nat
    requires n <= |block| && n <= |depths|
  {
    if n == 0 then 0
    else WidthBefore(block, depths, n - 1, e) + if InRound(block, depths, n - 1, e) then block[n - 1].merge.width else 0
  }

  /** Round `e` cannot take an instruction with merge id `id` in place `n`: one before it there has another id, or those before it
      open as much as is allowed. */
  ghost predicate Closed(block: Block, depths: seq<nat>, n: nat, maxParallelOpen: int, id: nat, e: nat)
    requires n <= |block| && n <= |depths|
  {
    || (exists i: nat :: i < n && InRound(block, depths, i, e) && block[i].merge.id != id)
    || (maxParallelOpen > 0 && WidthBefore(block, depths, n, e) >= maxParallelOpen)
  }

  /** No round is taken by instructions of two ids, and none takes another instruction once it is full. */
  ghost predicate RoundsFit(block: Block, depths: seq<nat>, maxParallelOpen: int, n: nat) {
    && n <= |block| && n <= |depths|
    && forall j: nat :: j < n && block[j].merge.Merged? ==> !Closed(block, depths, j, maxParallelOpen, block[j].merge.id, depths[j])
  }

  /** An instruction that is not merged is as deep as the deepest one it depends on. */
  ghost predicate NoneTooDeep(block: Block, succ: Succ, depths: seq<nat>, n: nat) {
    && n <= |block| && n <= |depths|
    && forall j: nat :: j < n && block[j].merge.NotMerged? ==> depths[j] == 0 || exists a: nat :: a < |succ| && a < j && j in succ[a] && depths[a] == depths[j]
  }

  function OpenIn(parallelOpen: map<nat, nat>, e: nat): nat {
    if e in parallelOpen then parallelOpen[e] else 0
  }

  /** What the tables of lines 660-673 say of the instructions before `n`. */
  ghost predicate TablesOk(block: Block, depths: seq<nat>, roundType: map<nat, nat>, parallelOpen: map<nat, nat>, maxParallelOpen: int, n: nat) {
    && n <= |block| && n <= |depths|
    && (forall e: nat {:trigger e in roundType} :: e in roundType ==> exists i: nat :: i < n && InRound(block, depths, i, e))
    && (forall i: nat :: i < n && block[i].merge.Merged? ==> depths[i] in roundType && roundType[depths[i]] == block[i].merge.id)
    && (maxParallelOpen > 0 ==> forall e: nat :: OpenIn(parallelOpen, e) == WidthBefore(block, depths, n, e))
  }

  lemma {:induction false} SameWidths(block: Block, d0: seq<nat>, d1: seq<nat>, n: nat, e: nat)
    requires n <= |block| && n <= |d0| && n <= |d1| && forall i: nat :: i < n ==> d0[i] == d1[i]
    ensures WidthBefore(block, d0, n, e) == WidthBefore(block, d1, n, e)
  {
    if n > 0 {
      SameWidths(block, d0, d1, n - 1, e);
    }
  }

  lemma SameClosed(block: Block, d0: seq<nat>, d1: seq<nat>, n: nat, maxParallelOpen: int, id: nat, e: nat)
    requires n <= |block| && n <= |d0| && n <= |d1| && forall i: nat :: i < n ==> d0[i] == d1[i]
    ensures Closed(block, d0, n, maxParallelOpen, id, e) <==> Closed(block, d1, n, maxParallelOpen, id, e)
  {
    SameWidths(block, d0, d1, n, e);
    forall i: nat | i < n ensures InRound(block, d0, i, e) <==> InRound(block, d1, i, e) {
    }
  }

  /** The tables give away exactly the rounds that are closed. */
  lemma UnavailableIsClosed(block: Block, depths: seq<nat>, roundType: map<nat, nat>, parallelOpen: map<nat, nat>, maxParallelOpen: int, n: nat,
                            id: nat, e: nat)
    requires TablesOk(block, depths, roundType, parallelOpen, maxParallelOpen, n)
    ensures Unavailable(roundType, parallelOpen, maxParallelOpen, id, e) <==> Closed(block, depths, n, maxParallelOpen, id, e)
  {
    if e in roundType {
      var i: nat :| i < n && InRound(block, depths, i, e);
      assert roundType[depths[i]] == block[i].merge.id;
    }
    assert maxParallelOpen > 0 ==> OpenIn(parallelOpen, e) == WidthBefore(block, depths, n, e);
  }

  lemma TablesNext(block: Block, d0: seq<nat>, d1: seq<nat>, r0: map<nat, nat>, r1: map<nat, nat>, p0: map<nat, nat>, p1: map<nat, nat>,
                   maxParallelOpen: int, n: nat)
    requires TablesOk(block, d0, r0, p0, maxParallelOpen, n) && n < |block| && |d1| == |d0| && n < |d0| && d1 == d0[n := d1[n]]
    requires block[n].merge.NotMerged? ==> r1 == r0 && p1 == p0
    requires block[n].merge.Merged? ==>
      && !Unavailable(r0, p0, maxParallelOpen, block[n].merge.id, d1[n]) && r1 == r0[d1[n] := block[n].merge.id]
      && p1 == Opened(p0, maxParallelOpen, d1[n], block[n].merge.width)
    ensures TablesOk(block, d1, r1, p1, maxParallelOpen, n + 1)
  {
    forall e: nat | e in r1 ensures exists i: nat :: i < n + 1 && InRound(block, d1, i, e) {
      if e in r0 {
        var i: nat :| i < n && InRound(block, d0, i, e);
        assert InRound(block, d1, i, e);
      } else {
        assert InRound(block, d1, n, e);
      }
    }
    if maxParallelOpen > 0 {
      forall e: nat ensures OpenIn(p1, e) == WidthBefore(block, d1, n + 1, e) {
        SameWidths(block, d0, d1, n, e);
        assert OpenIn(p0, e) == WidthBefore(block, d0, n, e);
      }
    }
  }

  lemma RoundsFitNext(block: Block, d0: seq<nat>, d1: seq<nat>, r0: map<nat, nat>, p0: map<nat, nat>, maxParallelOpen: int, n: nat)
    requires TablesOk(block, d0, r0, p0, maxParallelOpen, n) && RoundsFit(block, d0, maxParallelOpen, n)
    requires n < |block| && |d1| == |d0| && n < |d0| && d1 == d0[n := d1[n]]
    requires block[n].merge.Merged? ==> !Unavailable(r0, p0, maxParallelOpen, block[n].merge.id, d1[n])
    ensures RoundsFit(block, d1, maxParallelOpen, n + 1)
  {
    hide Closed, TablesOk;
    forall j: nat | j < n + 1 && block[j].merge.Merged? ensures !Closed(block, d1, j, maxParallelOpen, block[j].merge.id, d1[j]) {
      SameClosed(block, d0, d1, j, maxParallelOpen, block[j].merge.id, d1[j]);
      if j == n {
        UnavailableIsClosed(block, d0, r0, p0, maxParallelOpen, n, block[n].merge.id, d1[n]);
      }
    }
  }

  lemma NoneTooDeepNext(block: Block, s0: Succ, s1: Succ, d0: seq<nat>, d1: seq<nat>, d2: seq<nat>, n: nat, preds: set<nat>)
    requires NoneTooDeep(block, s0, d0, n) && EdgesTo(s0, s1, d0, d1, n, preds) && n < |block| && n < |d0| && d0[n] == 0
    requires |d2| == |d1| && d2 == d1[n := d2[n]] && (block[n].merge.NotMerged? ==> d2 == d1)
    requires |s0| == |s1| == |d0|
    ensures NoneTooDeep(block, s1, d2, n + 1)
  {
    forall j: nat | j < n + 1 && block[j].merge.NotMerged?
      ensures d2[j] == 0 || exists a: nat :: a < |s1| && a < j && j in s1[a] && d2[a] == d2[j] {
      if j < n && d2[j] != 0 {
        var a: nat :| a < |s0| && a < j && j in s0[a] && d0[a] == d0[j];
        assert j in s1[a] && d2[a] == d0[a];
      } else if j == n && d1[n] != 0 {
        var a: nat :| a in preds && a < n && d0[a] == d1[n];
        assert n in s1[a] && d2[a] == d0[a];
      }
    }
  }

  function Opened(parallelOpen: map<nat, nat>, maxParallelOpen: int, e: nat, width: nat): map<nat, nat> {
    if maxParallelOpen > 0 then parallelOpen[e := OpenIn(parallelOpen, e) + width] else parallelOpen
  }

  // ----- choosing a depth -----

  /** A round is closed to an instruction that cannot be merged with it, or when it is full. */
  predicate Unavailable(roundType: map<nat, nat>, parallelOpen: map<nat, nat>, maxParallelOpen: int, id: nat, depth: nat) {
    || (depth in roundType && roundType[depth] != id)
    || (maxParallelOpen > 0 && depth in parallelOpen && parallelOpen[depth] >= maxParallelOpen)
  }

  /** Shortcuts lead strictly deeper. */
  ghost predicate ShortcutsGoDown(next: map<(nat, nat), nat>) {
    forall t: nat, d: nat {:trigger next[(t, d)]} :: (t, d) in next ==> d < next[(t, d)]
  }

  /** The depth search of lines 660-666: from a closed round, follow the shortcut of this kind if there is one. */
  ghost function Search(next: map<(nat, nat), nat>, roundType: map<nat, nat>, parallelOpen: map<nat, nat>, maxParallelOpen: int,
                        kind: nat, id: nat, depth: nat): (r: nat)
    requires ShortcutsGoDown(next)
    ensures r >= depth && !Unavailable(roundType, parallelOpen, maxParallelOpen, id, r)
    decreases Ceiling(roundType.Keys + parallelOpen.Keys) - depth
  {
    if Unavailable(roundType, parallelOpen, maxParallelOpen, id, depth) then
      assert depth in roundType.Keys + parallelOpen.Keys;
      Search(next, roundType, parallelOpen, maxParallelOpen, kind, id,
             if (kind, depth) in next then next[(kind, depth)] else depth + 1)
    else depth
  }

  /** Where the search goes from a closed round. */
  ghost function After(next: map<(nat, nat), nat>, kind: nat, depth: nat): nat {
    if (kind, depth) in next then next[(kind, depth)] else depth + 1
  }

  /** The closed rounds at which the search stops on its way. */
  ghost function Visited(next: map<(nat, nat), nat>, roundType: map<nat, nat>, parallelOpen: map<nat, nat>, maxParallelOpen: int,
                         kind: nat, id: nat, depth: nat): (v: set<nat>)
    requires ShortcutsGoDown(next)
    ensures forall d :: d in v ==> depth <= d
    decreases Ceiling(roundType.Keys + parallelOpen.Keys) - depth
  {
    if Unavailable(roundType, parallelOpen, maxParallelOpen, id, depth) then
      assert depth in roundType.Keys + parallelOpen.Keys;
      {depth} + Visited(next, roundType, parallelOpen, maxParallelOpen, kind, id, After(next, kind, depth))
    else {}
  }

  /** No shortcut that the search follows jumps over a round that could take the instruction. */
  ghost predicate NothingJumped(next: map<(nat, nat), nat>, roundType: map<nat, nat>, parallelOpen: map<nat, nat>, maxParallelOpen: int,
                                kind: nat, id: nat, depth: nat)
    requires ShortcutsGoDown(next)
  {
    forall d :: d in Visited(next, roundType, parallelOpen, maxParallelOpen, kind, id, depth) ==>
      AllUnavailable(roundType, parallelOpen, maxParallelOpen, id, d, After(next, kind, d))
  }

  /** The search finds the first round that can take the instruction exactly when it jumps over none. */
  lemma {:induction false} FirstFitExactly(next: map<(nat, nat), nat>, roundType: map<nat, nat>, parallelOpen: map<nat, nat>,
                                           maxParallelOpen: int, kind: nat, id: nat, depth: nat)
    requires ShortcutsGoDown(next)
    ensures AllUnavailable(roundType, parallelOpen, maxParallelOpen, id, depth,
                           Search(next, roundType, parallelOpen, maxParallelOpen, kind, id, depth))
      <==> NothingJumped(next, roundType, parallelOpen, maxParallelOpen, kind, id, depth)
    decreases Ceiling(roundType.Keys + parallelOpen.Keys) - depth
  {
    hide Unavailable;
    if Unavailable(roundType, parallelOpen, maxParallelOpen, id, depth) {
      ClosedIsKnown(roundType, parallelOpen, maxParallelOpen, id, depth);
      var d := After(next, kind, depth);
      FirstFitExactly(next, roundType, parallelOpen, maxParallelOpen, kind, id, d);
      var to := Search(next, roundType, parallelOpen, maxParallelOpen, kind, id, depth);
      assert to == Search(next, roundType, parallelOpen, maxParallelOpen, kind, id, d) >= d;
      assert AllUnavailable(roundType, parallelOpen, maxParallelOpen, id, depth, to) <==>
        AllUnavailable(roundType, parallelOpen, maxParallelOpen, id, depth, d) && AllUnavailable(roundType, parallelOpen, maxParallelOpen, id, d, to);
    }
  }

  lemma ClosedIsKnown(roundType: map<nat, nat>, parallelOpen: map<nat, nat>, maxParallelOpen: int, id: nat, depth: nat)
    requires Unavailable(roundType, parallelOpen, maxParallelOpen, id, depth)
    ensures depth in roundType.Keys + parallelOpen.Keys && depth < Ceiling(roundType.Keys + parallelOpen.Keys)
  {
  }

  /** The shortcuts after a search of this kind. */
  ghost function Shortened(next: map<(nat, nat), nat>, kind: nat, skipped: set<nat>, depth: nat): map<(nat, nat), nat> {
    next + map d | d in skipped :: (kind, d) := depth
  }

  /** When every kind has one merge id, the shortcuts lose nothing: the search finds the first round that can take the instruction. */
  lemma {:induction false} SearchIsFirstFit(next: map<(nat, nat), nat>, roundType: map<nat, nat>, parallelOpen: map<nat, nat>,
                                            maxParallelOpen: int, kind: nat, depth: nat, idOf: nat -> nat)
    requires ShortcutsGoDown(next) && ShortcutsSound(next, roundType, parallelOpen, maxParallelOpen, idOf)
    ensures AllUnavailable(roundType, parallelOpen, maxParallelOpen, idOf(kind), depth,
                           Search(next, roundType, parallelOpen, maxParallelOpen, kind, idOf(kind), depth))
    decreases Ceiling(roundType.Keys + parallelOpen.Keys) - depth
  {
    var id := idOf(kind);
    if Unavailable(roundType, parallelOpen, maxParallelOpen, id, depth) {
      assert depth in roundType.Keys + parallelOpen.Keys;
      var d := if (kind, depth) in next then next[(kind, depth)] else depth + 1;
      SearchIsFirstFit(next, roundType, parallelOpen, maxParallelOpen, kind, d, idOf);
      forall e: nat | depth <= e < d ensures Unavailable(roundType, parallelOpen, maxParallelOpen, id, e) {
        assert e == depth || Unavailable(roundType, parallelOpen, maxParallelOpen, idOf(kind), e);
      }
    }
  }

  lemma ShortenedIsSound(next: map<(nat, nat), nat>, roundType: map<nat, nat>, parallelOpen: map<nat, nat>, maxParallelOpen: int,
                         kind: nat, depth: nat, idOf: nat -> nat)
    requires ShortcutsGoDown(next) && ShortcutsSound(next, roundType, parallelOpen, maxParallelOpen, idOf)
    ensures ShortcutsSound(Shortened(next, kind, Visited(next, roundType, parallelOpen, maxParallelOpen, kind, idOf(kind), depth),
                                     Search(next, roundType, parallelOpen, maxParallelOpen, kind, idOf(kind), depth)),
                           roundType, parallelOpen, maxParallelOpen, idOf)
  {
    hide Search, Visited, Unavailable;
    SearchIsFirstFit(next, roundType, parallelOpen, maxParallelOpen, kind, depth, idOf);
  }

  /** Lines 670-673. */
  ghost predicate RoundTaken(r0: map<nat, nat>, p0: map<nat, nat>, r1: map<nat, nat>, p1: map<nat, nat>, maxParallelOpen: int,
                             depth: nat, id: nat)
  {
    && !Unavailable(r0, p0, maxParallelOpen, id, depth)
    && r1 == r0[depth := id]
    && (forall e: nat {:trigger p0[e]} {:trigger e in p1} :: e in p0 ==> e in p1 && p0[e] <= p1[e])
  }

  /** Rounds close for good: what could not take an id never will. */
  lemma StaysUnavailable(merge: MergeKind, r0: map<nat, nat>, p0: map<nat, nat>, r1: map<nat, nat>, p1: map<nat, nat>, maxParallelOpen: int,
                         depth: nat, other: nat, e: nat)
    requires merge.NotMerged? ==> r1 == r0 && p1 == p0
    requires merge.Merged? ==> RoundTaken(r0, p0, r1, p1, maxParallelOpen, depth, merge.id)
    requires Unavailable(r0, p0, maxParallelOpen, other, e)
    ensures Unavailable(r1, p1, maxParallelOpen, other, e)
  {
  }

  /** `idOf` gives the one merge id of every kind. */
  ghost predicate OneIdPerKind(block: Block, idOf: nat -> nat) {
    forall i: nat :: i < |block| && block[i].merge.Merged? ==> block[i].merge.id == idOf(block[i].merge.kind)
  }

  /** No instruction waits past a round below all its predecessors that could have taken it. */
  ghost predicate NoRoundWasted(block: Block, succ: Succ, depths: seq<nat>, maxParallelOpen: int, n: nat) {
    forall i: nat, e: nat {:trigger BelowPreds(succ, depths, i, e)} ::
      i < n && i < |block| && i < |depths| && block[i].merge.Merged? && e >= 1 && BelowPreds(succ, depths, i, e) && e < depths[i] ==>
        Closed(block, depths, i, maxParallelOpen, block[i].merge.id, e)
  }

  lemma FirstFitNext(block: Block, loc: seq<nat>, s0: Succ, s1: Succ, d0: seq<nat>, d1: seq<nat>, d2: seq<nat>, open: set<nat>,
                     r0: map<nat, nat>, r1: map<nat, nat>,
                     p0: map<nat, nat>, p1: map<nat, nat>, maxParallelOpen: int, next0: map<(nat, nat), nat>, next1: map<(nat, nat), nat>,
                     n: nat, preds: set<nat>, idOf: nat -> nat)
    requires n < |block| == |d0| == |s0| && OneIdPerKind(block, idOf) && ShortcutsGoDown(next0)
    requires GraphOk(block, loc, s0, d0, open, r0, n) && EdgesTo(s0, s1, d0, d1, n, preds)
    requires |d2| == |d1| && d2 == d1[n := d2[n]]
    requires NoRoundWasted(block, s0, d0, maxParallelOpen, n) && TablesOk(block, d0, r0, p0, maxParallelOpen, n)
    requires ShortcutsSound(next0, r0, p0, maxParallelOpen, idOf)
    requires block[n].merge.NotMerged? ==> r1 == r0 && p1 == p0 && next1 == next0
    requires block[n].merge.Merged? ==>
      && d2[n] == Search(next0, r0, p0, maxParallelOpen, block[n].merge.kind, block[n].merge.id, d1[n] + 1)
      && RoundTaken(r0, p0, r1, p1, maxParallelOpen, d2[n], block[n].merge.id)
      && ShortcutsSound(next1, r0, p0, maxParallelOpen, idOf)
    ensures NoRoundWasted(block, s1, d2, maxParallelOpen, n + 1)
    ensures ShortcutsSound(next1, r1, p1, maxParallelOpen, idOf)
  {
    forall i: nat, e: nat {:trigger BelowPreds(s1, d2, i, e)} |
      i < n + 1 && block[i].merge.Merged? && e >= 1 && BelowPreds(s1, d2, i, e) && e < d2[i]
      ensures Closed(block, d2, i, maxParallelOpen, block[i].merge.id, e)
    {
      SameClosed(block, d0, d2, i, maxParallelOpen, block[i].merge.id, e);
      if i < n {
        PredsBelowBefore(s0, s1, d0, d1, d2, n, preds, i, e);
      } else {
        StartIsTight(s0, s1, d0, d1, d2, n, preds, e);
        SearchIsFirstFit(next0, r0, p0, maxParallelOpen, block[n].merge.kind, d1[n] + 1, idOf);
        UnavailableIsClosed(block, d0, r0, p0, maxParallelOpen, n, block[n].merge.id, e);
      }
    }
    forall t: nat, d: nat, e: nat | (t, d) in next1 && d <= e < next1[(t, d)]
      ensures Unavailable(r1, p1, maxParallelOpen, idOf(t), e)
    {
      StaysUnavailable(block[n].merge, r0, p0, r1, p1, maxParallelOpen, d2[n], idOf(t), e);
    }
  }

  lemma PredsBelowBefore(s0: Succ, s1: Succ, d0: seq<nat>, d1: seq<nat>, d2: seq<nat>, n: nat, preds: set<nat>, i: nat, e: nat)
    requires EdgesTo(s0, s1, d0, d1, n, preds) && |d0| == |s0| && |d2| == |d1| && d2 == d1[n := d2[n]] && i < n
    requires Forward(s0) && BelowPreds(s1, d2, i, e)
    ensures BelowPreds(s0, d0, i, e)
  {
    forall a: nat {:trigger i in s0[a]} | a < |s0| && i in s0[a] ensures d0[a] < e {
      assert i in s1[a];
    }
  }

  lemma StartIsTight(s0: Succ, s1: Succ, d0: seq<nat>, d1: seq<nat>, d2: seq<nat>, n: nat, preds: set<nat>, e: nat)
    requires EdgesTo(s0, s1, d0, d1, n, preds) && |d0| == |s0| && |d2| == |d1| && d2 == d1[n := d2[n]] && d0[n] == 0
    requires BelowPreds(s1, d2, n, e) && e >= 1
    ensures e >= d1[n] + 1
  {
    if d1[n] != d0[n] {
      var a: nat :| a in preds && a < n && d0[a] == d1[n];
      assert n in s1[a];
    }
  }

  ghost predicate BelowPreds(succ: Succ, depths: seq<nat>, i: nat, e: nat) {
    forall a: nat {:trigger i in succ[a]} :: a < |succ| && a < |depths| && i in succ[a] ==> depths[a] < e
  }

  ghost predicate AllUnavailable(roundType: map<nat, nat>, parallelOpen: map<nat, nat>, maxParallelOpen: int, id: nat, from: nat, to: nat) {
    forall e: nat :: from <= e < to ==> Unavailable(roundType, parallelOpen, maxParallelOpen, id, e)
  }

  /** Nothing a shortcut of kind `t` passes over could have taken an instruction with merge id `idOf(t)`. */
  ghost predicate ShortcutsSound(next: map<(nat, nat), nat>, roundType: map<nat, nat>, parallelOpen: map<nat, nat>,
                                 maxParallelOpen: int, idOf: nat -> nat)
  {
    forall t: nat, d: nat, e: nat {:trigger Unavailable(roundType, parallelOpen, maxParallelOpen, idOf(t), e), next[(t, d)]} ::
      (t, d) in next && d <= e < next[(t, d)] ==> Unavailable(roundType, parallelOpen, maxParallelOpen, idOf(t), e)
  }

  ghost function Ceiling(s: set<nat>): (b: nat)
    ensures forall x: nat :: x in s ==> x < b
  {
    if s == {} then 0
    else
      var x :| x in s;
      var c := Ceiling(s - {x});
      assert forall y :: y in s ==> y == x || y in s - {x};
      if x < c then c else x + 1
  }

  /** Every depth in use belongs to one merge id. */
  ghost predicate RoundsAgree(block: Block, open: set<nat>, depths: seq<nat>, roundType: map<nat, nat>) {
    forall o: nat :: o in open && o < |block| && o < |depths| && block[o].merge.Merged? ==>
      depths[o] in roundType && roundType[depths[o]] == block[o].merge.id
  }

  ghost predicate GraphOk(block: Block, loc: seq<nat>, succ: Succ, depths: seq<nat>, open: set<nat>, roundType: map<nat, nat>, n: nat)
    requires n <= |block|
  {
    && Forward(succ) && Layered(succ, depths, open) && Covers(block, loc, succ, n)
    && (forall i: nat, j: nat {:trigger j in succ[i]} :: i < |succ| && j in succ[i] ==> j < n)
    && (forall i: nat :: n <= i < |depths| ==> depths[i] == 0)
    && open == Open(block, n)
    && RoundsAgree(block, open, depths, roundType)
  }

  lemma GraphNext(block: Block, loc: seq<nat>, s0: Succ, s1: Succ, d0: seq<nat>, d1: seq<nat>, d2: seq<nat>, open: set<nat>,
                  r0: map<nat, nat>, r1: map<nat, nat>, n: nat, lastDef: seq<int>, lastRead: seq<seq<nat>>, preds: set<nat>)
    requires n < |block| && |s0| == |block| && WellNamed(block, loc)
    requires GraphOk(block, loc, s0, d0, open, r0, n)
    requires LastDefOk(block, loc, lastDef, n) && LastReadOk(block, loc, lastRead, n)
    requires EdgesTo(s0, s1, d0, d1, n, preds) && PredsComplete(block, loc, n, lastDef, lastRead, preds)
    requires block[n].merge.NotMerged? ==> d2 == d1 && r1 == r0
    requires block[n].merge.Merged? ==> |d2| == |d1| && d2[n] > d1[n] && d2 == d1[n := d2[n]]
    requires block[n].merge.Merged? ==> (d2[n] in r0 ==> r0[d2[n]] == block[n].merge.id) && r1 == r0[d2[n] := block[n].merge.id]
    ensures GraphOk(block, loc, s1, d2, if block[n].merge.Merged? then open + {n} else open, r1, n + 1)
  {
    CoversNext(block, loc, s0, s1, n, lastDef, lastRead, preds);
    LayeredInto(s0, s1, d0, d2, open, n, preds, block[n].merge.Merged?);
    assert Open(block, n + 1) == if block[n].merge.Merged? then open + {n} else open;
    forall o: nat | o in open && block[o].merge.Merged?
      ensures d2[o] in r1 && r1[d2[o]] == block[o].merge.id
    {
      assert d2[o] == d0[o];
    }
  }

  // ----- merging -----

  ghost predicate MergeOk(block: Block, g: Succ, succ: Succ, removed: set<nat>, depths: seq<nat>, open: set<nat>, rep: seq<nat>,
                          groups: seq<seq<nat>>, slots: seq<Slot>)
  {
    && |block| == |g| == |succ| == |slots|
    && Carried(g, succ, rep) && Represents(rep, depths, open) && Grouped(groups, rep) && Ranked(succ, depths, open)
    && (forall x: nat :: x < |rep| ==> (x in removed <==> rep[x] != x))
    && (forall x: nat :: x < |rep| ==> slots[x] == SlotOf(block, rep, groups, x))
  }

  ghost function SlotOf(block: Block, rep: seq<nat>, groups: seq<seq<nat>>, x: nat): Slot
    requires |groups| == |rep| && x < |rep|
  {
    if rep[x] == x && forall k: nat :: k < |groups[x]| ==> groups[x][k] < |block|
    then Kept(Pick(Plain(block), groups[x])) else Gone
  }

  ghost function SlotsOf(block: Block, rep: seq<nat>, groups: seq<seq<nat>>): (s: seq<Slot>)
    requires |groups| == |rep| == |block|
    ensures |s| == |block| && forall x: nat :: x < |s| ==> s[x] == SlotOf(block, rep, groups, x)
  {
    seq(|block|, x requires 0 <= x < |block| => SlotOf(block, rep, groups, x))
  }

  lemma SlotsAreGroups(block: Block, g: Succ, succ: Succ, removed: set<nat>, depths: seq<nat>, open: set<nat>, rep: seq<nat>,
                       groups: seq<seq<nat>>, slots: seq<Slot>)
    requires MergeOk(block, g, succ, removed, depths, open, rep, groups, slots)
    ensures |rep| == |block| == |groups| && slots == SlotsOf(block, rep, groups) && Grouped(groups, rep)
  {
  }

  ghost predicate Mergeable(rep: seq<nat>, depths: seq<nat>, open: set<nat>, i: nat, j: nat) {
    && i < |rep| && j < |rep| && |rep| == |depths| && i != j
    && rep[i] == i && rep[j] == j && i in open && j in open && depths[i] == depths[j]
  }

  lemma NoEdgeWithinDepth(block: Block, g: Succ, succ: Succ, removed: set<nat>, depths: seq<nat>, open: set<nat>, rep: seq<nat>,
                          groups: seq<seq<nat>>, slots: seq<Slot>, i: nat, j: nat)
    requires MergeOk(block, g, succ, removed, depths, open, rep, groups, slots) && Mergeable(rep, depths, open, i, j)
    ensures i < |succ| && j < |succ| && i !in removed && j !in removed
    ensures j !in succ[i] && i !in succ[j] && i !in succ[i] && j !in succ[j]
  {
    assert Rank(depths, open, i) == Rank(depths, open, j);
  }

  ghost predicate Cut(s0: Succ, s1: Succ, i: nat, j: nat) {
    |s1| == |s0| && forall a: nat, b: nat {:trigger b in s1[a]} {:trigger b in s0[a]} :: a < |s0| ==> (b in s1[a] <==> Linked(s0, i, j, a, b))
  }

  ghost predicate SuccessorsTaken(s1: Succ, s2: Succ, i: nat, j: nat) {
    |s2| == |s1| && j < |s1| && forall a: nat, b: nat {:trigger b in s2[a]} {:trigger b in s1[a]} :: a < |s1| ==>
      (b in s2[a] <==> b in s1[a] || (a == i && b in s1[j]))
  }

  ghost predicate PredecessorsTaken(s2: Succ, s3: Succ, i: nat, j: nat, removed: set<nat>) {
    |s3| == |s2| && forall a: nat, b: nat {:trigger b in s3[a]} {:trigger b in s2[a]} :: a < |s2| ==>
      (b in s3[a] <==> b in s2[a] || (b == i && a !in removed && j in s2[a]))
  }

  lemma StepsContract(s0: Succ, s1: Succ, s2: Succ, s3: Succ, s4: Succ, i: nat, j: nat, removed: set<nat>)
    requires i < |s0| && j < |s0| && i != j && i !in s0[i] && j !in s0[j]
    requires Cut(s0, s1, i, j) && SuccessorsTaken(s1, s2, i, j) && PredecessorsTaken(s2, s3, i, j, removed) && Unlinked(s3, s4, j, removed)
    ensures Contracted(s0, s4, i, j, removed)
  {
    forall a: nat, b: nat {:trigger b in s4[a]} {:trigger b in s0[a]} | a < |s0|
      ensures b in s4[a] <==>
        || (Linked(s0, i, j, a, b) && !(b == j && a != j && a !in removed))
        || (a == i && Linked(s0, i, j, j, b))
        || (b == i && a !in removed && Linked(s0, i, j, a, j))
    {
      assert b in s1[a] <==> Linked(s0, i, j, a, b);
      assert j in s1[a] <==> Linked(s0, i, j, a, j);
      assert b in s1[j] <==> Linked(s0, i, j, j, b);
      assert j in s1[j] <==> Linked(s0, i, j, j, j);
      assert b in s2[a] <==> b in s1[a] || (a == i && b in s1[j]);
      assert j in s2[a] <==> j in s1[a] || (a == i && j in s1[j]);
      assert b in s3[a] <==> b in s2[a] || (b == i && a !in removed && j in s2[a]);
    }
  }

  /** Nodes of one depth, none of them merged yet. */
  ghost predicate AllMergeable(nodes: seq<nat>, rep: seq<nat>, groups: seq<seq<nat>>, depths: seq<nat>, open: set<nat>) {
    && |rep| == |depths| == |groups|
    && (forall k: nat :: k < |nodes| ==> nodes[k] < |rep| && nodes[k] in open)
    && (forall k: nat :: k < |nodes| ==> rep[nodes[k]] == nodes[k] && groups[nodes[k]] == [nodes[k]])
    && (forall k: nat :: k < |nodes| ==> depths[nodes[k]] == depths[nodes[0]])
  }

  /** The nodes listed are now represented by the first of them; all others are as before. */
  ghost predicate MergedInto(nodes: seq<nat>, rep0: seq<nat>, groups0: seq<seq<nat>>, rep: seq<nat>, groups: seq<seq<nat>>) {
    && nodes != [] && |rep| == |rep0| && |groups| == |groups0| == |rep|
    && (forall x: nat :: x < |rep| ==> rep[x] == if x in nodes then nodes[0] else rep0[x])
    && (forall x: nat :: x < |rep| && x !in nodes ==> groups[x] == groups0[x])
  }

  lemma NextIsMergeable(nodes: seq<nat>, k: nat, rep0: seq<nat>, groups0: seq<seq<nat>>, rep: seq<nat>, groups: seq<seq<nat>>,
                        depths: seq<nat>, open: set<nat>)
    requires 0 < k < |nodes| && Ascending(nodes) && AllMergeable(nodes, rep0, groups0, depths, open)
    requires MergedInto(nodes[..k], rep0, groups0, rep, groups) && groups[nodes[0]] == nodes[..k]
    ensures Mergeable(rep, depths, open, nodes[0], nodes[k])
    ensures groups[nodes[k]] == [nodes[k]]
    ensures forall x: nat, y: nat :: x in groups[nodes[0]] && y in groups[nodes[k]] ==> x < y
  {
    assert nodes[k] !in nodes[..k];
    assert nodes[0] in nodes[..k] by { assert nodes[..k][0] == nodes[0]; }
  }

  lemma MergedIntoNext(nodes: seq<nat>, k: nat, rep0: seq<nat>, groups0: seq<seq<nat>>, rep: seq<nat>, groups: seq<seq<nat>>)
    requires 0 < k < |nodes| && Ascending(nodes) && (forall m: nat :: m < |nodes| ==> nodes[m] < |rep0| && rep0[nodes[m]] == nodes[m])
    requires MergedInto(nodes[..k], rep0, groups0, rep, groups) && groups[nodes[0]] == nodes[..k] && groups[nodes[k]] == [nodes[k]]
    requires Grouped(groups0, rep0) && groups0[nodes[k]] == [nodes[k]]
    ensures MergedInto(nodes[..k + 1], rep0, groups0, Redirect(rep, nodes[0], nodes[k]),
                       groups[nodes[0] := groups[nodes[0]] + groups[nodes[k]]][nodes[k] := []])
    ensures groups[nodes[0] := groups[nodes[0]] + groups[nodes[k]]][nodes[k] := []][nodes[0]] == nodes[..k + 1]
  {
    assert nodes[..k + 1] == nodes[..k] + [nodes[k]];
    assert nodes[k] !in nodes[..k];
    assert nodes[..k][0] == nodes[0];
    assert forall x: nat :: x < |rep0| && rep0[x] == nodes[k] ==> x in groups0[nodes[k]];
  }

  lemma MergeStep(block: Block, g: Succ, s0: Succ, s1: Succ, removed: set<nat>, depths: seq<nat>, open: set<nat>, rep: seq<nat>,
                  groups: seq<seq<nat>>, slots0: seq<Slot>, slots1: seq<Slot>, i: nat, j: nat)
    requires MergeOk(block, g, s0, removed, depths, open, rep, groups, slots0) && Mergeable(rep, depths, open, i, j)
    requires Contracted(s0, s1, i, j, removed)
    requires slots0[i].Kept? && slots0[j].Kept?
    requires slots1 == slots0[i := Kept(slots0[i].parts + slots0[j].parts)][j := Gone]
    requires forall x: nat, y: nat :: x in groups[i] && y in groups[j] ==> x < y
    ensures MergeOk(block, g, s1, removed + {j}, depths, open, Redirect(rep, i, j), groups[i := groups[i] + groups[j]][j := []], slots1)
  {
    var rep1, groups1 := Redirect(rep, i, j), groups[i := groups[i] + groups[j]][j := []];
    ContractedIsRanked(s0, s1, depths, open, i, j, removed);
    CarriedContracted(g, s0, s1, rep, depths, open, i, j, removed);
    RedirectRepresents(rep, depths, open, i, j);
    GroupsMerge(rep, groups, i, j);
    forall x: nat | x < |rep1| ensures slots1[x] == SlotOf(block, rep1, groups1, x) {
      if x == i {
        PickAppend(Plain(block), groups[i], groups[j]);
      } else if x == j {
      } else {
        assert groups1[x] == groups[x];
      }
    }
  }

  lemma GroupsMerge(rep: seq<nat>, groups: seq<seq<nat>>, i: nat, j: nat)
    requires Grouped(groups, rep) && i < |rep| && j < |rep| && i != j
    requires forall x: nat, y: nat :: x in groups[i] && y in groups[j] ==> x < y
    ensures Grouped(groups[i := groups[i] + groups[j]][j := []], Redirect(rep, i, j))
  {
    var groups1 := groups[i := groups[i] + groups[j]][j := []];
    var all := groups[i] + groups[j];
    forall a: nat, b: nat | a < b < |all| ensures all[a] < all[b] {
      if a < |groups[i]| <= b {
        assert all[a] in groups[i] && all[b] in groups[j];
      }
    }
    assert groups1[i] == all;
    forall x: nat | x < |rep| ensures Ascending(groups1[x]) {
      if x != i && x != j { assert groups1[x] == groups[x]; }
    }
  }

  // ----- the whole pass -----

  ghost predicate MergesCollect(merges: map<nat, set<nat>>, open: set<nat>, depths: seq<nat>) {
    && (forall o: nat :: o in open ==> o < |depths| && depths[o] in merges && o in merges[depths[o]])
    && (forall d: nat, o: nat {:trigger o in merges[d]} :: d in merges && o in merges[d] ==> o in open && o < |depths| && depths[o] == d)
    && (forall d: nat :: d in merges ==> merges[d] != {})
  }

  ghost function DepthsOf(depths: seq<nat>, open: set<nat>): set<nat>
    requires forall o: nat :: o in open ==> o < |depths|
  {
    set o | o in open :: depths[o]
  }

  lemma RoundsCounted(merges: map<nat, set<nat>>, depths: seq<nat>, open: set<nat>)
    requires MergesCollect(merges, open, depths)
    ensures |merges| == |DepthsOf(depths, open)|
  {
    assert merges.Keys == DepthsOf(depths, open) by {
      forall d: nat | d in merges ensures d in DepthsOf(depths, open) {
        var o :| o in merges[d];
      }
    }
  }

  /** Exactly the instructions to be merged that share a depth share a representative. */
  ghost predicate OneMergePerDepth(rep: seq<nat>, depths: seq<nat>, open: set<nat>) {
    && |rep| == |depths|
    && (forall x: nat :: x < |rep| && x !in open ==> rep[x] == x)
    && (forall x: nat, y: nat :: x < |rep| && y < |rep| && x in open && y in open ==> (rep[x] == rep[y] <==> depths[x] == depths[y]))
  }

  /** Depths in `done` are merged; everything else stands alone. */
  ghost predicate Unmerged(done: set<nat>, rep: seq<nat>, groups: seq<seq<nat>>, depths: seq<nat>, open: set<nat>) {
    && |rep| == |depths| == |groups|
    && (forall x: nat :: x < |rep| && (x !in open || depths[x] !in done) ==> rep[x] == x && groups[x] == [x])
    && (forall x: nat, y: nat :: x < |rep| && y < |rep| && x in open && y in open && depths[x] == depths[y] && depths[x] in done ==>
          rep[x] == rep[y])
  }

  lemma DepthIsMergeable(merges: map<nat, set<nat>>, d: nat, done: set<nat>, nodes: seq<nat>, rep: seq<nat>, groups: seq<seq<nat>>,
                         depths: seq<nat>, open: set<nat>)
    requires MergesCollect(merges, open, depths) && d in merges && d !in done
    requires Ascending(nodes) && forall x: nat :: x in nodes <==> x in merges[d]
    requires Unmerged(done, rep, groups, depths, open)
    ensures nodes != [] && AllMergeable(nodes, rep, groups, depths, open)
  {
    var o :| o in merges[d];
    assert o in nodes;
    forall k: nat | k < |nodes| ensures nodes[k] in merges[d] { assert nodes[k] in nodes; }
  }

  lemma DepthMerged(merges: map<nat, set<nat>>, d: nat, done: set<nat>, nodes: seq<nat>, rep0: seq<nat>, groups0: seq<seq<nat>>,
                    rep: seq<nat>, groups: seq<seq<nat>>, depths: seq<nat>, open: set<nat>)
    requires MergesCollect(merges, open, depths) && d in merges && d !in done
    requires forall x: nat :: x in nodes <==> x in merges[d]
    requires Unmerged(done, rep0, groups0, depths, open) && MergedInto(nodes, rep0, groups0, rep, groups)
    ensures Unmerged(done + {d}, rep, groups, depths, open)
  {
    forall x: nat | x < |rep| ensures x in nodes <==> x in open && depths[x] == d {
      if x in open && depths[x] == d { assert x in merges[depths[x]]; }
    }
  }

  lemma AllDepthsMerged(merges: map<nat, set<nat>>, done: set<nat>, rep: seq<nat>, groups: seq<seq<nat>>, depths: seq<nat>, open: set<nat>)
    requires MergesCollect(merges, open, depths) && done == merges.Keys
    requires Unmerged(done, rep, groups, depths, open) && Represents(rep, depths, open)
    ensures OneMergePerDepth(rep, depths, open)
  {
    forall x: nat, y: nat | x < |rep| && y < |rep| && x in open && y in open ensures rep[x] == rep[y] <==> depths[x] == depths[y] {
      assert depths[rep[x]] == depths[x] && depths[rep[y]] == depths[y];
    }
  }

  method Sorted(s: set<nat>) returns (r: seq<nat>)
    ensures Ascending(r) && forall x: nat :: x in r <==> x in s
  {
    r := [];
    var todo := s;
    while todo != {}
      invariant todo <= s && Ascending(r)
      invariant forall x: nat :: x in r <==> x in s && x !in todo
      invariant forall x: nat, y: nat :: x in r && y in todo ==> x < y
    {
      var least :| least in todo;
      var rest := todo - {least};
      while rest != {}
        invariant rest <= todo && least in todo && least !in rest
        invariant forall y: nat :: y in todo && y !in rest ==> least <= y
      {
        var y :| y in rest;
        if y < least {
          least := y;
        }
        rest := rest - {y};
      }
      assert forall a: nat :: a < |r| ==> r[a] in r;
      r := r + [least];
      todo := todo - {least};
    }
  }

  ghost function Singletons(n: nat): (s: seq<seq<nat>>)
    ensures |s| == n && forall k: nat :: k < n ==> s[k] == [k]
  {
    seq(n, k requires 0 <= k < n => [k as nat])
  }

  lemma StartMerging(block: Block, loc: seq<nat>, g: Succ, depths: seq<nat>, open: set<nat>, roundType: map<nat, nat>,
                     slots: seq<Slot>, removed: set<nat>)
    requires GraphOk(block, loc, g, depths, open, roundType, |block|) && |g| == |block| == |slots| && removed == {}
    requires forall i: nat :: i < |block| ==> slots[i] == Kept([block[i].instr])
    ensures MergeOk(block, g, g, removed, depths, open, Identity(|block|), Singletons(|block|), slots)
    ensures Unmerged({}, Identity(|block|), Singletons(|block|), depths, open)
    ensures Forward(g) && Covers(block, loc, g, |block|) && Ranked(g, depths, open)
    ensures forall o: nat :: o in open ==> o < |depths|
    ensures open == {} ==> OneMergePerDepth(Identity(|block|), depths, open)
  {
    LayeredIsRanked(g, depths, open);
  }

  lemma NeverCyclic(block: Block, g: Succ, succ: Succ, removed: set<nat>, depths: seq<nat>, open: set<nat>, rep: seq<nat>,
                    groups: seq<seq<nat>>, slots: seq<Slot>, all: seq<nat>)
    requires MergeOk(block, g, succ, removed, depths, open, rep, groups, slots)
    requires forall v: nat :: v in all <==> v < |block|
    ensures InRange(succ) && |succ| == |block| == |slots| && forall p :: !IsCycle(succ, p)
    ensures forall v: nat :: v < |block| ==> ReachedFrom(succ, all, v)
  {
    forall p ensures !IsCycle(succ, p) {
      RankedIsAcyclic(succ, depths, open, p);
    }
    forall v: nat | v < |block| ensures ReachedFrom(succ, all, v) {
      assert Connects(succ, [v], v, v);
      assert v in all && Reaches(succ, v, v);
    }
  }

  /** The instructions still there, in the given order. */
  ghost function Compact(slots: seq<Slot>, order: seq<nat>): seq<Slot>
    requires DistinctIn(|slots|, order)
  {
    if order == [] then []
    else (if slots[order[0]].Kept? then [slots[order[0]]] else []) + Compact(slots, order[1..])
  }

  ghost function Bundles(slots: seq<Slot>): (b: seq<seq<Instr>>)
    requires forall k: nat :: k < |slots| ==> slots[k].Kept?
    ensures |b| == |slots| && forall k: nat :: k < |b| ==> b[k] == slots[k].parts
  {
    seq(|slots|, k requires 0 <= k < |slots| => slots[k].parts)
  }

  /** From every state the finished instruction list computes what the block computed. */
  ghost predicate MeaningKept(block: Block, loc: seq<nat>, slots: seq<Slot>) {
    && (forall k: nat :: k < |slots| ==> slots[k].Kept?)
    && forall sem: Meaning, s: State :: SameRun(block, loc, slots, sem, s)
  }

  ghost predicate SameRun(block: Block, loc: seq<nat>, slots: seq<Slot>, sem: Meaning, s: State)
    requires forall k: nat :: k < |slots| ==> slots[k].Kept?
  {
    AllFit(loc, Plain(block), |s|) ==>
      && AllFitMerged(loc, Bundles(slots), |s|)
      && RunBlock(sem, loc, Bundles(slots), s) == Run(sem, loc, Plain(block), s)
  }

  lemma IdentityIsTopological(g: Succ, order: seq<nat>)
    requires Forward(g) && order == Identity(|g|)
    ensures IsTopological(g, order)
  {
    forall a: nat, j: nat | a < |order| && j in g[order[a]] ensures j in order[a + 1..] {
      assert order[a + 1..][j - a - 1] == j;
    }
  }

  lemma {:induction false} CompactKeepsAll(slots: seq<Slot>, k: nat)
    requires k <= |slots| && forall i: nat :: i < |slots| ==> slots[i].Kept?
    ensures Compact(slots, Identity(|slots|)[k..]) == slots[k..]
    decreases |slots| - k
  {
    var order := Identity(|slots|);
    if k < |slots| {
      assert order[k..][1..] == order[k + 1..];
      CompactKeepsAll(slots, k + 1);
      assert slots[k..] == [slots[k]] + slots[k + 1..];
    }
  }

  lemma FirstIsMember(s: seq<nat>)
    ensures s == [] || s[0] in s
  {
  }

  lemma EmptyGroup(rep: seq<nat>, groups: seq<seq<nat>>, x: nat)
    requires Grouped(groups, rep) && x < |rep| && rep[x] != x
    requires forall v: nat :: v < |rep| ==> rep[v] < |rep| && rep[rep[v]] == rep[v]
    ensures groups[x] == []
  {
    assert forall v: nat :: v < |rep| ==> rep[v] != x;
    FirstIsMember(groups[x]);
  }

  /** Concatenating what is left in the given order lists all members of the groups in that order. */
  lemma {:induction false} CompactIsFlat(block: Block, rep: seq<nat>, groups: seq<seq<nat>>, slots: seq<Slot>, order: seq<nat>)
    requires |slots| == |rep| == |block| && DistinctIn(|slots|, order) && Grouped(groups, rep)
    requires forall x: nat :: x < |rep| ==> slots[x] == SlotOf(block, rep, groups, x)
    requires forall x: nat :: x < |rep| ==> rep[x] < |rep| && rep[rep[x]] == rep[x]
    ensures forall k: nat :: k < |Compact(slots, order)| ==> Compact(slots, order)[k].Kept?
    ensures forall k: nat :: k < |Compact(slots, order)| ==> IsGroup(block, groups, Compact(slots, order)[k])
    ensures InBlock(block, Flat(groups, order))
    ensures Concat(Bundles(Compact(slots, order))) == Pick(Plain(block), Flat(groups, order))
  {
    if order != [] {
      hide SlotOf, Grouped, Bundles, Concat, Pick, Plain;
      var x, rest := order[0], order[1..];
      CompactIsFlat(block, rep, groups, slots, rest);
      MembersInBlock(block, rep, groups, x);
      PickAppend(Plain(block), groups[x], Flat(groups, rest));
      var tail := Compact(slots, rest);
      SlotIsGroup(block, rep, groups, slots, x);
      if rep[x] == x {
        assert Compact(slots, order) == [slots[x]] + tail;
        BundleFirst(slots[x], tail);
      } else {
        EmptyGroup(rep, groups, x);
        assert Compact(slots, order) == tail;
        assert Flat(groups, order) == Flat(groups, rest);
      }
    } else {
      NothingLeft(block, slots);
    }
  }

  lemma NothingLeft(block: Block, slots: seq<Slot>)
    ensures Concat(Bundles([])) == Pick(Plain(block), [])
  {
  }

  lemma BundleFirst(slot: Slot, tail: seq<Slot>)
    requires slot.Kept? && forall k: nat :: k < |tail| ==> tail[k].Kept?
    ensures forall k: nat :: k < |[slot] + tail| ==> ([slot] + tail)[k].Kept?
    ensures Concat(Bundles([slot] + tail)) == slot.parts + Concat(Bundles(tail))
  {
    assert Bundles([slot] + tail)[1..] == Bundles(tail);
  }

  lemma MembersInBlock(block: Block, rep: seq<nat>, groups: seq<seq<nat>>, x: nat)
    requires |rep| == |block| && Grouped(groups, rep) && x < |rep|
    ensures |groups| == |rep| && InBlock(block, groups[x])
  {
    forall k: nat | k < |groups[x]| ensures groups[x][k] < |block| {
      assert groups[x][k] in groups[x];
    }
  }

  lemma SlotIsGroup(block: Block, rep: seq<nat>, groups: seq<seq<nat>>, slots: seq<Slot>, x: nat)
    requires |slots| == |rep| == |block| && Grouped(groups, rep) && x < |rep| && slots[x] == SlotOf(block, rep, groups, x)
    ensures |groups| == |rep| && InBlock(block, groups[x]) && (rep[x] == x <==> slots[x].Kept?)
    ensures rep[x] == x ==> slots[x].parts == Pick(Plain(block), groups[x]) && IsGroup(block, groups, slots[x])
  {
    MembersInBlock(block, rep, groups, x);
  }

  /** The slot holds the members of one group. */
  ghost predicate IsGroup(block: Block, groups: seq<seq<nat>>, slot: Slot) {
    slot.Kept? && exists x: nat :: x < |groups| && InBlock(block, groups[x]) && slot.parts == Pick(Plain(block), groups[x])
  }

  ghost predicate InBlock(block: Block, s: seq<nat>) {
    forall k: nat :: k < |s| ==> s[k] < |block|
  }

  /** Members of one group do not interfere, so merging them is harmless. */
  lemma GroupIsIndependent(block: Block, loc: seq<nat>, rep: seq<nat>, groups: seq<seq<nat>>, x: nat)
    requires |rep| == |block| && Grouped(groups, rep) && x < |rep| && InBlock(block, groups[x])
    requires forall i: nat, j: nat :: i < j < |block| && rep[i] == rep[j] ==> !Conflict(loc, block[i].instr, block[j].instr)
    ensures Independent(loc, Pick(Plain(block), groups[x]))
  {
    forall a: nat, b: nat | a < b < |groups[x]| ensures !Conflict(loc, block[groups[x][a]].instr, block[groups[x][b]].instr) {
      assert groups[x][a] in groups[x] && groups[x][b] in groups[x];
    }
  }

  /** Any topological order of the merged graph gives a block with the meaning of the original. */
  lemma ReorderKeepsMeaning(block: Block, loc: seq<nat>, g: Succ, succ: Succ, removed: set<nat>, depths: seq<nat>, open: set<nat>,
                            rep: seq<nat>, groups: seq<seq<nat>>, slots: seq<Slot>, order: seq<nat>)
    requires MergeOk(block, g, succ, removed, depths, open, rep, groups, slots)
    requires Covers(block, loc, g, |block|) && Ranked(g, depths, open)
    requires IsTopological(succ, order) && DistinctIn(|block|, order) && forall v: nat :: v < |block| ==> v in order
    ensures MeaningKept(block, loc, Compact(slots, order))
  {
    hide KeepsConflictOrder, Covers, Carried, Ranked, IsTopological, Grouped, Compact, Flat, Independent, Run, RunBlock, Fits, Concat, Conflict;
    SlotsAreGroups(block, g, succ, removed, depths, open, rep, groups, slots);
    var out, p, id, flat := Compact(slots, order), Plain(block), Identity(|block|), Flat(groups, order);
    FlatMembers(groups, rep, order);
    ContractionKeepsConflicts(block, loc, g, succ, depths, open, rep, groups, order);
    CompactIsFlat(block, rep, groups, slots, order);
    SameLength(|block|, flat);
    forall k: nat | k < |out| ensures Independent(loc, Bundles(out)[k]) {
      assert IsGroup(block, groups, out[k]);
      var x: nat :| x < |groups| && InBlock(block, groups[x]) && out[k].parts == Pick(p, groups[x]);
      GroupIsIndependent(block, loc, rep, groups, x);
    }
    forall sem: Meaning, s: State ensures SameRun(block, loc, out, sem, s) {
      if AllFit(loc, p, |s|) {
        RunsTheSame(block, loc, groups, out, flat, sem, s);
      }
    }
  }

  lemma RunsTheSame(block: Block, loc: seq<nat>, groups: seq<seq<nat>>, out: seq<Slot>, flat: seq<nat>, sem: Meaning, s: State)
    requires forall k: nat :: k < |out| ==> out[k].Kept?
    requires forall k: nat :: k < |out| ==> IsGroup(block, groups, out[k]) && Independent(loc, Bundles(out)[k])
    requires DistinctIn(|block|, flat) && |flat| == |block| && forall v: nat :: v in flat <==> v < |block|
    requires Concat(Bundles(out)) == Pick(Plain(block), flat)
    requires KeepsConflictOrder(loc, Plain(block), Identity(|block|), flat)
    requires AllFit(loc, Plain(block), |s|)
    ensures AllFitMerged(loc, Bundles(out), |s|) && RunBlock(sem, loc, Bundles(out), s) == Run(sem, loc, Plain(block), s)
  {
    hide KeepsConflictOrder, Independent, Run, RunBlock, Fits, Concat;
    var p, id := Plain(block), Identity(|block|);
    forall k: nat | k < |out| ensures AllFit(loc, Bundles(out)[k], |s|) {
      assert IsGroup(block, groups, out[k]);
      var x: nat :| x < |groups| && InBlock(block, groups[x]) && out[k].parts == Pick(p, groups[x]);
      PickFits(loc, p, groups[x], |s|);
    }
    BlockIsSequential(sem, loc, Bundles(out), s);
    Reorder(sem, loc, p, id, flat, s);
    assert Pick(p, id) == p;
  }

  method CompactList(slots: seq<Slot>, order: seq<nat>) returns (kept: seq<Slot>)
    requires DistinctIn(|slots|, order)
    ensures kept == Compact(slots, order)
  {
    kept := [];
    for k := 0 to |order|
      invariant kept + Compact(slots, order[k..]) == Compact(slots, order)
    {
      assert order[k..][1..] == order[k + 1..];
      if slots[order[k]].Kept? {
        kept := kept + [slots[order[k]]];
      }
    }
  }

  class Merger {
    const block: Block
    const loc: seq<nat>
    const maxParallelOpen: int
    const G: SparseDiGraph
    var depths: seq<nat>
    var openNodes: set<nat>
    var lastDef: seq<int>
    var lastRead: seq<seq<nat>>
    var roundType: map<nat, nat>
    var parallelOpen: map<nat, nat>
    var nextAvailable: map<(nat, nat), nat>
    var instructions: seq<Slot>

    ghost predicate Sized()
      reads this, G
    {
      && G.Valid() && G.removed == {} && G.n == |block| == |depths|
      && |lastDef| == |lastRead| == |loc| && WellNamed(block, loc)
    }

    constructor (block: Block, loc: seq<nat>, maxParallelOpen: int)
      requires WellNamed(block, loc)
      ensures this.block == block && this.loc == loc && this.maxParallelOpen == maxParallelOpen
      ensures fresh(G) && Sized() && Started(0)
      ensures nextAvailable == map[] && roundType == map[] && parallelOpen == map[]
      ensures forall i: nat :: i < |G.succ| ==> G.succ[i] == []
    {
      this.block, this.loc, this.maxParallelOpen := block, loc, maxParallelOpen;
      G := new SparseDiGraph(|block|);
      depths := seq(|block|, i => 0);
      openNodes := {};
      lastDef := seq(|loc|, r => -1);
      lastRead := seq(|loc|, r => []);
      roundType, parallelOpen, nextAvailable := map[], map[], map[];
      instructions := seq(|block|, i requires 0 <= i < |block| => Kept([block[i].instr]));
      new;
      assert forall i: nat :: i < |block| ==> G.succ[i] == [];
    }

    /** What holds once the first `n` instructions are in the graph. */
    ghost predicate Started(n: nat)
      requires n <= |block|
      reads this, G
    {
      && GraphOk(block, loc, G.succ, depths, openNodes, roundType, n)
      && LastDefOk(block, loc, lastDef, n) && LastReadOk(block, loc, lastRead, n)
      && TablesOk(block, depths, roundType, parallelOpen, maxParallelOpen, n)
      && RoundsFit(block, depths, maxParallelOpen, n) && NoneTooDeep(block, G.succ, depths, n) && Justified(block, loc, G.succ)
      && |instructions| == |block| && (forall i: nat :: i < |block| ==> instructions[i] == Kept([block[i].instr]))
    }

    method AddEdge(i: int, j: nat)
      requires Sized() && -1 <= i < |block| && j < |block|
      modifies G, `depths
      ensures Sized()
      ensures i == -1 || i == j ==> G.succ == old(G.succ) && depths == old(depths)
      ensures i != -1 && i != j ==> Added(old(G.succ), G.succ, i, j)
      ensures i != -1 && i != j ==>
        depths == old(depths)[j := if old(depths)[j] < old(depths)[i] then old(depths)[i] else old(depths)[j]]
    {
      if i == -1 || i == j {
        return;
      }
      G.AddEdge(i, j, 1);
      if depths[j] < depths[i] {
        depths := depths[j := depths[i]];
      }
    }

    /** Edges from all that read one name. */
    method FollowReads(dup: nat, n: nat, ghost s0: Succ, ghost d0: seq<nat>, ghost preds: set<nat>) returns (ghost preds': set<nat>)
      requires Sized() && dup < |loc| && n < |block| && ReadsBefore(lastRead, n) && EdgesTo(s0, G.succ, d0, depths, n, preds)
      modifies G, `depths
      ensures Sized() && EdgesTo(s0, G.succ, d0, depths, n, preds') && preds <= preds'
      ensures forall a: nat :: a in preds' <==> a in preds || a in lastRead[dup]
    {
      hide SparseDiGraph.Valid, EdgesTo;
      preds' := preds;
      var readers := lastRead[dup];
      for k := 0 to |readers|
        invariant Sized() && EdgesTo(s0, G.succ, d0, depths, n, preds')
        invariant forall a: nat :: a in preds' <==> a in preds || a in readers[..k]
      {
        assert readers[k] in lastRead[dup];
        assert readers[..k + 1] == readers[..k] + [readers[k]];
        preds' := Follow(readers[k], n, s0, d0, preds');
      }
      assert readers[..|readers|] == readers;
    }

    method Write(reg: nat, n: nat) returns (ghost preds: set<nat>)
      requires Sized() && reg < |loc| && n < |block|
      requires InBounds(lastDef, n) && ReadsBefore(lastRead, n)
      modifies G, `depths, `lastDef
      ensures Sized() && lastDef == old(lastDef)[reg := n] && InBounds(lastDef, n)
      ensures EdgesTo(old(G.succ), G.succ, old(depths), depths, n, preds)
      ensures DefsSeen(old(lastDef), n, Duplicates(loc, reg), preds)
      ensures ReadsSeen(lastRead, Duplicates(loc, reg), preds)
      ensures FromWritten(old(lastDef), lastRead, Duplicates(loc, reg), n, preds)
    {
      hide SparseDiGraph.Valid, EdgesTo;
      preds := {};
      EdgesToStart(G.succ, depths, n);
      var todo := Duplicates(loc, reg);
      while todo != {}
        invariant todo <= Duplicates(loc, reg)
        invariant Sized() && lastDef == old(lastDef)
        invariant EdgesTo(old(G.succ), G.succ, old(depths), depths, n, preds)
        invariant DefsSeen(lastDef, n, Duplicates(loc, reg) - todo, preds)
        invariant ReadsSeen(lastRead, Duplicates(loc, reg) - todo, preds)
        invariant FromWritten(lastDef, lastRead, Duplicates(loc, reg), n, preds)
      {
        var dup :| dup in todo;
        preds := Follow(lastDef[dup], n, old(G.succ), old(depths), preds);
        assert lastDef[dup] >= 0 ==> LeftBy(lastDef, lastRead, Duplicates(loc, reg), dup, lastDef[dup]);
        preds := FollowReads(dup, n, old(G.succ), old(depths), preds);
        assert forall a: nat :: a in lastRead[dup] ==> LeftBy(lastDef, lastRead, Duplicates(loc, reg), dup, a);
        todo := todo - {dup};
      }
      lastDef := lastDef[reg := n];
    }

    /** Adds one edge into `n` and records its source. */
    method Follow(i: int, n: nat, ghost s0: Succ, ghost d0: seq<nat>, ghost preds: set<nat>) returns (ghost preds': set<nat>)
      requires Sized() && -1 <= i <= n < |block|
      requires EdgesTo(s0, G.succ, d0, depths, n, preds)
      modifies G, `depths
      ensures Sized() && EdgesTo(s0, G.succ, d0, depths, n, preds')
      ensures preds' == if i == -1 || i == n then preds else preds + {i}
    {
      ghost var s1, d1 := G.succ, depths;
      AddEdge(i, n);
      if i == -1 || i == n {
        preds' := preds;
      } else {
        EdgesToStep(s0, s1, G.succ, d0, d1, depths, n, preds, i);
        preds' := preds + {i};
      }
    }

    method Read(reg: nat, n: nat) returns (ghost preds: set<nat>)
      requires Sized() && reg < |loc| && n < |block|
      requires InBounds(lastDef, n)
      modifies G, `depths, `lastRead
      ensures Sized() && lastRead == old(lastRead)[reg := old(lastRead)[reg] + [n]]
      ensures EdgesTo(old(G.succ), G.succ, old(depths), depths, n, preds)
      ensures DefsSeen(lastDef, n, Duplicates(loc, reg), preds)
      ensures FromWritten(lastDef, [], Duplicates(loc, reg), n, preds)
    {
      preds := {};
      EdgesToStart(G.succ, depths, n);
      var todo := Duplicates(loc, reg);
      while todo != {}
        invariant todo <= Duplicates(loc, reg)
        invariant Sized() && lastRead == old(lastRead)
        invariant EdgesTo(old(G.succ), G.succ, old(depths), depths, n, preds)
        invariant DefsSeen(lastDef, n, Duplicates(loc, reg) - todo, preds)
        invariant FromWritten(lastDef, [], Duplicates(loc, reg), n, preds)
      {
        var dup :| dup in todo;
        assert lastDef[dup] >= 0 ==> LeftBy(lastDef, [], Duplicates(loc, reg), dup, lastDef[dup]);
        if lastDef[dup] != -1 && lastDef[dup] != n {
          preds := Follow(lastDef[dup], n, old(G.succ), old(depths), preds);
        }
        todo := todo - {dup};
      }
      lastRead := lastRead[reg := lastRead[reg] + [n]];
    }

    /** Lines 558-578: all register edges of instruction `n`. */
    method Connect(n: nat) returns (ghost preds: set<nat>)
      requires Sized() && n < |block| && LastDefOk(block, loc, lastDef, n) && LastReadOk(block, loc, lastRead, n)
      modifies G, `depths, `lastDef, `lastRead
      ensures Sized()
      ensures EdgesTo(old(G.succ), G.succ, old(depths), depths, n, preds)
      ensures PredsComplete(block, loc, n, old(lastDef), old(lastRead), preds) && AllConflict(block, loc, n, preds)
      ensures LastDefOk(block, loc, lastDef, n + 1) && LastReadOk(block, loc, lastRead, n + 1)
      ensures block[n].instr.defs == [] && block[n].instr.uses == [] ==> G.succ == old(G.succ) && depths == old(depths)
    {
      hide SparseDiGraph.Valid, EdgesTo, Overwritten, WritesFollowed, ReadsFollowed, ReadMarked, LastDefOk, LastReadOk, PredsComplete,
        AllConflict, FromWritten, DefsSeen, ReadsSeen, InBounds, ReadsBefore;
      var defs, uses := block[n].instr.defs, block[n].instr.uses;
      preds := {};
      EdgesToStart(G.succ, depths, n);
      NothingFollowed(block, loc, lastDef, lastRead, n);
      DefsAreEarlier(block, loc, lastDef, n);
      for k := 0 to |defs|
        invariant Sized() && lastRead == old(lastRead)
        invariant EdgesTo(old(G.succ), G.succ, old(depths), depths, n, preds)
        invariant Overwritten(old(lastDef), lastDef, defs[..k], n)
        invariant WritesFollowed(loc, defs[..k], old(lastDef), lastRead, preds)
        invariant k == 0 ==> G.succ == old(G.succ) && depths == old(depths)
        invariant AllConflict(block, loc, n, preds)
      {
        ghost var s1, d1, l1 := G.succ, depths, lastDef;
        OverwrittenBounds(block, loc, old(lastDef), lastDef, defs[..k], n);
        ReadsAreEarlier(block, loc, lastRead, n);
        ghost var more := Write(defs[k], n);
        EdgesToTransitive(old(G.succ), s1, G.succ, old(depths), d1, depths, n, preds, more);
        WriteConflicts(block, loc, old(lastDef), l1, lastRead, n, k, more);
        FollowedMore(loc, defs, k, old(lastDef), l1, lastDef, lastRead, n, preds, more);
        AllConflictMore(block, loc, n, preds, more);
        preds := preds + more;
      }
      assert defs[..|defs|] == defs;
      assert uses[..0] == [];
      for k := 0 to |uses|
        invariant Sized()
        invariant EdgesTo(old(G.succ), G.succ, old(depths), depths, n, preds)
        invariant Overwritten(old(lastDef), lastDef, defs, n)
        invariant WritesFollowed(loc, defs, old(lastDef), old(lastRead), preds)
        invariant ReadsFollowed(loc, uses[..k], old(lastDef), preds)
        invariant ReadMarked(old(lastRead), lastRead, uses[..k], n)
        invariant |defs| == 0 && k == 0 ==> G.succ == old(G.succ) && depths == old(depths)
        invariant AllConflict(block, loc, n, preds)
      {
        ghost var s1, d1, r1 := G.succ, depths, lastRead;
        OverwrittenBounds(block, loc, old(lastDef), lastDef, defs, n);
        ghost var more := Read(uses[k], n);
        EdgesToTransitive(old(G.succ), s1, G.succ, old(depths), d1, depths, n, preds, more);
        ReadConflicts(block, loc, old(lastDef), lastDef, old(lastRead), n, k, more);
        ReadFollowedMore(loc, defs, uses, k, old(lastDef), lastDef, old(lastRead), n, preds, more);
        ReadMarkedMore(old(lastRead), r1, lastRead, uses, k, n);
        AllConflictMore(block, loc, n, preds, more);
        preds := preds + more;
      }
      assert uses[..|uses|] == uses;
      LastDefNext(block, loc, old(lastDef), lastDef, n);
      LastReadNext(block, loc, old(lastRead), lastRead, n);
      FollowedIsComplete(block, loc, n, old(lastDef), old(lastRead), preds);
    }

    /** Lines 656-668. */
    method FindDepth(kind: nat, id: nat, start: nat) returns (depth: nat)
      requires ShortcutsGoDown(nextAvailable)
      modifies `nextAvailable
      ensures depth == Search(old(nextAvailable), roundType, parallelOpen, maxParallelOpen, kind, id, start)
      ensures nextAvailable == Shortened(old(nextAvailable), kind,
        Visited(old(nextAvailable), roundType, parallelOpen, maxParallelOpen, kind, id, start), depth)
      ensures ShortcutsGoDown(nextAvailable)
      ensures forall idOf: nat -> nat ::
        idOf(kind) == id && ShortcutsSound(old(nextAvailable), roundType, parallelOpen, maxParallelOpen, idOf) ==>
          ShortcutsSound(nextAvailable, roundType, parallelOpen, maxParallelOpen, idOf)
    {
      hide Unavailable, ShortcutsSound;
      depth := start;
      var skipped: set<nat> := {};
      while Unavailable(roundType, parallelOpen, maxParallelOpen, id, depth)
        invariant start <= depth && nextAvailable == old(nextAvailable)
        invariant forall d: nat :: d in skipped ==> start <= d < depth
        invariant Search(nextAvailable, roundType, parallelOpen, maxParallelOpen, kind, id, start)
               == Search(nextAvailable, roundType, parallelOpen, maxParallelOpen, kind, id, depth)
        invariant skipped + Visited(nextAvailable, roundType, parallelOpen, maxParallelOpen, kind, id, depth)
               == Visited(nextAvailable, roundType, parallelOpen, maxParallelOpen, kind, id, start)
        decreases Ceiling(roundType.Keys + parallelOpen.Keys) - depth
      {
        ClosedIsKnown(roundType, parallelOpen, maxParallelOpen, id, depth);
        skipped := skipped + {depth};
        depth := if (kind, depth) in nextAvailable then nextAvailable[(kind, depth)] else depth + 1;
      }
      nextAvailable := nextAvailable + map d | d in skipped :: (kind, d) := depth;
      forall idOf: nat -> nat |
        idOf(kind) == id && ShortcutsSound(old(nextAvailable), roundType, parallelOpen, maxParallelOpen, idOf)
        ensures ShortcutsSound(nextAvailable, roundType, parallelOpen, maxParallelOpen, idOf)
      {
        ShortenedIsSound(old(nextAvailable), roundType, parallelOpen, maxParallelOpen, kind, start, idOf);
      }
    }

    /** The tables after instruction `n` has been given its round, from the depth `start` of its predecessors. */
    ghost predicate Placed(n: nat, start: nat, rounds: map<nat, nat>, open: map<nat, nat>, next: map<(nat, nat), nat>)
      requires n < |block| && block[n].merge.Merged? && n < |depths| && ShortcutsGoDown(next)
      reads this
    {
      var Merged(kind, id, width) := block[n].merge;
      && depths[n] == Search(next, rounds, open, maxParallelOpen, kind, id, start + 1)
      && roundType == rounds[depths[n] := id]
      && parallelOpen == (if maxParallelOpen > 0 then open[depths[n] := (if depths[n] in open then open[depths[n]] else 0) + width] else open)
      && nextAvailable == Shortened(next, kind, Visited(next, rounds, open, maxParallelOpen, kind, id, start + 1), depths[n])
    }

    /** Lines 652-673. */
    method Place(n: nat)
      requires n < |block| && n < |depths| && block[n].merge.Merged? && ShortcutsGoDown(nextAvailable)
      modifies `openNodes, `roundType, `parallelOpen, `nextAvailable, `depths
      ensures ShortcutsGoDown(nextAvailable)
      ensures var merge := block[n].merge;
        && openNodes == old(openNodes) + {n}
        && |depths| == |old(depths)| && depths == old(depths)[n := depths[n]]
        && depths[n] == Search(old(nextAvailable), old(roundType), old(parallelOpen), maxParallelOpen, merge.kind, merge.id, old(depths)[n] + 1)
        && depths[n] > old(depths)[n]
        && (depths[n] in old(roundType) ==> old(roundType)[depths[n]] == merge.id)
        && roundType == old(roundType)[depths[n] := merge.id]
        && RoundTaken(old(roundType), old(parallelOpen), roundType, parallelOpen, maxParallelOpen, depths[n], merge.id)
        && parallelOpen == Opened(old(parallelOpen), maxParallelOpen, depths[n], merge.width)
      ensures Placed(n, old(depths)[n], old(roundType), old(parallelOpen), old(nextAvailable))
      ensures forall idOf: nat -> nat ::
        OneIdPerKind(block, idOf) && ShortcutsSound(old(nextAvailable), old(roundType), old(parallelOpen), maxParallelOpen, idOf) ==>
          ShortcutsSound(nextAvailable, old(roundType), old(parallelOpen), maxParallelOpen, idOf)
    {
      hide Search, Visited, Shortened, ShortcutsSound, ShortcutsGoDown;
      var Merged(kind, id, width) := block[n].merge;
      openNodes := openNodes + {n};
      var depth := FindDepth(kind, id, depths[n] + 1);
      roundType := roundType[depth := id];
      if maxParallelOpen > 0 {
        parallelOpen := parallelOpen[depth := (if depth in parallelOpen then parallelOpen[depth] else 0) + width];
      }
      depths := depths[n := depth];
    }

    /** One turn of the loop in lines 558-713, for an instruction that interacts only through registers. */
    method AddInstruction(n: nat, ghost idOf: nat -> nat)
      requires Sized() && n < |block| && Started(n) && ShortcutsGoDown(nextAvailable)
      modifies this, G
      ensures Sized() && Started(n + 1) && ShortcutsGoDown(nextAvailable)
      ensures OneIdPerKind(block, idOf) && old(FirstFit(n, idOf)) ==> FirstFit(n + 1, idOf)
      ensures block[n].instr.defs == [] && block[n].instr.uses == [] ==> Alone(n, old(G.succ), old(depths))
      ensures block[n].instr.defs == [] && block[n].instr.uses == [] && block[n].merge.Merged? ==>
        Placed(n, 0, old(roundType), old(parallelOpen), old(nextAvailable))
    {
      hide *;
      UnplacedDepth(n);
      FitsSoFar(n, idOf);
      ghost var s0, d0, open0, r0 := G.succ, depths, openNodes, roundType;
      ghost var ld0, lr0, p0, next0 := lastDef, lastRead, parallelOpen, nextAvailable;
      ghost var preds, d1 := Insert(n, idOf);
      GraphNext(block, loc, s0, G.succ, d0, d1, depths, open0, r0, roundType, n, ld0, lr0, preds);
      EveryRound(n, s0, d0, d1, r0, p0, preds);
      NowStarted(n);
      if OneIdPerKind(block, idOf) && old(FirstFit(n, idOf)) {
        FirstFitNext(block, loc, s0, G.succ, d0, d1, depths, open0, r0, roundType, p0, parallelOpen, maxParallelOpen, next0, nextAvailable, n, preds, idOf);
        FitsSoFar(n + 1, idOf);
      }
    }

    /** Edges and depth of one instruction; `d1` are the depths in between. */
    method Insert(n: nat, ghost idOf: nat -> nat) returns (ghost preds: set<nat>, ghost d1: seq<nat>)
      requires Sized() && n < |block| && LastDefOk(block, loc, lastDef, n) && LastReadOk(block, loc, lastRead, n)
      requires ShortcutsGoDown(nextAvailable) && depths[n] == 0
      modifies G, `depths, `lastDef, `lastRead, `openNodes, `roundType, `parallelOpen, `nextAvailable
      ensures Sized() && |G.succ| == |block| && ShortcutsGoDown(nextAvailable) && EdgesTo(old(G.succ), G.succ, old(depths), d1, n, preds)
      ensures PredsComplete(block, loc, n, old(lastDef), old(lastRead), preds) && AllConflict(block, loc, n, preds)
      ensures LastDefOk(block, loc, lastDef, n + 1) && LastReadOk(block, loc, lastRead, n + 1)
      ensures |depths| == |d1| && depths == d1[n := depths[n]]
      ensures block[n].merge.NotMerged? ==>
        && depths == d1 && openNodes == old(openNodes) && roundType == old(roundType)
        && parallelOpen == old(parallelOpen) && nextAvailable == old(nextAvailable)
      ensures block[n].merge.Merged? ==>
        var Merged(kind, id, width) := block[n].merge;
        && openNodes == old(openNodes) + {n} && roundType == old(roundType)[depths[n] := id]
        && depths[n] == Search(old(nextAvailable), old(roundType), old(parallelOpen), maxParallelOpen, kind, id, d1[n] + 1)
        && depths[n] > d1[n]
        && (depths[n] in old(roundType) ==> old(roundType)[depths[n]] == id)
        && RoundTaken(old(roundType), old(parallelOpen), roundType, parallelOpen, maxParallelOpen, depths[n], id)
        && parallelOpen == Opened(old(parallelOpen), maxParallelOpen, depths[n], width)
      ensures block[n].merge.Merged? && OneIdPerKind(block, idOf) ==>
        ShortcutsSound(old(nextAvailable), old(roundType), old(parallelOpen), maxParallelOpen, idOf) ==>
          ShortcutsSound(nextAvailable, old(roundType), old(parallelOpen), maxParallelOpen, idOf)
      ensures block[n].instr.defs == [] && block[n].instr.uses == [] ==> Alone(n, old(G.succ), old(depths))
      ensures block[n].instr.defs == [] && block[n].instr.uses == [] && block[n].merge.Merged? ==>
        Placed(n, 0, old(roundType), old(parallelOpen), old(nextAvailable))
    {
      hide SparseDiGraph.Valid, WellNamed, Visited, Shortened, Unavailable, Placed, EdgesTo, PredsComplete, AllConflict, LastDefOk, LastReadOk, RoundTaken,
        ShortcutsSound, ShortcutsGoDown, Search, OneIdPerKind;
      preds := Connect(n);
      d1 := depths;
      if block[n].merge.Merged? {
        Place(n);
      }
      EdgeTableSize();
    }

    lemma EdgeTableSize()
      requires Sized()
      ensures |G.succ| == |block|
    {
    }

    lemma EveryRound(n: nat, s0: Succ, d0: seq<nat>, d1: seq<nat>, r0: map<nat, nat>, p0: map<nat, nat>, preds: set<nat>)
      requires n < |block| && |G.succ| == |s0| == |d0| == |block| && d0[n] == 0 && EdgesTo(s0, G.succ, d0, d1, n, preds)
      requires |depths| == |d1| && depths == d1[n := depths[n]] && (block[n].merge.NotMerged? ==> depths == d1)
      requires TablesOk(block, d0, r0, p0, maxParallelOpen, n) && RoundsFit(block, d0, maxParallelOpen, n) && NoneTooDeep(block, s0, d0, n)
      requires Justified(block, loc, s0) && AllConflict(block, loc, n, preds)
      requires block[n].merge.NotMerged? ==> roundType == r0 && parallelOpen == p0
      requires block[n].merge.Merged? ==>
        && !Unavailable(r0, p0, maxParallelOpen, block[n].merge.id, depths[n]) && roundType == r0[depths[n] := block[n].merge.id]
        && parallelOpen == Opened(p0, maxParallelOpen, depths[n], block[n].merge.width)
      ensures TablesOk(block, depths, roundType, parallelOpen, maxParallelOpen, n + 1)
      ensures RoundsFit(block, depths, maxParallelOpen, n + 1) && NoneTooDeep(block, G.succ, depths, n + 1) && Justified(block, loc, G.succ)
    {
      JustifiedNext(block, loc, s0, G.succ, n, preds);
      hide Justified, AllConflict, TablesOk, RoundsFit, NoneTooDeep, Unavailable, Opened;
      TablesNext(block, d0, depths, r0, roundType, p0, parallelOpen, maxParallelOpen, n);
      RoundsFitNext(block, d0, depths, r0, p0, maxParallelOpen, n);
      NoneTooDeepNext(block, s0, G.succ, d0, d1, depths, n, preds);
    }

    lemma NowStarted(n: nat)
      requires n < |block| && |instructions| == |block| && forall i: nat :: i < |block| ==> instructions[i] == Kept([block[i].instr])
      requires GraphOk(block, loc, G.succ, depths, openNodes, roundType, n + 1)
      requires LastDefOk(block, loc, lastDef, n + 1) && LastReadOk(block, loc, lastRead, n + 1)
      requires TablesOk(block, depths, roundType, parallelOpen, maxParallelOpen, n + 1)
      requires RoundsFit(block, depths, maxParallelOpen, n + 1) && NoneTooDeep(block, G.succ, depths, n + 1) && Justified(block, loc, G.succ)
      ensures Started(n + 1)
    {
    }

    lemma FitsSoFar(n: nat, idOf: nat -> nat)
      ensures FirstFit(n, idOf) <==> (
        && NoRoundWasted(block, G.succ, depths, maxParallelOpen, n)
        && ShortcutsSound(nextAvailable, roundType, parallelOpen, maxParallelOpen, idOf))
    {
    }

    /** Instruction `n` got no edges, and no other depth changed. */
    ghost predicate Alone(n: nat, succ: Succ, d: seq<nat>)
      requires n < |depths|
      reads this, G
    {
      G.succ == succ && |depths| == |d| && depths == d[n := depths[n]]
    }

    lemma StartedIsLayered()
      requires Sized() && Started(|block|)
      ensures WellLayered(block, loc, maxParallelOpen, G.succ, depths) && openNodes == Open(block, |block|)
    {
    }

    lemma UnplacedDepth(n: nat)
      requires Sized() && n < |block| && Started(n)
      ensures |depths| == |block| && depths[n] == 0
      ensures GraphOk(block, loc, G.succ, depths, openNodes, roundType, n)
      ensures LastDefOk(block, loc, lastDef, n) && LastReadOk(block, loc, lastRead, n)
      ensures TablesOk(block, depths, roundType, parallelOpen, maxParallelOpen, n)
      ensures RoundsFit(block, depths, maxParallelOpen, n) && NoneTooDeep(block, G.succ, depths, n) && Justified(block, loc, G.succ)
      ensures |instructions| == |block| && forall i: nat :: i < |block| ==> instructions[i] == Kept([block[i].instr])
      ensures |G.succ| == |block| && WellNamed(block, loc)
    {
    }

    ghost predicate FirstFit(n: nat, idOf: nat -> nat)
      reads this, G
    {
      && NoRoundWasted(block, G.succ, depths, maxParallelOpen, n)
      && ShortcutsSound(nextAvailable, roundType, parallelOpen, maxParallelOpen, idOf)
    }

    /** Lines 418-713. */
    method DependencyGraph(ghost idOf: nat -> nat)
      requires Sized() && Started(0) && nextAvailable == map[]
      modifies this, G
      ensures Sized() && Started(|block|)
      ensures OneIdPerKind(block, idOf) ==>
        NoRoundWasted(block, G.succ, depths, maxParallelOpen, |block|)
    {
      hide *;
      NothingWasted(idOf);
      for n := 0 to |block|
        invariant Sized() && Started(n) && ShortcutsGoDown(nextAvailable)
        invariant OneIdPerKind(block, idOf) ==> FirstFit(n, idOf)
      {
        AddInstruction(n, idOf);
      }
      FitsSoFar(|block|, idOf);
    }

    lemma NothingWasted(idOf: nat -> nat)
      requires nextAvailable == map[]
      ensures ShortcutsGoDown(nextAvailable) && FirstFit(0, idOf)
    {
    }

    /** The state while merging. `g` is the block's own graph; `rep` and `groups` say what was merged into what. */
    ghost predicate MergeState(g: Succ, rep: seq<nat>, groups: seq<seq<nat>>)
      reads this, G
    {
      && G.Valid() && G.n == |block|
      && MergeOk(block, g, G.succ, G.removed, depths, openNodes, rep, groups, instructions)
    }

    /** Lines 718-721. */
    method CutBetween(i: nat, j: nat)
      requires G.Valid() && i < G.n && j < G.n && i != j && i !in G.removed && j !in G.removed
      modifies G
      ensures G.Valid() && G.removed == old(G.removed)
      ensures Cut(old(G.succ), G.succ, i, j)
    {
      if j in G.succ[i] {
        G.RemoveEdge(i, j);
      }
      if i in G.succ[j] {
        G.RemoveEdge(j, i);
      }
    }

    /** Line 722. */
    method TakeSuccessors(i: nat, j: nat)
      requires G.Valid() && i < G.n && j < G.n && i != j && i !in G.removed && j !in G.removed
      modifies G
      ensures G.Valid() && G.removed == old(G.removed)
      ensures SuccessorsTaken(old(G.succ), G.succ, i, j)
    {
      ghost var cut := G.succ;
      var after := G.succ[j];
      for k := 0 to |after|
        invariant G.Valid() && G.removed == old(G.removed)
        invariant |G.succ| == |cut| && forall a: nat, b: nat {:trigger b in G.succ[a]} {:trigger b in cut[a]} :: a < |cut| ==>
                    (b in G.succ[a] <==> b in cut[a] || (a == i && b in after[..k]))
      {
        assert after[k] in cut[j];
        assert after[..k + 1] == after[..k] + [after[k]];
        G.AddEdge(i, after[k], 1);
      }
      assert after[..|after|] == after;
    }

    /** Line 723. */
    method TakePredecessors(i: nat, j: nat)
      requires G.Valid() && i < G.n && j < G.n && i != j && i !in G.removed && j !in G.removed
      modifies G
      ensures G.Valid() && G.removed == old(G.removed)
      ensures PredecessorsTaken(old(G.succ), G.succ, i, j, G.removed)
    {
      ghost var s1 := G.succ;
      var before := G.pred[j];
      var todo := before;
      while todo != {}
        invariant todo <= before && G.Valid() && G.removed == old(G.removed)
        invariant |G.succ| == |s1| && forall a: nat, b: nat {:trigger b in G.succ[a]} {:trigger b in s1[a]} :: a < |s1| ==>
                    (b in G.succ[a] <==> b in s1[a] || (b == i && a in before - todo))
      {
        var v :| v in todo;
        G.AddEdge(v, i, 1);
        todo := todo - {v};
      }
    }

    /** Lines 715-725. */
    method MergeNodes(i: nat, j: nat)
      requires G.Valid() && i < G.n && j < G.n && i != j && i !in G.removed && j !in G.removed
      requires i !in G.succ[i] && j !in G.succ[j]
      modifies G
      ensures G.Valid() && G.removed == old(G.removed) + {j}
      ensures Contracted(old(G.succ), G.succ, i, j, old(G.removed))
    {
      ghost var s0 := G.succ;
      CutBetween(i, j);
      ghost var s1 := G.succ;
      TakeSuccessors(i, j);
      ghost var s2 := G.succ;
      TakePredecessors(i, j);
      ghost var s3 := G.succ;
      G.RemoveNode(j);
      StepsContract(s0, s1, s2, s3, G.succ, i, j, old(G.removed));
    }

    /** Lines 350-370: merges the given nodes, which share one depth, into the first of them. */
    method DoMerge(nodes: seq<nat>, ghost g: Succ, ghost rep0: seq<nat>, ghost groups0: seq<seq<nat>>)
      returns (ghost rep: seq<nat>, ghost groups: seq<seq<nat>>)
      requires MergeState(g, rep0, groups0)
      requires nodes != [] && Ascending(nodes) && AllMergeable(nodes, rep0, groups0, depths, openNodes)
      modifies G, `instructions
      ensures MergeState(g, rep, groups)
      ensures MergedInto(nodes, rep0, groups0, rep, groups)
    {
      rep, groups := rep0, groups0;
      var n := nodes[0];
      assert nodes[..1] == [n];
      assert Grouped(groups0, rep0);
      for k := 1 to |nodes|
        invariant MergeState(g, rep, groups)
        invariant MergedInto(nodes[..k], rep0, groups0, rep, groups)
        invariant groups[n] == nodes[..k]
      {
        var i := nodes[k];
        ghost var s0, removed, slots := G.succ, G.removed, instructions;
        NextIsMergeable(nodes, k, rep0, groups0, rep, groups, depths, openNodes);
        NoEdgeWithinDepth(block, g, G.succ, G.removed, depths, openNodes, rep, groups, instructions, n, i);
        instructions := instructions[n := Kept(instructions[n].parts + instructions[i].parts)];
        instructions := instructions[i := Gone];
        MergeNodes(n, i);
        MergeStep(block, g, s0, G.succ, removed, depths, openNodes, rep, groups, slots, instructions, n, i);
        MergedIntoNext(nodes, k, rep0, groups0, rep, groups);
        rep, groups := Redirect(rep, n, i), groups[n := groups[n] + groups[i]][i := []];
      }
      assert nodes[..|nodes|] == nodes;
    }

    /** Lines 388-391: the nodes to be merged, by depth. */
    method CollectMerges() returns (merges: map<nat, set<nat>>)
      requires forall o: nat :: o in openNodes ==> o < |depths|
      ensures MergesCollect(merges, openNodes, depths)
    {
      merges := map[];
      var todo := openNodes;
      while todo != {}
        invariant todo <= openNodes
        invariant MergesCollect(merges, openNodes - todo, depths)
      {
        var node :| node in todo;
        var d := depths[node];
        merges := merges[d := (if d in merges then merges[d] else {}) + {node}];
        todo := todo - {node};
      }
      assert openNodes - todo == openNodes;
    }

    /** Lines 396-405: one merge for every depth. */
    method MergeDepths(merges: map<nat, set<nat>>, ghost g: Succ, ghost rep0: seq<nat>, ghost groups0: seq<seq<nat>>)
      returns (ghost rep: seq<nat>, ghost groups: seq<seq<nat>>)
      requires MergeState(g, rep0, groups0) && MergesCollect(merges, openNodes, depths)
      requires Unmerged({}, rep0, groups0, depths, openNodes)
      modifies G, `instructions
      ensures MergeState(g, rep, groups)
      ensures OneMergePerDepth(rep, depths, openNodes)
    {
      rep, groups := rep0, groups0;
      var order := Sorted(merges.Keys);
      ghost var done: set<nat> := {};
      for k := 0 to |order|
        invariant MergeState(g, rep, groups)
        invariant forall d: nat :: d in done <==> d in order[..k]
        invariant Unmerged(done, rep, groups, depths, openNodes)
      {
        var d := order[k];
        assert order[..k + 1] == order[..k] + [d];
        assert d !in order[..k] && d in order;
        var nodes := Sorted(merges[d]);
        DepthIsMergeable(merges, d, done, nodes, rep, groups, depths, openNodes);
        ghost var rep1, groups1 := rep, groups;
        rep, groups := DoMerge(nodes, g, rep, groups);
        DepthMerged(merges, d, done, nodes, rep1, groups1, rep, groups, depths, openNodes);
        done := done + {d};
      }
      assert order[..|order|] == order;
      AllDepthsMerged(merges, done, rep, groups, depths, openNodes);
    }

    /** Lines 411-412. */
    method SortBlock(ghost g: Succ, ghost rep: seq<nat>, ghost groups: seq<seq<nat>>) returns (ghost order: seq<nat>)
      requires MergeState(g, rep, groups)
      modifies `instructions
      ensures IsTopological(G.succ, order) && DistinctIn(|block|, order) && forall v: nat :: v < |block| ==> v in order
      ensures instructions == Compact(old(instructions), order)
    {
      hide MergeOk, IsCycle, ReachedFrom, G.Valid;
      var all := CountDown(G.n);
      NeverCyclic(block, g, G.succ, G.removed, depths, openNodes, rep, groups, instructions, all);
      var sorted := TopologicalSort(G.succ, all);
      order := sorted.nodes;
      instructions := CompactList(instructions, sorted.nodes);
    }

    /** Lines 372-416. The ghost results say which instructions were merged (`rep`, `groups`) and in which
        order the block now runs; the last clause is the purpose of it all. */
    method LongestPathsMerge() returns (rounds: nat, ghost rep: seq<nat>, ghost groups: seq<seq<nat>>, ghost order: seq<nat>)
      requires Sized() && Started(|block|)
      modifies G, `instructions
      ensures OneMergePerDepth(rep, depths, openNodes) && Grouped(groups, rep)
      ensures DistinctIn(|block|, order) && forall v: nat :: v < |block| ==> v in order
      ensures |rep| == |block| == |groups| && instructions == Compact(SlotsOf(block, rep, groups), order)
      ensures rounds == |DepthsOf(depths, openNodes)|
      ensures MeaningKept(block, loc, instructions)
    {
      hide GraphOk, MergeOk, IsTopological, Forward, Covers, Ranked, Grouped, OneMergePerDepth, MeaningKept, Compact, Unmerged, MergesCollect;
      ghost var g := G.succ;
      rep, groups := Identity(|block|), Singletons(|block|);
      StartMerging(block, loc, g, depths, openNodes, roundType, instructions, G.removed);
      if openNodes == {} {
        order := Identity(|block|);
        IdentityIsTopological(g, order);
        CompactKeepsAll(instructions, 0);
        assert order[0..] == order;
        assert instructions[0..] == instructions;
        SlotsAreGroups(block, g, g, G.removed, depths, openNodes, rep, groups, instructions);
        ReorderKeepsMeaning(block, loc, g, g, G.removed, depths, openNodes, rep, groups, instructions, order);
        return 0, rep, groups, order;
      }
      var merges := CollectMerges();
      rep, groups := MergeDepths(merges, g, rep, groups);
      ghost var slots := instructions;
      SlotsAreGroups(block, g, G.succ, G.removed, depths, openNodes, rep, groups, slots);
      order := SortBlock(g, rep, groups);
      ReorderKeepsMeaning(block, loc, g, G.succ, G.removed, depths, openNodes, rep, groups, slots, order);
      rounds := |merges|;
      RoundsCounted(merges, depths, openNodes);
    }
  }

  /** How a block was merged: its dependency graph, the depths, which instructions became one, and the new order. */
  datatype Plan = Plan(succ: Succ, depths: seq<nat>, rep: seq<nat>, groups: seq<seq<nat>>, order: seq<nat>)

  /** Depths follow the dependencies, rounds are of one id and no fuller than allowed, and nothing else is deeper than it must be. */
  ghost predicate WellLayered(block: Block, loc: seq<nat>, maxParallelOpen: int, succ: Succ, depths: seq<nat>) {
    && Forward(succ) && Covers(block, loc, succ, |block|) && |depths| == |block| == |succ| && Layered(succ, depths, Open(block, |block|))
    && RoundsFit(block, depths, maxParallelOpen, |block|) && NoneTooDeep(block, succ, depths, |block|) && Justified(block, loc, succ)
  }

  /** The new list: one instruction for every depth of those to be merged, the others as they were, in the new order. */
  ghost predicate IsMerged(block: Block, merged: seq<Slot>, plan: Plan) {
    && |plan.rep| == |block| == |plan.groups| && OneMergePerDepth(plan.rep, plan.depths, Open(block, |block|)) && Grouped(plan.groups, plan.rep)
    && DistinctIn(|block|, plan.order) && (forall v: nat :: v < |block| ==> v in plan.order)
    && merged == Compact(SlotsOf(block, plan.rep, plan.groups), plan.order)
  }

  /** Compiler/program.py:1071, 1082: merging a block, for every list of instructions. */
  method MergeBlock(block: Block, loc: seq<nat>, maxParallelOpen: int, ghost idOf: nat -> nat) returns (merged: seq<Slot>, ghost plan: Plan)
    requires WellNamed(block, loc)
    ensures MeaningKept(block, loc, merged)
    ensures WellLayered(block, loc, maxParallelOpen, plan.succ, plan.depths) && IsMerged(block, merged, plan)
    ensures OneIdPerKind(block, idOf) ==> NoRoundWasted(block, plan.succ, plan.depths, maxParallelOpen, |block|)
  {
    hide *;
    var merger := new Merger(block, loc, maxParallelOpen);
    merger.DependencyGraph(idOf);
    merger.StartedIsLayered();
    ghost var succ := merger.G.succ;
    var rounds, rep, groups, order := merger.LongestPathsMerge();
    merged := merger.instructions;
    plan := Plan(succ, merger.depths, rep, groups, order);
    MergedIs(block, merged, plan);
  }

  lemma MergedIs(block: Block, merged: seq<Slot>, plan: Plan)
    requires |plan.rep| == |block| == |plan.groups| && OneMergePerDepth(plan.rep, plan.depths, Open(block, |block|)) && Grouped(plan.groups, plan.rep)
    requires DistinctIn(|block|, plan.order) && forall v: nat :: v < |block| ==> v in plan.order
    requires merged == Compact(SlotsOf(block, plan.rep, plan.groups), plan.order)
    ensures IsMerged(block, merged, plan)
  {
  }

  /** In a block that was layered, the instructions of one round share an id, and those before the last of them open less than is allowed. */
  lemma RoundsAreLimited(block: Block, loc: seq<nat>, maxParallelOpen: int, succ: Succ, depths: seq<nat>, i: nat, j: nat)
    requires WellLayered(block, loc, maxParallelOpen, succ, depths)
    requires i < j < |block| && block[i].merge.Merged? && block[j].merge.Merged? && depths[i] == depths[j]
    ensures block[i].merge.id == block[j].merge.id
    ensures maxParallelOpen > 0 ==> WidthBefore(block, depths, j, depths[j]) < maxParallelOpen
  {
    hide Covers, Layered, NoneTooDeep;
    assert InRound(block, depths, i, depths[j]);
  }

  /** Shortcuts are keyed by instruction type, but rounds by merge id, which also holds the vector size. Whenever one type has two
      ids and a third id is in play, an instruction may wait past a round that could have taken it: here four independent
      instructions get rounds 1 to 4, though the last one could be merged with the second in round 2. */
  method ShortcutPassesOpenRound(other: nat, kind: nat, h: nat, i: nat, j: nat) returns (merger: Merger)
    requires h != i && h != j && i != j
    ensures merger.block == FourInstructions(other, kind, h, i, j) && merger.depths == [1, 2, 3, 4] && merger.maxParallelOpen == 0
    ensures !NoRoundWasted(merger.block, merger.G.succ, merger.depths, 0, 4)
  {
    hide GraphOk, LastDefOk, LastReadOk, NoRoundWasted, ShortcutsSound, ShortcutsGoDown, Search, Visited, Shortened, Unavailable, OneIdPerKind,
      TablesOk, RoundsFit, NoneTooDeep, Justified, Closed, Covers, Layered;
    merger := new Merger(FourInstructions(other, kind, h, i, j), [], 0);
    ghost var succ := merger.G.succ;
    NoShortcuts();
    merger.AddInstruction(0, _ => 0);
    FirstRound(other, h);
    merger.AddInstruction(1, _ => 0);
    SecondRound(kind, h, i);
    merger.AddInstruction(2, _ => 0);
    ThirdRound(kind, h, i, j);
    merger.AddInstruction(3, _ => 0);
    FourthRound(kind, h, i, j);
    assert merger.depths == [1, 2, 3, 4];
    assert merger.roundType == map[1 := h, 2 := i, 3 := j, 4 := i];
    RoundWasted(merger.G.succ, other, kind, h, i, j);
  }

  function FourInstructions(other: nat, kind: nat, h: nat, i: nat, j: nat): Block {
    var none := Instr(0, [], []);
    [BlockInstr(none, Merged(other, h, 1)), BlockInstr(none, Merged(kind, i, 1)),
     BlockInstr(none, Merged(kind, j, 1)), BlockInstr(none, Merged(kind, i, 1))]
  }

  lemma NoShortcuts()
    ensures ShortcutsGoDown(map[])
  {
  }

  lemma FirstRound(other: nat, h: nat)
    ensures ShortcutsGoDown(map[]) && Search(map[], map[], map[], 0, other, h, 1) == 1
    ensures Shortened(map[], other, Visited(map[], map[], map[], 0, other, h, 1), 1) == map[]
  {
  }

  lemma SecondRound(kind: nat, h: nat, i: nat)
    requires h != i
    ensures ShortcutsGoDown(map[]) && Search(map[], map[1 := h], map[], 0, kind, i, 1) == 2
    ensures Shortened(map[], kind, Visited(map[], map[1 := h], map[], 0, kind, i, 1), 2) == map[(kind, 1) := 2]
  {
    assert Search(map[], map[1 := h], map[], 0, kind, i, 2) == 2;
    assert Visited(map[], map[1 := h], map[], 0, kind, i, 1) == {1};
  }

  lemma ThirdRound(kind: nat, h: nat, i: nat, j: nat)
    requires h != j && i != j
    ensures var next := map[(kind, 1) := 2];
      var rounds := map[1 := h, 2 := i];
      && ShortcutsGoDown(next) && Search(next, rounds, map[], 0, kind, j, 1) == 3
      && Shortened(next, kind, Visited(next, rounds, map[], 0, kind, j, 1), 3) == map[(kind, 1) := 3, (kind, 2) := 3]
  {
    var next: map<(nat, nat), nat> := map[(kind, 1) := 2];
    var rounds: map<nat, nat> := map[1 := h, 2 := i];
    assert Search(next, rounds, map[], 0, kind, j, 3) == 3;
    assert Search(next, rounds, map[], 0, kind, j, 2) == 3;
    assert Visited(next, rounds, map[], 0, kind, j, 3) == {};
    assert Visited(next, rounds, map[], 0, kind, j, 2) == {2};
    assert Visited(next, rounds, map[], 0, kind, j, 1) == {1, 2};
  }

  lemma FourthRound(kind: nat, h: nat, i: nat, j: nat)
    requires h != i && i != j
    ensures var next := map[(kind, 1) := 3, (kind, 2) := 3];
      var rounds := map[1 := h, 2 := i, 3 := j];
      ShortcutsGoDown(next) && Search(next, rounds, map[], 0, kind, i, 1) == 4
  {
    var next: map<(nat, nat), nat> := map[(kind, 1) := 3, (kind, 2) := 3];
    var rounds: map<nat, nat> := map[1 := h, 2 := i, 3 := j];
    assert Search(next, rounds, map[], 0, kind, i, 4) == 4;
    assert Search(next, rounds, map[], 0, kind, i, 3) == 4;
  }

  lemma RoundWasted(succ: Succ, other: nat, kind: nat, h: nat, i: nat, j: nat)
    requires forall k: nat :: k < |succ| ==> succ[k] == []
    ensures !NoRoundWasted(FourInstructions(other, kind, h, i, j), succ, [1, 2, 3, 4], 0, 4)
  {
    assert BelowPreds(succ, [1, 2, 3, 4], 3, 2);
  }

  // ----- bookkeeping of one instruction -----

  ghost predicate Overwritten(l0: seq<int>, l1: seq<int>, defs: seq<nat>, n: nat) {
    |l1| == |l0| && forall q: nat :: q < |l0| ==> l1[q] == if q in defs then n else l0[q]
  }

  ghost predicate WritesFollowed(loc: seq<nat>, defs: seq<nat>, l0: seq<int>, lastRead: seq<seq<nat>>, preds: set<nat>) {
    |l0| == |lastRead| == |loc| && forall r: nat, q: nat {:trigger r in defs, loc[q]} ::
      r in defs && r < |loc| && q < |loc| && loc[q] == loc[r] ==>
        (l0[q] == -1 || l0[q] in preds) && forall m: nat :: m in lastRead[q] ==> m in preds
  }

  ghost predicate ReadsFollowed(loc: seq<nat>, uses: seq<nat>, l0: seq<int>, preds: set<nat>) {
    |l0| == |loc| && forall r: nat, q: nat {:trigger r in uses, loc[q]} ::
      r in uses && r < |loc| && q < |loc| && loc[q] == loc[r] ==> l0[q] == -1 || l0[q] in preds
  }

  ghost predicate ReadMarked(r0: seq<seq<nat>>, r1: seq<seq<nat>>, uses: seq<nat>, n: nat) {
    |r1| == |r0| && forall q: nat, m: nat {:trigger m in r1[q]} {:trigger m in r0[q]} :: q < |r0| ==>
      (m in r1[q] <==> m in r0[q] || (m == n && q in uses))
  }

  lemma NothingFollowed(block: Block, loc: seq<nat>, l0: seq<int>, r0: seq<seq<nat>>, n: nat)
    requires |l0| == |r0| == |loc|
    ensures Overwritten(l0, l0, [], n) && WritesFollowed(loc, [], l0, r0, {}) && AllConflict(block, loc, n, {})
    ensures forall preds: set<nat> :: ReadsFollowed(loc, [], l0, preds)
    ensures ReadMarked(r0, r0, [], n)
  {
  }

  lemma AllConflictMore(block: Block, loc: seq<nat>, n: nat, preds: set<nat>, more: set<nat>)
    requires AllConflict(block, loc, n, preds) && AllConflict(block, loc, n, more)
    ensures AllConflict(block, loc, n, preds + more)
  {
  }

  lemma OverwrittenBounds(block: Block, loc: seq<nat>, l0: seq<int>, l1: seq<int>, defs: seq<nat>, n: nat)
    requires n <= |block| && LastDefOk(block, loc, l0, n) && Overwritten(l0, l1, defs, n)
    ensures InBounds(l1, n)
  {
    forall q: nat | q < |l1| ensures -1 <= l1[q] <= n {
      assert DefinedLast(block, l0[q], q, n);
    }
  }

  lemma DefsAreEarlier(block: Block, loc: seq<nat>, lastDef: seq<int>, n: nat)
    requires n <= |block| && LastDefOk(block, loc, lastDef, n)
    ensures forall q: nat :: q < |lastDef| ==> lastDef[q] < n
  {
    forall q: nat | q < |lastDef| ensures lastDef[q] < n {
      assert DefinedLast(block, lastDef[q], q, n);
    }
  }

  lemma ReadsAreEarlier(block: Block, loc: seq<nat>, lastRead: seq<seq<nat>>, n: nat)
    requires n <= |block| && LastReadOk(block, loc, lastRead, n)
    ensures ReadsBefore(lastRead, n)
  {
  }

  lemma FollowedMore(loc: seq<nat>, defs: seq<nat>, k: nat, l0: seq<int>, l1: seq<int>, l2: seq<int>, lastRead: seq<seq<nat>>,
                     n: nat, preds: set<nat>, more: set<nat>)
    requires k < |defs| && defs[k] < |loc| == |l0| && WritesFollowed(loc, defs[..k], l0, lastRead, preds)
    requires forall q: nat :: q < |l0| ==> l0[q] < n
    requires Overwritten(l0, l1, defs[..k], n) && l2 == l1[defs[k] := n]
    requires DefsSeen(l1, n, Duplicates(loc, defs[k]), more) && ReadsSeen(lastRead, Duplicates(loc, defs[k]), more)
    ensures WritesFollowed(loc, defs[..k + 1], l0, lastRead, preds + more)
    ensures Overwritten(l0, l2, defs[..k + 1], n)
  {
    assert defs[..k + 1] == defs[..k] + [defs[k]];
    forall r: nat, q: nat {:trigger r in defs[..k + 1], loc[q]} |
      r in defs[..k + 1] && r < |loc| && q < |loc| && loc[q] == loc[r]
      ensures (l0[q] == -1 || l0[q] in preds + more) && forall m: nat :: m in lastRead[q] ==> m in preds + more
    {
      if r in defs[..k] {
      } else {
        assert q in Duplicates(loc, defs[k]);
        if q in defs[..k] {
          assert loc[q] == loc[q];
        }
      }
    }
  }

  lemma ReadFollowedMore(loc: seq<nat>, defs: seq<nat>, uses: seq<nat>, k: nat, l0: seq<int>, l1: seq<int>, lastRead: seq<seq<nat>>,
                         n: nat, preds: set<nat>, more: set<nat>)
    requires k < |uses| && uses[k] < |loc| == |l0| && ReadsFollowed(loc, uses[..k], l0, preds)
    requires forall q: nat :: q < |l0| ==> l0[q] < n
    requires Overwritten(l0, l1, defs, n) && WritesFollowed(loc, defs, l0, lastRead, preds)
    requires DefsSeen(l1, n, Duplicates(loc, uses[k]), more)
    ensures ReadsFollowed(loc, uses[..k + 1], l0, preds + more)
    ensures WritesFollowed(loc, defs, l0, lastRead, preds + more)
  {
    assert uses[..k + 1] == uses[..k] + [uses[k]];
    forall r: nat, q: nat {:trigger r in uses[..k + 1], loc[q]} |
      r in uses[..k + 1] && r < |loc| && q < |loc| && loc[q] == loc[r]
      ensures l0[q] == -1 || l0[q] in preds + more
    {
      if r in uses[..k] {
      } else {
        assert q in Duplicates(loc, uses[k]);
        if q in defs {
          assert loc[q] == loc[q];
        }
      }
    }
  }

  lemma ReadMarkedMore(r0: seq<seq<nat>>, r1: seq<seq<nat>>, r2: seq<seq<nat>>, uses: seq<nat>, k: nat, n: nat)
    requires k < |uses| && uses[k] < |r0| && ReadMarked(r0, r1, uses[..k], n) && r2 == r1[uses[k] := r1[uses[k]] + [n]]
    ensures ReadMarked(r0, r2, uses[..k + 1], n)
  {
    assert uses[..k + 1] == uses[..k] + [uses[k]];
  }

  lemma LastDefNext(block: Block, loc: seq<nat>, l0: seq<int>, l1: seq<int>, n: nat)
    requires n < |block| && LastDefOk(block, loc, l0, n) && Overwritten(l0, l1, block[n].instr.defs, n)
    ensures LastDefOk(block, loc, l1, n + 1)
  {
    forall r: nat | r < |loc| ensures DefinedLast(block, l1[r], r, n + 1) {
      assert DefinedLast(block, l0[r], r, n);
    }
  }

  lemma LastReadNext(block: Block, loc: seq<nat>, r0: seq<seq<nat>>, r1: seq<seq<nat>>, n: nat)
    requires n < |block| && LastReadOk(block, loc, r0, n) && ReadMarked(r0, r1, block[n].instr.uses, n)
    ensures LastReadOk(block, loc, r1, n + 1)
  {
  }

  lemma FollowedIsComplete(block: Block, loc: seq<nat>, n: nat, l0: seq<int>, r0: seq<seq<nat>>, preds: set<nat>)
    requires n < |block| && WritesFollowed(loc, block[n].instr.defs, l0, r0, preds) && ReadsFollowed(loc, block[n].instr.uses, l0, preds)
    ensures PredsComplete(block, loc, n, l0, r0, preds)
  {
  }
}
