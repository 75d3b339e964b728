/** What a basic block of register instructions computes, and when its order is free.
    A register name denotes a location; linked registers (`duplicates`) share one. */
module BlockSemantics {

  /** One instruction: what it writes, what it reads, and an operation code. */
  datatype Instr = Instr(op: int, defs: seq<nat>, uses: seq<nat>)

  /** Output `k` of operation `op` on the given inputs. Any function at all. */
  type Meaning = (int, seq<int>, nat) -> int

  /** Register values, indexed by location. */
  type State = seq<int>

  ghost predicate Named(loc: seq<nat>, regs: seq<nat>) {
    forall k: nat :: k < |regs| ==> regs[k] < |loc|
  }

  ghost predicate Fits(loc: seq<nat>, i: Instr, size: nat) {
    && Named(loc, i.defs) && Named(loc, i.uses)
    && (forall r: nat :: r < |loc| ==> loc[r] < size)
  }

  function Read(loc: seq<nat>, uses: seq<nat>, s: State): (v: seq<int>)
    requires Named(loc, uses) && forall r: nat :: r < |loc| ==> loc[r] < |s|
    ensures |v| == |uses|
  {
    seq(|uses|, k requires 0 <= k < |uses| => s[loc[uses[k]]])
  }

  /** Writes the outputs in the order of `defs`. */
  function Write(sem: Meaning, loc: seq<nat>, i: Instr, ins: seq<int>, k: nat, s: State): (t: State)
    requires Named(loc, i.defs) && forall r: nat :: r < |loc| ==> loc[r] < |s|
    requires k <= |i.defs|
    ensures |t| == |s|
  {
    if k == 0 then s
    else Write(sem, loc, i, ins, k - 1, s)[loc[i.defs[k - 1]] := sem(i.op, ins, k - 1)]
  }

  function Exec(sem: Meaning, loc: seq<nat>, i: Instr, s: State): (t: State)
    requires Fits(loc, i, |s|)
    ensures |t| == |s|
  {
    Write(sem, loc, i, Read(loc, i.uses, s), |i.defs|, s)
  }

  ghost predicate AllFit(loc: seq<nat>, p: seq<Instr>, size: nat) {
    forall k: nat :: k < |p| ==> Fits(loc, p[k], size)
  }

  function Run(sem: Meaning, loc: seq<nat>, p: seq<Instr>, s: State): (t: State)
    requires AllFit(loc, p, |s|)
    ensures |t| == |s|
  {
    if p == [] then s else Run(sem, loc, p[1..], Exec(sem, loc, p[0], s))
  }

  /** A merged instruction reads all its inputs before it writes anything. */
  function RunMerged(sem: Meaning, loc: seq<nat>, parts: seq<Instr>, before: State, s: State): (t: State)
    requires |before| == |s| && AllFit(loc, parts, |s|)
    ensures |t| == |s|
  {
    if parts == [] then s
    else
      var i := parts[0];
      RunMerged(sem, loc, parts[1..], before, Write(sem, loc, i, Read(loc, i.uses, before), |i.defs|, s))
  }

  ghost predicate AllFitMerged(loc: seq<nat>, block: seq<seq<Instr>>, size: nat) {
    forall k: nat :: k < |block| ==> AllFit(loc, block[k], size)
  }

  function RunBlock(sem: Meaning, loc: seq<nat>, block: seq<seq<Instr>>, s: State): (t: State)
    requires AllFitMerged(loc, block, |s|)
    ensures |t| == |s|
  {
    if block == [] then s else RunBlock(sem, loc, block[1..], RunMerged(sem, loc, block[0], s, s))
  }

  // ----- interference -----

  ghost predicate Defines(loc: seq<nat>, i: Instr, x: nat) {
    exists k: nat :: k < |i.defs| && i.defs[k] < |loc| && loc[i.defs[k]] == x
  }

  ghost predicate Uses(loc: seq<nat>, i: Instr, x: nat) {
    exists k: nat :: k < |i.uses| && i.uses[k] < |loc| && loc[i.uses[k]] == x
  }

  /** One writes what the other reads or writes. */
  ghost predicate Conflict(loc: seq<nat>, i: Instr, j: Instr) {
    exists x :: (Defines(loc, i, x) && (Defines(loc, j, x) || Uses(loc, j, x))) || (Uses(loc, i, x) && Defines(loc, j, x))
  }

  lemma ConflictIsSymmetric(loc: seq<nat>, i: Instr, j: Instr)
    ensures Conflict(loc, i, j) <==> Conflict(loc, j, i)
  {
  }

  lemma WriteFrame(sem: Meaning, loc: seq<nat>, i: Instr, ins: seq<int>, k: nat, s: State, x: nat)
    requires Fits(loc, i, |s|) && k <= |i.defs| && x < |s|
    requires !Defines(loc, i, x)
    ensures Write(sem, loc, i, ins, k, s)[x] == s[x]
  {
    if k > 0 {
      WriteFrame(sem, loc, i, ins, k - 1, s, x);
    }
  }

  /** What is written does not depend on what was there before. */
  lemma WriteOverrides(sem: Meaning, loc: seq<nat>, i: Instr, ins: seq<int>, k: nat, s: State, s': State, x: nat)
    requires Fits(loc, i, |s|) && k <= |i.defs| && x < |s| == |s'|
    requires s[x] == s'[x] || exists j: nat :: j < k && loc[i.defs[j]] == x
    ensures Write(sem, loc, i, ins, k, s)[x] == Write(sem, loc, i, ins, k, s')[x]
  {
    if k > 0 && loc[i.defs[k - 1]] != x {
      WriteOverrides(sem, loc, i, ins, k - 1, s, s', x);
    }
  }

  lemma ReadFrame(loc: seq<nat>, i: Instr, s: State, s': State)
    requires Fits(loc, i, |s|) && |s| == |s'|
    requires forall x: nat :: x < |s| && Uses(loc, i, x) ==> s[x] == s'[x]
    ensures Read(loc, i.uses, s) == Read(loc, i.uses, s')
  {
    forall k: nat | k < |i.uses| ensures s[loc[i.uses[k]]] == s'[loc[i.uses[k]]] {
      assert Uses(loc, i, loc[i.uses[k]]);
    }
  }

  lemma Commute(sem: Meaning, loc: seq<nat>, i: Instr, j: Instr, s: State)
    requires Fits(loc, i, |s|) && Fits(loc, j, |s|) && !Conflict(loc, i, j)
    ensures Exec(sem, loc, j, Exec(sem, loc, i, s)) == Exec(sem, loc, i, Exec(sem, loc, j, s))
  {
    var si, sj := Exec(sem, loc, i, s), Exec(sem, loc, j, s);
    var ri, rj := Read(loc, i.uses, s), Read(loc, j.uses, s);
    forall x: nat | x < |s| && Uses(loc, j, x) ensures s[x] == si[x] {
      WriteFrame(sem, loc, i, ri, |i.defs|, s, x);
    }
    ReadFrame(loc, j, s, si);
    forall x: nat | x < |s| && Uses(loc, i, x) ensures s[x] == sj[x] {
      WriteFrame(sem, loc, j, rj, |j.defs|, s, x);
    }
    ReadFrame(loc, i, s, sj);
    var ij, ji := Exec(sem, loc, j, si), Exec(sem, loc, i, sj);
    forall x: nat | x < |s| ensures ij[x] == ji[x] {
      if Defines(loc, i, x) {
        WriteFrame(sem, loc, j, rj, |j.defs|, si, x);
        WriteOverrides(sem, loc, i, ri, |i.defs|, s, sj, x);
      } else {
        WriteFrame(sem, loc, i, ri, |i.defs|, sj, x);
        if Defines(loc, j, x) {
          WriteOverrides(sem, loc, j, rj, |j.defs|, s, si, x);
        } else {
          WriteFrame(sem, loc, i, ri, |i.defs|, s, x);
          WriteFrame(sem, loc, j, rj, |j.defs|, s, x);
          WriteFrame(sem, loc, j, rj, |j.defs|, si, x);
        }
      }
    }
  }

  // ----- reordering -----

  /** The instructions named by a list of indices. */
  ghost function Pick(p: seq<Instr>, order: seq<nat>): (q: seq<Instr>)
    requires forall k: nat :: k < |order| ==> order[k] < |p|
    ensures |q| == |order| && forall k: nat :: k < |q| ==> q[k] == p[order[k]]
  {
    seq(|order|, k requires 0 <= k < |order| => p[order[k]])
  }

  ghost predicate DistinctIn(n: nat, order: seq<nat>) {
    && (forall k: nat :: k < |order| ==> order[k] < n)
    && (forall a: nat, b: nat :: a < b < |order| ==> order[a] != order[b])
  }

  ghost predicate Before(o: seq<nat>, u: nat, v: nat) {
    exists a: nat, b: nat :: a < b < |o| && o[a] == u && o[b] == v
  }

  /** The second list keeps the relative order of every conflicting pair. */
  ghost predicate KeepsConflictOrder(loc: seq<nat>, p: seq<Instr>, o1: seq<nat>, o2: seq<nat>) {
    forall u: nat, v: nat {:trigger Before(o1, u, v)} :: Before(o1, u, v) && u < |p| && v < |p| && Conflict(loc, p[u], p[v]) ==> Before(o2, u, v)
  }

  lemma BeforeIsAsymmetric(n: nat, o: seq<nat>, u: nat, v: nat)
    requires DistinctIn(n, o) && Before(o, u, v)
    ensures !Before(o, v, u) && u != v
  {
  }

  lemma RunAppend(sem: Meaning, loc: seq<nat>, p: seq<Instr>, q: seq<Instr>, s: State)
    requires AllFit(loc, p, |s|) && AllFit(loc, q, |s|)
    ensures AllFit(loc, p + q, |s|)
    ensures Run(sem, loc, p + q, s) == Run(sem, loc, q, Run(sem, loc, p, s))
  {
    if p == [] {
      assert p + q == q;
    } else {
      assert (p + q)[1..] == p[1..] + q;
      RunAppend(sem, loc, p[1..], q, Exec(sem, loc, p[0], s));
    }
  }

  /** An instruction moves to the front past everything it does not conflict with. */
  lemma {:induction false} MoveToFront(sem: Meaning, loc: seq<nat>, p: seq<Instr>, i: Instr, s: State)
    requires AllFit(loc, p, |s|) && Fits(loc, i, |s|)
    requires forall k: nat :: k < |p| ==> !Conflict(loc, i, p[k])
    ensures AllFit(loc, p + [i], |s|) && AllFit(loc, [i] + p, |s|)
    ensures Run(sem, loc, p + [i], s) == Run(sem, loc, [i] + p, s)
  {
    if p == [] {
      assert p + [i] == [i] + p;
    } else {
      var s1 := Exec(sem, loc, p[0], s);
      assert (p + [i])[1..] == p[1..] + [i];
      MoveToFront(sem, loc, p[1..], i, s1);
      assert ([i] + p[1..])[1..] == p[1..];
      ConflictIsSymmetric(loc, i, p[0]);
      Commute(sem, loc, p[0], i, s);
      assert ([i] + p)[1..] == p;
    }
  }

  lemma FindIndex(o: seq<nat>, v: nat) returns (t: nat)
    requires v in o
    ensures t < |o| && o[t] == v
  {
    t :| 0 <= t < |o| && o[t] == v;
  }

  /** Any two orders of the same instructions that agree on conflicting pairs compute the same. */
  lemma {:induction false} Reorder(sem: Meaning, loc: seq<nat>, p: seq<Instr>, o1: seq<nat>, o2: seq<nat>, s: State)
    requires AllFit(loc, p, |s|) && DistinctIn(|p|, o1) && DistinctIn(|p|, o2)
    requires |o1| == |o2| && forall v :: v in o1 <==> v in o2
    requires KeepsConflictOrder(loc, p, o1, o2)
    ensures AllFit(loc, Pick(p, o1), |s|) && AllFit(loc, Pick(p, o2), |s|)
    ensures Run(sem, loc, Pick(p, o1), s) == Run(sem, loc, Pick(p, o2), s)
    decreases |o1|
  {
    PickFits(loc, p, o1, |s|);
    PickFits(loc, p, o2, |s|);
    if o1 != [] {
      hide KeepsConflictOrder, Conflict, Exec, Fits, Run, Pick;
      var v := o1[0];
      assert v in o2;
      var t := FindIndex(o2, v);
      var left, right := o2[..t], o2[t + 1..];
      RemoveFirst(loc, p, o1, o2, t);
      forall k: nat | k < |left| ensures !Conflict(loc, p[v], Pick(p, left)[k]) {
        FirstIsFree(loc, p, o1, o2, t, k);
      }
      Reorder(sem, loc, p, o1[1..], left + right, Exec(sem, loc, p[v], s));
      RunPicked(sem, loc, p, o1, s);
      PickFits(loc, p, left, |s|);
      PickFits(loc, p, right, |s|);
      PullOut(sem, loc, Pick(p, left), p[v], Pick(p, right), s);
      PickAppend(p, left, right);
      PickAround(p, o2, t);
    }
  }

  lemma RunPicked(sem: Meaning, loc: seq<nat>, p: seq<Instr>, order: seq<nat>, s: State)
    requires AllFit(loc, p, |s|) && DistinctIn(|p|, order) && order != []
    ensures DistinctIn(|p|, order[1..]) && AllFit(loc, Pick(p, order), |s|) && AllFit(loc, Pick(p, order[1..]), |s|)
    ensures Run(sem, loc, Pick(p, order), s) == Run(sem, loc, Pick(p, order[1..]), Exec(sem, loc, p[order[0]], s))
  {
    hide Fits, Exec;
    assert Pick(p, order)[1..] == Pick(p, order[1..]);
  }

  lemma PickAround(p: seq<Instr>, order: seq<nat>, t: nat)
    requires t < |order| && forall k: nat :: k < |order| ==> order[k] < |p|
    ensures Pick(p, order) == Pick(p, order[..t]) + [p[order[t]]] + Pick(p, order[t + 1..])
  {
  }

  lemma PickFits(loc: seq<nat>, p: seq<Instr>, order: seq<nat>, size: nat)
    requires AllFit(loc, p, size) && forall k: nat :: k < |order| ==> order[k] < |p|
    ensures AllFit(loc, Pick(p, order), size)
  {
  }

  lemma PickAppend(p: seq<Instr>, a: seq<nat>, b: seq<nat>)
    requires forall k: nat :: k < |a| ==> a[k] < |p|
    requires forall k: nat :: k < |b| ==> b[k] < |p|
    ensures forall k: nat :: k < |a + b| ==> (a + b)[k] < |p|
    ensures Pick(p, a + b) == Pick(p, a) + Pick(p, b)
  {
  }

  /** Running a list in which entry `t` is free to come first. */
  lemma PullOut(sem: Meaning, loc: seq<nat>, left: seq<Instr>, i: Instr, right: seq<Instr>, s: State)
    requires AllFit(loc, left, |s|) && AllFit(loc, right, |s|) && Fits(loc, i, |s|)
    requires forall k: nat :: k < |left| ==> !Conflict(loc, i, left[k])
    ensures AllFit(loc, left + [i] + right, |s|) && AllFit(loc, left + right, |s|)
    ensures Run(sem, loc, left + [i] + right, s) == Run(sem, loc, left + right, Exec(sem, loc, i, s))
  {
    MoveToFront(sem, loc, left, i, s);
    RunAppend(sem, loc, left + [i], right, s);
    RunAppend(sem, loc, left, right, Exec(sem, loc, i, s));
    assert ([i] + left)[1..] == left;
  }

  lemma FirstIsFree(loc: seq<nat>, p: seq<Instr>, o1: seq<nat>, o2: seq<nat>, t: nat, k: nat)
    requires DistinctIn(|p|, o1) && DistinctIn(|p|, o2)
    requires forall v :: v in o1 <==> v in o2
    requires KeepsConflictOrder(loc, p, o1, o2)
    requires o1 != [] && t < |o2| && o2[t] == o1[0] && k < t
    ensures !Conflict(loc, p[o1[0]], p[o2[k]])
  {
    assert o2[k] in o2;
    var b := FindIndex(o1, o2[k]);
    assert Before(o1, o1[0], o2[k]);
    assert Before(o2, o2[k], o2[t]);
    BeforeIsAsymmetric(|p|, o2, o2[k], o2[t]);
  }

  lemma RemovedMembers(n: nat, o: seq<nat>, t: nat, v: nat)
    requires DistinctIn(n, o) && t < |o|
    ensures DistinctIn(n, o[..t] + o[t + 1..])
    ensures v in o[..t] + o[t + 1..] <==> v in o && v != o[t]
  {
    var q := o[..t] + o[t + 1..];
    assert forall a: nat :: a < |q| ==> q[a] == o[if a < t then a else a + 1];
    if v in o && v != o[t] {
      var a := FindIndex(o, v);
      assert q[if a < t then a else a - 1] == v;
    }
  }

  lemma BeforeAt(o: seq<nat>, a: nat, b: nat)
    requires a < b < |o|
    ensures Before(o, o[a], o[b])
  {
  }

  lemma RemovedAt(o: seq<nat>, t: nat, a: nat)
    requires t < |o| && a < |o| && a != t
    ensures (o[..t] + o[t + 1..])[if a < t then a else a - 1] == o[a]
  {
  }

  lemma RemovedBefore(n: nat, o: seq<nat>, t: nat, u: nat, v: nat)
    requires DistinctIn(n, o) && t < |o|
    ensures Before(o[..t] + o[t + 1..], u, v) <==> Before(o, u, v) && u != o[t] && v != o[t]
  {
    var q := o[..t] + o[t + 1..];
    if a: nat, b: nat :| a < b < |q| && q[a] == u && q[b] == v {
      var a', b' := if a < t then a else a + 1, if b < t then b else b + 1;
      RemovedAt(o, t, a');
      RemovedAt(o, t, b');
      BeforeAt(o, a', b');
    }
    if u != o[t] && v != o[t] {
      if a: nat, b: nat :| a < b < |o| && o[a] == u && o[b] == v {
        RemovedAt(o, t, a);
        RemovedAt(o, t, b);
        BeforeAt(q, if a < t then a else a - 1, if b < t then b else b - 1);
      }
    }
  }

  lemma RemoveFirst(loc: seq<nat>, p: seq<Instr>, o1: seq<nat>, o2: seq<nat>, t: nat)
    requires DistinctIn(|p|, o1) && DistinctIn(|p|, o2)
    requires forall v :: v in o1 <==> v in o2
    requires KeepsConflictOrder(loc, p, o1, o2)
    requires o1 != [] && t < |o2| && o2[t] == o1[0]
    ensures var q := o2[..t] + o2[t + 1..];
      && DistinctIn(|p|, o1[1..]) && DistinctIn(|p|, q)
      && (forall v: nat :: v in o1[1..] <==> v in q)
      && KeepsConflictOrder(loc, p, o1[1..], q)
  {
    hide *;
    assert o1[..0] + o1[1..] == o1[1..];
    var q := o2[..t] + o2[t + 1..];
    RemovedMembers(|p|, o1, 0, 0);
    RemovedMembers(|p|, o2, t, 0);
    forall v: nat ensures v in o1[1..] <==> v in q {
      RemovedMembers(|p|, o1, 0, v);
      RemovedMembers(|p|, o2, t, v);
    }
    KeepsAfterRemoval(loc, p, o1, o2, t);
  }

  lemma KeepsAfterRemoval(loc: seq<nat>, p: seq<Instr>, o1: seq<nat>, o2: seq<nat>, t: nat)
    requires DistinctIn(|p|, o1) && DistinctIn(|p|, o2)
    requires KeepsConflictOrder(loc, p, o1, o2)
    requires o1 != [] && t < |o2| && o2[t] == o1[0]
    ensures KeepsConflictOrder(loc, p, o1[1..], o2[..t] + o2[t + 1..])
  {
    hide Before, Conflict;
    assert o1[..0] + o1[1..] == o1[1..];
    forall u: nat, v: nat {:trigger Before(o1[1..], u, v)} |
      Before(o1[1..], u, v) && u < |p| && v < |p| && Conflict(loc, p[u], p[v])
      ensures Before(o2[..t] + o2[t + 1..], u, v)
    {
      RemovedBefore(|p|, o1, 0, u, v);
      RemovedBefore(|p|, o2, t, u, v);
    }
  }

  // ----- merged instructions -----

  ghost predicate Independent(loc: seq<nat>, parts: seq<Instr>) {
    forall a: nat, b: nat :: a < b < |parts| ==> !Conflict(loc, parts[a], parts[b])
  }

  /** Instructions that do not interfere may be merged into one that reads first and writes last. */
  lemma {:induction false} MergedIsSequential(sem: Meaning, loc: seq<nat>, parts: seq<Instr>, before: State, s: State)
    requires |before| == |s| && AllFit(loc, parts, |s|) && Independent(loc, parts)
    requires forall k: nat, x: nat {:trigger Uses(loc, parts[k], x)} ::
      k < |parts| && x < |s| && Uses(loc, parts[k], x) ==> before[x] == s[x]
    ensures RunMerged(sem, loc, parts, before, s) == Run(sem, loc, parts, s)
  {
    if parts != [] {
      var i := parts[0];
      ReadFrame(loc, i, before, s);
      var s1 := Exec(sem, loc, i, s);
      forall k: nat, x: nat {:trigger Uses(loc, parts[1..][k], x)} | k < |parts[1..]| && x < |s1| && Uses(loc, parts[1..][k], x)
        ensures before[x] == s1[x]
      {
        assert parts[1..][k] == parts[k + 1];
        assert Uses(loc, parts[k + 1], x);
        assert !Conflict(loc, parts[0], parts[k + 1]);
        WriteFrame(sem, loc, i, Read(loc, i.uses, s), |i.defs|, s, x);
      }
      MergedIsSequential(sem, loc, parts[1..], before, s1);
    }
  }

  ghost function Concat(block: seq<seq<Instr>>): seq<Instr> {
    if block == [] then [] else block[0] + Concat(block[1..])
  }

  lemma {:induction false} BlockIsSequential(sem: Meaning, loc: seq<nat>, block: seq<seq<Instr>>, s: State)
    requires AllFitMerged(loc, block, |s|) && forall k: nat :: k < |block| ==> Independent(loc, block[k])
    ensures AllFit(loc, Concat(block), |s|)
    ensures RunBlock(sem, loc, block, s) == Run(sem, loc, Concat(block), s)
  {
    if block != [] {
      MergedIsSequential(sem, loc, block[0], s, s);
      var s1 := RunMerged(sem, loc, block[0], s, s);
      BlockIsSequential(sem, loc, block[1..], s1);
      RunAppend(sem, loc, block[0], Concat(block[1..]), s);
    }
  }
}
