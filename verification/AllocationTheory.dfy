/** Straight-line programs on virtual and on physical registers, as Compiler/allocator.py:151-261 takes them: when an
    assignment of physical registers keeps the meaning, and what one backward pass over a program holds. */
module AllocationTheory {
  import opened FiniteSets
  import opened RegisterPools

  /** A virtual register, scalar or whole vector; `pinned` marks the base addresses, which are never freed. */
  datatype Virtual = Virtual(regType: nat, size: nat, pinned: bool)

  datatype Instr = Instr(op: int, defs: seq<nat>, uses: seq<nat>, isCallArg: bool)

  /** How a pass ends: a second write to a register is refused, whether by the check in line 228 or by
      removing a register from its own duplicates twice in line 187. */
  datatype Outcome = Done | DoubleWrite(reg: nat) | Overflow

  type Program = seq<Instr>
  type Assignment = map<nat, nat>

  // ----- what a program computes, on virtual and on physical registers -----

  /** Element `j` of output `k` of operation `op` on the given inputs. Any function at all. */
  type Meaning = (int, seq<seq<int>>, nat, nat) -> int
  type VirtualState = nat -> seq<int>
  type PhysicalState = (nat, nat) -> int

  ghost predicate WellFormed(vars: seq<Virtual>, p: Program) {
    && (forall v: nat :: v < |vars| ==> vars[v].size > 0)
    && (forall i: nat, k: nat {:trigger p[i].defs[k]} :: i < |p| && k < |p[i].defs| ==> p[i].defs[k] < |vars|)
    && (forall i: nat, k: nat {:trigger p[i].uses[k]} :: i < |p| && k < |p[i].uses| ==> p[i].uses[k] < |vars|)
  }

  function Output(sem: Meaning, op: int, ins: seq<seq<int>>, k: nat, size: nat): (v: seq<int>)
    ensures |v| == size
  {
    seq(size, j requires 0 <= j < size => sem(op, ins, k, j))
  }

  ghost function ReadV(s: VirtualState, uses: seq<nat>): (ins: seq<seq<int>>)
    ensures |ins| == |uses|
  {
    seq(|uses|, k requires 0 <= k < |uses| => s(uses[k]))
  }

  ghost function WriteV(sem: Meaning, vars: seq<Virtual>, i: Instr, ins: seq<seq<int>>, k: nat, s: VirtualState): VirtualState
    requires k <= |i.defs| && forall l: nat :: l < |i.defs| ==> i.defs[l] < |vars|
  {
    if k == 0 then s
    else
      var t := WriteV(sem, vars, i, ins, k - 1, s);
      var d := i.defs[k - 1];
      var out := Output(sem, i.op, ins, k - 1, vars[d].size);
      (v: nat) => if v == d then out else t(v)
  }

  ghost function Block(vars: seq<Virtual>, a: Assignment, m: PhysicalState, v: nat): (s: seq<int>)
    requires v < |vars| && v in a
    ensures |s| == vars[v].size
  {
    seq(vars[v].size, j requires 0 <= j < vars[v].size => m(vars[v].regType, a[v] + j))
  }

  ghost predicate Assigned(vars: seq<Virtual>, a: Assignment, regs: seq<nat>) {
    forall k: nat :: k < |regs| ==> regs[k] < |vars| && regs[k] in a
  }

  ghost function ReadP(vars: seq<Virtual>, a: Assignment, m: PhysicalState, uses: seq<nat>): (ins: seq<seq<int>>)
    requires Assigned(vars, a, uses)
    ensures |ins| == |uses|
  {
    seq(|uses|, k requires 0 <= k < |uses| => Block(vars, a, m, uses[k]))
  }

  function Store(regType: nat, base: nat, out: seq<int>, m: PhysicalState): PhysicalState {
    (t: nat, x: nat) => if t == regType && base <= x < base + |out| then out[x - base] else m(t, x)
  }

  lemma StoreThere(vars: seq<Virtual>, a: Assignment, d: nat, out: seq<int>, m: PhysicalState)
    requires d < |vars| && d in a && |out| == vars[d].size
    ensures Block(vars, a, Store(vars[d].regType, a[d], out, m), d) == out
  {
  }

  lemma StoreElsewhere(vars: seq<Virtual>, a: Assignment, d: nat, out: seq<int>, m: PhysicalState, v: nat)
    requires d < |vars| && d in a && v < |vars| && v in a && |out| == vars[d].size && Disjoint(vars, a, d, v)
    ensures Block(vars, a, Store(vars[d].regType, a[d], out, m), v) == Block(vars, a, m, v)
  {
    assert Block(vars, a, Store(vars[d].regType, a[d], out, m), v) == Block(vars, a, m, v);
  }

  ghost function WriteP(sem: Meaning, vars: seq<Virtual>, a: Assignment, i: Instr, ins: seq<seq<int>>, k: nat, m: PhysicalState): PhysicalState
    requires k <= |i.defs| && Assigned(vars, a, i.defs)
  {
    if k == 0 then m
    else
      var t := WriteP(sem, vars, a, i, ins, k - 1, m);
      var d := i.defs[k - 1];
      Store(vars[d].regType, a[d], Output(sem, i.op, ins, k - 1, vars[d].size), t)
  }

  /** All inputs of all instructions in order, followed by the final state. */
  datatype RunV = RunV(trace: seq<seq<seq<int>>>, final: VirtualState)
  datatype RunP = RunP(trace: seq<seq<seq<int>>>, final: PhysicalState)

  ghost function ExecV(sem: Meaning, vars: seq<Virtual>, p: Program, k: nat, s: VirtualState): RunV
    requires WellFormed(vars, p) && k <= |p|
    decreases |p| - k
  {
    if k == |p| then RunV([], s)
    else
      var ins := ReadV(s, p[k].uses);
      var rest := ExecV(sem, vars, p, k + 1, WriteV(sem, vars, p[k], ins, |p[k].defs|, s));
      RunV([ins] + rest.trace, rest.final)
  }

  ghost predicate AllAssigned(vars: seq<Virtual>, p: Program, a: Assignment, k: nat) {
    forall i: nat {:trigger p[i]} :: k <= i < |p| ==> Assigned(vars, a, p[i].defs) && Assigned(vars, a, p[i].uses)
  }

  ghost function ExecP(sem: Meaning, vars: seq<Virtual>, p: Program, a: Assignment, k: nat, m: PhysicalState): RunP
    requires WellFormed(vars, p) && k <= |p| && AllAssigned(vars, p, a, k)
    decreases |p| - k
  {
    if k == |p| then RunP([], m)
    else
      var ins := ReadP(vars, a, m, p[k].uses);
      var rest := ExecP(sem, vars, p, a, k + 1, WriteP(sem, vars, a, p[k], ins, |p[k].defs|, m));
      RunP([ins] + rest.trace, rest.final)
  }

  // ----- interference -----

  ghost predicate Disjoint(vars: seq<Virtual>, a: Assignment, v: nat, w: nat)
    requires v < |vars| && w < |vars| && v in a && w in a
  {
    vars[v].regType != vars[w].regType || Apart(Run(a[v], vars[v].size), Run(a[w], vars[w].size))
  }

  ghost function Members(s: seq<nat>): (m: set<nat>)
    ensures forall v: nat :: v in m <==> v in s
  {
    set v | v in s
  }

  /** Registers whose value before instruction `k` still matters, when `end` are wanted at the end. */
  ghost function Needed(p: Program, k: nat, end: set<nat>): set<nat>
    requires k <= |p|
    decreases |p| - k
  {
    if k == |p| then end else (Needed(p, k + 1, end) - Members(p[k].defs)) + Members(p[k].uses)
  }

  /** From instruction `k` on, no write touches another register that is still needed. */
  ghost predicate NoClobber(vars: seq<Virtual>, p: Program, a: Assignment, k: nat, end: set<nat>) {
    forall i: nat :: k <= i < |p| ==> WritesApart(vars, p[i], a, Needed(p, i + 1, end))
  }

  ghost predicate WritesApart(vars: seq<Virtual>, i: Instr, a: Assignment, needed: set<nat>) {
    forall d, w :: d in i.defs && w in needed && w != d ==>
      d < |vars| && w < |vars| && d in a && w in a && Disjoint(vars, a, d, w)
  }

  lemma WritesStayApart(vars: seq<Virtual>, i: Instr, a: Assignment, b: Assignment, needed: set<nat>)
    requires WritesApart(vars, i, a, needed) && Extends(a, b)
    ensures WritesApart(vars, i, b, needed)
  {
  }

  /** Physical registers hold the values of the virtual registers in `live`. */
  ghost predicate Agree(vars: seq<Virtual>, a: Assignment, live: set<nat>, s: VirtualState, m: PhysicalState) {
    forall v :: v in live ==> v < |vars| && v in a && s(v) == Block(vars, a, m, v)
  }

  lemma ReadsAgree(vars: seq<Virtual>, a: Assignment, live: set<nat>, s: VirtualState, m: PhysicalState, uses: seq<nat>)
    requires Agree(vars, a, live, s, m) && Assigned(vars, a, uses) && Members(uses) <= live
    ensures ReadV(s, uses) == ReadP(vars, a, m, uses)
  {
    forall k: nat | k < |uses| ensures s(uses[k]) == Block(vars, a, m, uses[k]) {
      assert uses[k] in Members(uses);
    }
  }

  /** One register through the writes of one instruction. */
  lemma {:induction false} WriteAgrees(sem: Meaning, vars: seq<Virtual>, a: Assignment, i: Instr, ins: seq<seq<int>>, k: nat,
                                       s: VirtualState, m: PhysicalState, v: nat)
    requires k <= |i.defs| && Assigned(vars, a, i.defs) && v < |vars| && v in a
    requires v !in i.defs[..k] ==> s(v) == Block(vars, a, m, v)
    requires forall d :: d in i.defs && d != v ==> d < |vars| && d in a && Disjoint(vars, a, d, v)
    ensures WriteV(sem, vars, i, ins, k, s)(v) == Block(vars, a, WriteP(sem, vars, a, i, ins, k, m), v)
  {
    hide Disjoint, Block, Store, Output;
    if k > 0 {
      var d := i.defs[k - 1];
      assert i.defs[..k] == i.defs[..k - 1] + [d];
      var t := WriteP(sem, vars, a, i, ins, k - 1, m);
      var out := Output(sem, i.op, ins, k - 1, vars[d].size);
      if d != v {
        WriteAgrees(sem, vars, a, i, ins, k - 1, s, m, v);
        StoreElsewhere(vars, a, d, out, t, v);
      } else {
        StoreThere(vars, a, d, out, t);
      }
    }
  }

  /** The point of register allocation: if no write touches another register still needed, the program
      run on physical registers reads the same values everywhere and ends with the same wanted values. */
  lemma {:induction false} AllocationPreservesMeaning(sem: Meaning, vars: seq<Virtual>, p: Program, a: Assignment, k: nat, end: set<nat>,
                                                      s: VirtualState, m: PhysicalState)
    requires WellFormed(vars, p) && k <= |p| && AllAssigned(vars, p, a, k) && NoClobber(vars, p, a, k, end)
    requires forall v :: v in end ==> v < |vars| && v in a
    requires Agree(vars, a, Needed(p, k, end), s, m)
    ensures ExecV(sem, vars, p, k, s).trace == ExecP(sem, vars, p, a, k, m).trace
    ensures Agree(vars, a, end, ExecV(sem, vars, p, k, s).final, ExecP(sem, vars, p, a, k, m).final)
    decreases |p| - k
  {
    if k < |p| {
      var i := p[k];
      ReadsAgree(vars, a, Needed(p, k, end), s, m, i.uses);
      var ins := ReadV(s, i.uses);
      var s', m' := WriteV(sem, vars, i, ins, |i.defs|, s), WriteP(sem, vars, a, i, ins, |i.defs|, m);
      NeededAssigned(vars, p, a, k + 1, end);
      assert i.defs[..|i.defs|] == i.defs;
      forall v | v in Needed(p, k + 1, end) ensures s'(v) == Block(vars, a, m', v) {
        forall d | d in i.defs && d != v ensures d < |vars| && d in a && Disjoint(vars, a, d, v) {
          assert d in p[k].defs;
        }
        WriteAgrees(sem, vars, a, i, ins, |i.defs|, s, m, v);
      }
      AllocationPreservesMeaning(sem, vars, p, a, k + 1, end, s', m');
    }
  }

  lemma NeededAssigned(vars: seq<Virtual>, p: Program, a: Assignment, k: nat, end: set<nat>)
    requires k <= |p| && AllAssigned(vars, p, a, k)
    requires forall v :: v in end ==> v < |vars| && v in a
    ensures forall v :: v in Needed(p, k, end) ==> v < |vars| && v in a
    decreases |p| - k
  {
    if k < |p| {
      NeededAssigned(vars, p, a, k + 1, end);
      assert Assigned(vars, a, p[k].uses);
    }
  }

  /** From instruction `k` on, both runs read the same values everywhere and end with the same wanted ones. */
  ghost predicate SameRun(sem: Meaning, vars: seq<Virtual>, p: Program, a: Assignment, k: nat, end: set<nat>, s: VirtualState, m: PhysicalState)
    requires WellFormed(vars, p) && k <= |p| && AllAssigned(vars, p, a, k)
  {
    && ExecV(sem, vars, p, k, s).trace == ExecP(sem, vars, p, a, k, m).trace
    && Agree(vars, a, end, ExecV(sem, vars, p, k, s).final, ExecP(sem, vars, p, a, k, m).final)
  }

  ghost predicate Sized(vars: seq<Virtual>, s: VirtualState) {
    forall v: nat :: v < |vars| ==> |s(v)| == vars[v].size
  }

  /** The physical registers can hold any values of `regs` at the same time. */
  ghost predicate Loadable(vars: seq<Virtual>, a: Assignment, regs: set<nat>) {
    forall s: VirtualState :: Sized(vars, s) ==> exists m: PhysicalState :: Agree(vars, a, regs, s, m)
  }

  /** Every start on virtual registers has one on physical registers, and every run of the program on physical registers
      reads and ends with the values of the run on virtual ones. */
  ghost predicate PreservesMeaning(vars: seq<Virtual>, p: Program, a: Assignment, end: set<nat>)
    requires WellFormed(vars, p) && AllAssigned(vars, p, a, 0)
  {
    && Loadable(vars, a, Needed(p, 0, end))
    && forall sem: Meaning, s: VirtualState, m: PhysicalState :: Agree(vars, a, Needed(p, 0, end), s, m) ==> SameRun(sem, vars, p, a, 0, end, s, m)
  }

  // ----- which registers can be loaded -----

  ghost predicate PairwiseDisjoint(vars: seq<Virtual>, a: Assignment, regs: set<nat>) {
    forall v, w :: v in regs && w in regs && v != w ==> v < |vars| && w < |vars| && v in a && w in a && Disjoint(vars, a, v, w)
  }

  ghost predicate Covers(vars: seq<Virtual>, a: Assignment, v: nat, t: nat, x: nat) {
    v < |vars| && v in a && vars[v].regType == t && a[v] <= x < a[v] + vars[v].size
  }

  ghost predicate IsCovered(vars: seq<Virtual>, a: Assignment, regs: set<nat>, t: nat, x: nat) {
    exists v :: v in regs && Covers(vars, a, v, t, x)
  }

  ghost function Holder(vars: seq<Virtual>, a: Assignment, regs: set<nat>, t: nat, x: nat): (v: nat)
    requires IsCovered(vars, a, regs, t, x)
    ensures v in regs && Covers(vars, a, v, t, x)
  {
    var v :| v in regs && Covers(vars, a, v, t, x);
    v
  }

  /** The physical registers of `regs` with the values `s`, the others zero. */
  ghost function Loaded(vars: seq<Virtual>, a: Assignment, regs: set<nat>, s: VirtualState): PhysicalState
    requires Sized(vars, s)
  {
    (t: nat, x: nat) =>
      if IsCovered(vars, a, regs, t, x) then
        var v := Holder(vars, a, regs, t, x);
        s(v)[x - a[v]]
      else 0
  }

  lemma LoadedAgrees(vars: seq<Virtual>, a: Assignment, regs: set<nat>, s: VirtualState)
    requires Sized(vars, s) && PairwiseDisjoint(vars, a, regs) && forall v :: v in regs ==> v < |vars| && v in a
    ensures Agree(vars, a, regs, s, Loaded(vars, a, regs, s))
  {
    var m := Loaded(vars, a, regs, s);
    forall v | v in regs ensures s(v) == Block(vars, a, m, v) {
      forall j: nat | j < vars[v].size ensures m(vars[v].regType, a[v] + j) == s(v)[j] {
        assert Covers(vars, a, v, vars[v].regType, a[v] + j);
        var w := Holder(vars, a, regs, vars[v].regType, a[v] + j);
        assert w != v ==> Disjoint(vars, a, v, w);
      }
    }
  }

  /** Two registers that share a cell cannot hold zeros and ones. */
  lemma SharedNotLoadable(vars: seq<Virtual>, a: Assignment, regs: set<nat>, v: nat, w: nat)
    requires v in regs && w in regs && v != w && v < |vars| && w < |vars| && v in a && w in a && !Disjoint(vars, a, v, w)
    requires vars[v].size > 0 && vars[w].size > 0
    ensures !Loadable(vars, a, regs)
  {
    var s: VirtualState := (u: nat) => if u < |vars| then seq(vars[u].size, j => if u == v then 1 else 0) else [];
    assert Sized(vars, s);
    var x: nat := if a[v] < a[w] then a[w] else a[v];
    assert s(v)[x - a[v]] == 1 && s(w)[x - a[w]] == 0;
    forall m: PhysicalState ensures !Agree(vars, a, regs, s, m) {
      assert Block(vars, a, m, v)[x - a[v]] == Block(vars, a, m, w)[x - a[w]] == m(vars[v].regType, x);
    }
  }

  lemma LoadableExactly(vars: seq<Virtual>, a: Assignment, regs: set<nat>)
    requires forall v :: v in regs ==> v < |vars| && v in a && vars[v].size > 0
    ensures Loadable(vars, a, regs) <==> PairwiseDisjoint(vars, a, regs)
  {
    if PairwiseDisjoint(vars, a, regs) {
      forall s: VirtualState | Sized(vars, s) ensures exists m: PhysicalState :: Agree(vars, a, regs, s, m) {
        LoadedAgrees(vars, a, regs, s);
      }
    } else {
      var v, w :| v in regs && w in regs && v != w && !Disjoint(vars, a, v, w);
      SharedNotLoadable(vars, a, regs, v, w);
    }
  }

  lemma SameFromNext(sem: Meaning, vars: seq<Virtual>, p: Program, a: Assignment, k: nat, end: set<nat>, s: VirtualState, m: PhysicalState)
    requires WellFormed(vars, p) && k < |p| && AllAssigned(vars, p, a, k) && SameRun(sem, vars, p, a, k, end, s, m)
    ensures ReadV(s, p[k].uses) == ReadP(vars, a, m, p[k].uses)
    ensures SameRun(sem, vars, p, a, k + 1, end, WriteV(sem, vars, p[k], ReadV(s, p[k].uses), |p[k].defs|, s),
                    WriteP(sem, vars, a, p[k], ReadV(s, p[k].uses), |p[k].defs|, m))
  {
    hide ReadV, ReadP, WriteV, WriteP, Agree;
    var ins, ins' := ReadV(s, p[k].uses), ReadP(vars, a, m, p[k].uses);
    assert ExecV(sem, vars, p, k, s).trace[0] == ins && ExecP(sem, vars, p, a, k, m).trace[0] == ins';
    var s', m' := WriteV(sem, vars, p[k], ins, |p[k].defs|, s), WriteP(sem, vars, a, p[k], ins', |p[k].defs|, m);
    assert ExecV(sem, vars, p, k, s).trace[1..] == ExecV(sem, vars, p, k + 1, s').trace;
    assert ExecP(sem, vars, p, a, k, m).trace[1..] == ExecP(sem, vars, p, a, k + 1, m').trace;
  }

  // ----- the criterion is exact -----

  /** The outputs of one instruction share no physical register. */
  ghost predicate OutputsApart(vars: seq<Virtual>, i: Instr, a: Assignment) {
    forall d, e :: d in i.defs && e in i.defs && d != e ==>
      d < |vars| && e < |vars| && d in a && e in a && Disjoint(vars, a, d, e)
  }

  /** No two instructions are known to compute the same. */
  ghost predicate OwnMeanings(p: Program) {
    forall i: nat, j: nat :: i < j < |p| ==> p[i].op != p[j].op
  }

  function Zeros(n: nat): (z: seq<int>)
    ensures |z| == n && forall j: nat :: j < n ==> z[j] == 0
  {
    seq(n, j => 0)
  }

  /** Output `k` of operation `op` is all ones, every other output is zero. */
  ghost function Marking(op: int, k: nat): Meaning {
    (o: int, ins: seq<seq<int>>, l: nat, j: nat) => if o == op && l == k then 1 else 0
  }

  ghost predicate AllZero(vars: seq<Virtual>, s: VirtualState, m: PhysicalState) {
    && (forall v: nat :: v < |vars| ==> s(v) == Zeros(vars[v].size))
    && (forall t: nat, x: nat :: m(t, x) == 0)
  }

  lemma {:induction false} Untouched(sem: Meaning, vars: seq<Virtual>, i: Instr, ins: seq<seq<int>>, k: nat, s: VirtualState, v: nat)
    requires k <= |i.defs| && (forall l: nat :: l < |i.defs| ==> i.defs[l] < |vars|) && v !in i.defs
    ensures WriteV(sem, vars, i, ins, k, s)(v) == s(v)
  {
    if k > 0 {
      Untouched(sem, vars, i, ins, k - 1, s, v);
    }
  }

  /** A needed register shows: another value of it gives another input or another wanted value. */
  lemma {:induction false} NeededShows(sem: Meaning, vars: seq<Virtual>, p: Program, k: nat, end: set<nat>, s: VirtualState, t: VirtualState, w: nat)
    requires WellFormed(vars, p) && k <= |p| && w in Needed(p, k, end) && s(w) != t(w)
    ensures ExecV(sem, vars, p, k, s).trace != ExecV(sem, vars, p, k, t).trace
         || exists v :: v in end && ExecV(sem, vars, p, k, s).final(v) != ExecV(sem, vars, p, k, t).final(v)
    decreases |p| - k
  {
    if k < |p| {
      var i := p[k];
      var ins, ins' := ReadV(s, i.uses), ReadV(t, i.uses);
      if w in i.uses {
        var l: nat :| l < |i.uses| && i.uses[l] == w;
        assert ins[l] == s(w) && ins'[l] == t(w);
        assert ExecV(sem, vars, p, k, s).trace[0] == ins && ExecV(sem, vars, p, k, t).trace[0] == ins';
      } else {
        Untouched(sem, vars, i, ins, |i.defs|, s, w);
        Untouched(sem, vars, i, ins', |i.defs|, t, w);
        var s', t' := WriteV(sem, vars, i, ins, |i.defs|, s), WriteV(sem, vars, i, ins', |i.defs|, t);
        NeededShows(sem, vars, p, k + 1, end, s', t', w);
        assert ExecV(sem, vars, p, k, s).trace[1..] == ExecV(sem, vars, p, k + 1, s').trace;
        assert ExecV(sem, vars, p, k, t).trace[1..] == ExecV(sem, vars, p, k + 1, t').trace;
      }
    }
  }

  /** An instruction with another operation writes zeros over zeros. */
  lemma {:induction false} ZerosStay(vars: seq<Virtual>, a: Assignment, i: Instr, op: int, k: nat, ins: seq<seq<int>>, n: nat,
                                     s: VirtualState, m: PhysicalState)
    requires n <= |i.defs| && Assigned(vars, a, i.defs) && i.op != op && AllZero(vars, s, m)
    ensures AllZero(vars, WriteV(Marking(op, k), vars, i, ins, n, s), WriteP(Marking(op, k), vars, a, i, ins, n, m))
  {
    if n > 0 {
      ZerosStay(vars, a, i, op, k, ins, n - 1, s, m);
      var d := i.defs[n - 1];
      assert Output(Marking(op, k), i.op, ins, n - 1, vars[d].size) == Zeros(vars[d].size);
    }
  }

  /** The mark stays in the cells of the output that carries it. */
  lemma {:induction false} MarkStays(vars: seq<Virtual>, a: Assignment, i: Instr, k: nat, ins: seq<seq<int>>, n: nat, m: PhysicalState, x: nat)
    requires k < n <= |i.defs| && Assigned(vars, a, i.defs) && Distinct(i.defs) && OutputsApart(vars, i, a)
    requires a[i.defs[k]] <= x < a[i.defs[k]] + vars[i.defs[k]].size
    ensures WriteP(Marking(i.op, k), vars, a, i, ins, n, m)(vars[i.defs[k]].regType, x) == 1
  {
    if n > k + 1 {
      MarkStays(vars, a, i, k, ins, n - 1, m, x);
      assert i.defs[n - 1] in i.defs && i.defs[k] in i.defs && i.defs[n - 1] != i.defs[k];
      assert Disjoint(vars, a, i.defs[n - 1], i.defs[k]);
    }
  }

  /** What the physical registers hold, read as values of virtual ones. */
  ghost function ReadOff(vars: seq<Virtual>, a: Assignment, m: PhysicalState): VirtualState {
    (v: nat) => if v < |vars| && v in a then Block(vars, a, m, v) else []
  }

  /** At the write `k` of instruction `i`, which touches the needed register `w`, the two runs part for good. */
  ghost predicate LastClobberAt(vars: seq<Virtual>, p: Program, a: Assignment, end: set<nat>, i: nat, k: nat, w: nat) {
    && i < |p| && NoClobber(vars, p, a, i + 1, end) && k < |p[i].defs| && p[i].defs[k] < |vars| && p[i].defs[k] in a
    && Distinct(p[i].defs) && OutputsApart(vars, p[i], a)
    && w in Needed(p, i + 1, end) && w < |vars| && w in a && w !in p[i].defs && !Disjoint(vars, a, p[i].defs[k], w)
  }

  /** The physical cells of the register that is touched hold the mark, its virtual value is still zero. */
  lemma MarkIsSeen(vars: seq<Virtual>, p: Program, a: Assignment, end: set<nat>, i: nat, k: nat, w: nat,
                   ins: seq<seq<int>>, s: VirtualState, m: PhysicalState)
    requires LastClobberAt(vars, p, a, end, i, k, w) && Assigned(vars, a, p[i].defs) && AllZero(vars, s, m)
    requires vars[w].size > 0 && vars[p[i].defs[k]].size > 0
    ensures WriteV(Marking(p[i].op, k), vars, p[i], ins, |p[i].defs|, s)(w)
         != Block(vars, a, WriteP(Marking(p[i].op, k), vars, a, p[i], ins, |p[i].defs|, m), w)
  {
    hide Marking, WriteV, WriteP, NoClobber, OutputsApart;
    var instr, d := p[i], p[i].defs[k];
    var m' := WriteP(Marking(instr.op, k), vars, a, instr, ins, |instr.defs|, m);
    var x: nat := if a[d] < a[w] then a[w] else a[d];
    MarkStays(vars, a, instr, k, ins, |instr.defs|, m, x);
    Untouched(Marking(instr.op, k), vars, instr, ins, |instr.defs|, s, w);
    assert Block(vars, a, m', w)[x - a[w]] == 1 && s(w)[x - a[w]] == 0;
  }

  lemma ClobberShows(vars: seq<Virtual>, p: Program, a: Assignment, end: set<nat>, i: nat, k: nat, w: nat, s: VirtualState, m: PhysicalState)
    requires WellFormed(vars, p) && AllAssigned(vars, p, a, 0) && LastClobberAt(vars, p, a, end, i, k, w) && AllZero(vars, s, m)
    requires forall v :: v in end ==> v < |vars| && v in a
    ensures !SameRun(Marking(p[i].op, k), vars, p, a, i, end, s, m)
  {
    hide SameRun, ExecV, ExecP, ReadV, ReadP, WriteV, WriteP, AllZero, Marking, NoClobber, OutputsApart, Needed, Block, Disjoint;
    var sem := Marking(p[i].op, k);
    if SameRun(sem, vars, p, a, i, end, s, m) {
      SameFromNext(sem, vars, p, a, i, end, s, m);
      var ins := ReadV(s, p[i].uses);
      var s', m' := WriteV(sem, vars, p[i], ins, |p[i].defs|, s), WriteP(sem, vars, a, p[i], ins, |p[i].defs|, m);
      MarkIsSeen(vars, p, a, end, i, k, w, ins, s, m);
      Parted(sem, vars, p, a, i + 1, end, s', m', w);
    }
  }

  /** Without clobbering writes further on, a needed register whose cells hold another value shows. */
  lemma Parted(sem: Meaning, vars: seq<Virtual>, p: Program, a: Assignment, k: nat, end: set<nat>, s: VirtualState, m: PhysicalState, w: nat)
    requires WellFormed(vars, p) && k <= |p| && AllAssigned(vars, p, a, k) && NoClobber(vars, p, a, k, end)
    requires forall v :: v in end ==> v < |vars| && v in a
    requires w in Needed(p, k, end) && w < |vars| && w in a && s(w) != Block(vars, a, m, w)
    ensures !SameRun(sem, vars, p, a, k, end, s, m)
  {
    hide ExecV, ExecP, NoClobber, AllAssigned, WellFormed, Needed;
    var t := ReadOff(vars, a, m);
    NeededAssigned(vars, p, a, k, end);
    AllocationPreservesMeaning(sem, vars, p, a, k, end, t, m);
    NeededShows(sem, vars, p, k, end, s, t, w);
  }

  /** Up to the clobbering write all registers are zero in both runs. */
  lemma {:induction false} ClobberShowsFrom(vars: seq<Virtual>, p: Program, a: Assignment, end: set<nat>, n: nat, i: nat, k: nat, w: nat,
                                            s: VirtualState, m: PhysicalState)
    requires WellFormed(vars, p) && AllAssigned(vars, p, a, 0) && n <= i && OwnMeanings(p)
    requires LastClobberAt(vars, p, a, end, i, k, w) && AllZero(vars, s, m)
    requires forall v :: v in end ==> v < |vars| && v in a
    ensures !SameRun(Marking(p[i].op, k), vars, p, a, n, end, s, m)
    decreases i - n
  {
    hide SameRun, ExecV, ExecP, ReadV, ReadP, WriteV, WriteP, AllZero, WellFormed, Marking, NoClobber, OutputsApart;
    if n == i {
      ClobberShows(vars, p, a, end, i, k, w, s, m);
    } else if SameRun(Marking(p[i].op, k), vars, p, a, n, end, s, m) {
      var sem := Marking(p[i].op, k);
      SameFromNext(sem, vars, p, a, n, end, s, m);
      var ins := ReadV(s, p[n].uses);
      ZerosStay(vars, a, p[n], p[i].op, k, ins, |p[n].defs|, s, m);
      ClobberShowsFrom(vars, p, a, end, n + 1, i, k, w, WriteV(sem, vars, p[n], ins, |p[n].defs|, s), WriteP(sem, vars, a, p[n], ins, |p[n].defs|, m));
    }
  }

  // ----- the allocator -----

  lemma MeaningPreserved(vars: seq<Virtual>, p: Program, a: Assignment, end: set<nat>)
    requires WellFormed(vars, p) && AllAssigned(vars, p, a, 0) && NoClobber(vars, p, a, 0, end)
    requires PairwiseDisjoint(vars, a, Needed(p, 0, end))
    requires forall v :: v in end ==> v < |vars| && v in a
    ensures PreservesMeaning(vars, p, a, end)
  {
    hide Agree, NoClobber, AllAssigned, Needed, Loadable, PairwiseDisjoint;
    NeededAssigned(vars, p, a, 0, end);
    LoadableExactly(vars, a, Needed(p, 0, end));
    forall sem: Meaning, s: VirtualState, m: PhysicalState | Agree(vars, a, Needed(p, 0, end), s, m)
      ensures SameRun(sem, vars, p, a, 0, end, s, m) {
      AllocationPreservesMeaning(sem, vars, p, a, 0, end, s, m);
    }
  }

  lemma {:induction false} LastClobber(vars: seq<Virtual>, p: Program, a: Assignment, n: nat, end: set<nat>) returns (i: nat)
    requires n <= |p| && !NoClobber(vars, p, a, n, end)
    ensures n <= i < |p| && NoClobber(vars, p, a, i + 1, end) && !WritesApart(vars, p[i], a, Needed(p, i + 1, end))
    decreases |p| - n
  {
    hide WritesApart, Needed;
    if NoClobber(vars, p, a, n + 1, end) {
      i := n;
    } else {
      i := LastClobber(vars, p, a, n + 1, end);
    }
  }

  /** The criterion is exact: where no two instructions are known to compute the same, a program keeps its meaning under an
      assignment if and only if the registers needed at its start share nothing and no write touches another register still needed. */
  lemma NoClobberExactly(vars: seq<Virtual>, p: Program, a: Assignment, end: set<nat>)
    requires WellFormed(vars, p) && AllAssigned(vars, p, a, 0) && OwnMeanings(p)
    requires forall v :: v in end ==> v < |vars| && v in a
    requires forall i: nat :: i < |p| ==> Distinct(p[i].defs) && OutputsApart(vars, p[i], a)
    ensures PreservesMeaning(vars, p, a, end) <==> NoClobber(vars, p, a, 0, end) && PairwiseDisjoint(vars, a, Needed(p, 0, end))
  {
    hide NoClobber, Needed, Loadable, PairwiseDisjoint;
    NeededAssigned(vars, p, a, 0, end);
    LoadableExactly(vars, a, Needed(p, 0, end));
    if !PairwiseDisjoint(vars, a, Needed(p, 0, end)) {
    } else if NoClobber(vars, p, a, 0, end) {
      MeaningPreserved(vars, p, a, end);
    } else {
      var i := LastClobber(vars, p, a, 0, end);
      ClobberIsShown(vars, p, a, end, i);
    }
  }

  lemma ClobberIsShown(vars: seq<Virtual>, p: Program, a: Assignment, end: set<nat>, i: nat)
    requires WellFormed(vars, p) && AllAssigned(vars, p, a, 0) && OwnMeanings(p)
    requires forall v :: v in end ==> v < |vars| && v in a
    requires i < |p| && NoClobber(vars, p, a, i + 1, end) && !WritesApart(vars, p[i], a, Needed(p, i + 1, end))
    requires Distinct(p[i].defs) && OutputsApart(vars, p[i], a)
    ensures !PreservesMeaning(vars, p, a, end)
  {
    hide SameRun, NoClobber, Needed, OwnMeanings, WellFormed, Loadable;
    NeededAssigned(vars, p, a, i + 1, end);
    var d, w :| d in p[i].defs && w in Needed(p, i + 1, end) && w != d && !(d < |vars| && w < |vars| && d in a && w in a && Disjoint(vars, a, d, w));
    var k: nat :| k < |p[i].defs| && p[i].defs[k] == d;
    assert Assigned(vars, a, p[i].defs);
    var s: VirtualState, m: PhysicalState := (v: nat) => if v < |vars| then Zeros(vars[v].size) else [], (t: nat, x: nat) => 0;
    ClobberShowsFrom(vars, p, a, end, 0, i, k, w, s, m);
    NeededAssigned(vars, p, a, 0, end);
    assert Agree(vars, a, Needed(p, 0, end), s, m);
  }

  /** Which register an output names: instruction and position. */
  ghost predicate IsDef(p: Program, i: nat, k: nat, v: nat) {
    i < |p| && k < |p[i].defs| && p[i].defs[k] == v
  }

  /** From instruction `n` on, no register is written twice, nor one that was written before. */
  ghost predicate SingleAssignment(p: Program, n: nat, before: set<nat>) {
    && (forall i: nat, k: nat, v: nat :: n <= i && IsDef(p, i, k, v) ==> v !in before)
    && (forall i: nat, k: nat, j: nat, l: nat, v: nat {:trigger IsDef(p, i, k, v), IsDef(p, j, l, v)} ::
      n <= i && n <= j && IsDef(p, i, k, v) && IsDef(p, j, l, v) ==> i == j && k == l)
  }

  ghost predicate InRange(vars: seq<Virtual>, regs: seq<nat>) {
    forall v :: v in regs ==> v < |vars|
  }

  ghost predicate Extends(a: Assignment, b: Assignment) {
    forall v :: v in a ==> v in b && b[v] == a[v]
  }

  ghost function DefsFrom(p: Program, n: nat): (d: set<nat>)
    requires n <= |p|
    decreases |p| - n
  {
    if n == |p| then {} else Members(p[n].defs) + DefsFrom(p, n + 1)
  }

  lemma ExtendsSelf(a: Assignment)
    ensures Extends(a, a)
  {
  }

  lemma ExtendsTrans(a: Assignment, b: Assignment, c: Assignment)
    requires Extends(a, b) && Extends(b, c)
    ensures Extends(a, c)
  {
  }

  lemma StillAssigned(vars: seq<Virtual>, a: Assignment, b: Assignment, regs: set<nat>)
    requires Extends(a, b) && forall v :: v in regs ==> v < |vars| && v in a
    ensures forall v :: v in regs ==> v < |vars| && v in b
  {
  }

  lemma LongerIsWorse(p: Program, n: nat, before: set<nat>)
    ensures SingleAssignment(p, 0, before) ==> SingleAssignment(p, n, before)
  {
  }

  lemma InstrInRange(vars: seq<Virtual>, p: Program, n: nat)
    requires WellFormed(vars, p) && n < |p|
    ensures InRange(vars, p[n].defs) && InRange(vars, p[n].uses)
  {
  }

  lemma DefsFromAreDefs(p: Program, n: nat, v: nat)
    requires n <= |p| && v in DefsFrom(p, n)
    ensures exists i: nat, k: nat :: n <= i && IsDef(p, i, k, v)
    decreases |p| - n
  {
    if v in Members(p[n].defs) {
      var k: nat :| k < |p[n].defs| && p[n].defs[k] == v;
      assert IsDef(p, n, k, v);
    } else {
      DefsFromAreDefs(p, n + 1, v);
    }
  }

  lemma DefsInDefsFrom(p: Program, n: nat, i: nat, k: nat, v: nat)
    requires n <= i && IsDef(p, i, k, v)
    ensures v in DefsFrom(p, n)
    decreases i - n
  {
    if i > n {
      DefsInDefsFrom(p, n + 1, i, k, v);
    }
  }

  lemma SecondWrite(p: Program, n: nat, before: set<nat>, v: nat)
    requires n < |p| && v in p[n].defs && v in before + DefsFrom(p, n + 1)
    ensures !SingleAssignment(p, n, before)
  {
    var k: nat :| k < |p[n].defs| && p[n].defs[k] == v;
    assert IsDef(p, n, k, v);
    if v !in before {
      DefsFromAreDefs(p, n + 1, v);
      var i: nat, l: nat :| n + 1 <= i && IsDef(p, i, l, v);
    }
  }

  lemma RepeatedOutput(p: Program, n: nat, before: set<nat>)
    requires n < |p| && !Distinct(p[n].defs)
    ensures !SingleAssignment(p, n, before)
  {
    var k: nat, l: nat :| k < l < |p[n].defs| && p[n].defs[k] == p[n].defs[l];
    assert IsDef(p, n, k, p[n].defs[k]) && IsDef(p, n, l, p[n].defs[k]);
  }

  lemma OneMoreDefined(p: Program, n: nat, before: set<nat>)
    requires n < |p| && SingleAssignment(p, n + 1, before) && Distinct(p[n].defs)
    requires forall d :: d in p[n].defs ==> d !in before + DefsFrom(p, n + 1)
    ensures SingleAssignment(p, n, before)
  {
    forall i: nat, k: nat, v: nat | n <= i && IsDef(p, i, k, v)
      ensures v !in before && (n < i <==> v in DefsFrom(p, n + 1)) {
      if i > n {
        DefsInDefsFrom(p, n + 1, i, k, v);
      } else {
        assert v in p[n].defs;
      }
    }
  }

  lemma Unroll(p: Program, n: nat, end: set<nat>)
    requires n < |p|
    ensures Needed(p, n, end) == (Needed(p, n + 1, end) - Members(p[n].defs)) + Members(p[n].uses)
    ensures DefsFrom(p, n) == Members(p[n].defs) + DefsFrom(p, n + 1)
    ensures forall v :: (v in Members(p[n].uses) <==> v in p[n].uses) && (v in Members(p[n].defs) <==> v in p[n].defs)
  {
  }

  lemma AssignedNow(vars: seq<Virtual>, a: Assignment, regs: seq<nat>)
    requires InRange(vars, regs) && forall v :: v in regs ==> v in a
    ensures Assigned(vars, a, regs)
  {
    forall k: nat | k < |regs| ensures regs[k] < |vars| && regs[k] in a {
      assert regs[k] in regs;
    }
  }

  lemma MoreAssigned(vars: seq<Virtual>, p: Program, a: Assignment, b: Assignment, n: nat)
    requires n < |p| && AllAssigned(vars, p, a, n + 1) && Extends(a, b)
    requires InRange(vars, p[n].defs) && InRange(vars, p[n].uses)
    requires forall v :: v in p[n].defs || v in p[n].uses ==> v in b
    ensures AllAssigned(vars, p, b, n)
  {
    forall i: nat | n <= i < |p| ensures Assigned(vars, b, p[i].defs) && Assigned(vars, b, p[i].uses) {
      if i > n {
        assert Assigned(vars, a, p[i].defs) && Assigned(vars, a, p[i].uses);
      } else {
        AssignedNow(vars, b, p[n].defs);
        AssignedNow(vars, b, p[n].uses);
      }
    }
  }

  lemma MoreClobber(vars: seq<Virtual>, p: Program, a: Assignment, b: Assignment, n: nat, end: set<nat>)
    requires n < |p| && NoClobber(vars, p, a, n + 1, end) && Extends(a, b)
    requires WritesApart(vars, p[n], b, Needed(p, n + 1, end))
    ensures NoClobber(vars, p, b, n, end)
  {
    hide WritesApart, Needed, Extends;
    forall i: nat | n < i < |p| ensures WritesApart(vars, p[i], b, Needed(p, i + 1, end)) {
      WritesStayApart(vars, p[i], a, b, Needed(p, i + 1, end));
    }
  }

  // ----- what a pass holds -----

  ghost function Mentioned(i: Instr): set<nat> {
    Members(i.defs) + Members(i.uses)
  }

  /** Registers that have a run once the pass has seen the program from `n` on; `given` had one before. */
  ghost function Seen(p: Program, n: nat, given: set<nat>): set<nat>
    requires n <= |p|
    decreases |p| - n
  {
    if n == |p| then given else Seen(p, n + 1, given) + Mentioned(p[n])
  }

  /** Outputs whose run goes back to the pool. */
  ghost function Freed(vars: seq<Virtual>, i: Instr): set<nat> {
    if i.isCallArg then {} else set d | d in i.defs && d < |vars| && !vars[d].pinned
  }

  /** Registers that hold a run once the pass has seen the program from `n` on; `held` did before. */
  ghost function Taken(vars: seq<Virtual>, p: Program, n: nat, given: set<nat>, held: set<nat>): set<nat>
    requires n <= |p|
    decreases |p| - n, 1
  {
    if n == |p| then held else Busy(vars, p, n, given, held) - Freed(vars, p[n])
  }

  /** Registers that hold a run while instruction `n` is executed. */
  ghost function Busy(vars: seq<Virtual>, p: Program, n: nat, given: set<nat>, held: set<nat>): set<nat>
    requires n < |p|
    decreases |p| - n, 0
  {
    Taken(vars, p, n + 1, given, held) + (Mentioned(p[n]) - Seen(p, n + 1, given))
  }

  /** No register is read after its run went back to the pool, in the backward order of the pass: a register
      read here that had a run before still holds it, and one read at `i` is not freed by a write at `i` or later. */
  ghost predicate ReadsKept(vars: seq<Virtual>, p: Program, given: set<nat>, held: set<nat>) {
    && (forall i: nat, v: nat {:trigger v in p[i].uses} :: i < |p| && v in p[i].uses && v in given ==> v in held)
    && (forall i: nat, j: nat, v: nat {:trigger v in p[i].uses, v in p[j].defs} ::
      i <= j < |p| && v in p[i].uses && v in p[j].defs ==> v !in Freed(vars, p[j]))
  }

  lemma {:induction false} KeptUnlessFreed(vars: seq<Virtual>, p: Program, n: nat, given: set<nat>, held: set<nat>, v: nat)
    requires n <= |p| && v in Seen(p, n, given) && (v in given ==> v in held)
    requires forall j: nat {:trigger p[j]} :: n <= j < |p| ==> v !in Freed(vars, p[j])
    ensures v in Taken(vars, p, n, given, held)
    decreases |p| - n
  {
    if n < |p| && v in Seen(p, n + 1, given) {
      KeptUnlessFreed(vars, p, n + 1, given, held, v);
    }
  }

  lemma {:induction false} NeededIsTaken(vars: seq<Virtual>, p: Program, n: nat, given: set<nat>, held: set<nat>)
    requires n <= |p| && ReadsKept(vars, p, given, held)
    ensures Needed(p, n, held) <= Taken(vars, p, n, given, held)
    decreases |p| - n
  {
    if n < |p| {
      NeededIsTaken(vars, p, n + 1, given, held);
      forall v | v in p[n].uses ensures v in Taken(vars, p, n, given, held) {
        forall j: nat | n <= j < |p| ensures v !in Freed(vars, p[j]) {
          assert v in Freed(vars, p[j]) ==> v in p[j].defs;
        }
        KeptUnlessFreed(vars, p, n, given, held, v);
      }
    }
  }

  lemma {:induction false} LostStaysLost(vars: seq<Virtual>, p: Program, n: nat, m: nat, given: set<nat>, held: set<nat>, v: nat)
    requires n <= m <= |p| && v in Seen(p, m, given) && v !in Taken(vars, p, m, given, held)
    ensures v in Seen(p, n, given) && v !in Taken(vars, p, n, given, held)
    decreases m - n
  {
    if n < m {
      LostStaysLost(vars, p, n + 1, m, given, held, v);
    }
  }

  lemma {:induction false} NeededUntilWritten(p: Program, n: nat, i: nat, end: set<nat>, v: nat)
    requires n <= i < |p| && v in p[i].uses && forall j: nat {:trigger p[j]} :: n <= j < i ==> v !in p[j].defs
    ensures v in Needed(p, n, end)
    decreases i - n
  {
    if n < i {
      NeededUntilWritten(p, n + 1, i, end, v);
    }
  }

  lemma SeenFromStart(p: Program, n: nat, given: set<nat>)
    requires n <= |p|
    ensures given <= Seen(p, n, given)
    decreases |p| - n
  {
    if n < |p| {
      SeenFromStart(p, n + 1, given);
    }
  }

  /** A register that is read although its run is gone is needed at the start and not held. */
  lemma LostIsNeeded(vars: seq<Virtual>, p: Program, given: set<nat>, held: set<nat>, before: set<nat>)
    requires SingleAssignment(p, 0, before) && given - held <= before && !ReadsKept(vars, p, given, held)
    ensures exists v :: v in Needed(p, 0, held) && v !in Taken(vars, p, 0, given, held)
  {
    if i: nat, v: nat :| i < |p| && v in p[i].uses && v in given && v !in held {
      SeenFromStart(p, |p|, given);
      LostStaysLost(vars, p, 0, |p|, given, held, v);
      forall j: nat | j < i ensures v !in p[j].defs {
        NotWritten(p, j, before, v);
      }
      NeededUntilWritten(p, 0, i, held, v);
    } else {
      var i: nat, j: nat, v: nat :| i <= j < |p| && v in p[i].uses && v in p[j].defs && v in Freed(vars, p[j]);
      LostStaysLost(vars, p, 0, j, given, held, v);
      forall l: nat | l < i ensures v !in p[l].defs {
        WrittenOnce(p, l, j, before, v);
      }
      NeededUntilWritten(p, 0, i, held, v);
    }
  }

  lemma NotWritten(p: Program, j: nat, before: set<nat>, v: nat)
    requires j < |p| && SingleAssignment(p, 0, before) && v in before
    ensures v !in p[j].defs
  {
    if v in p[j].defs {
      var k: nat :| k < |p[j].defs| && p[j].defs[k] == v;
      assert IsDef(p, j, k, v);
    }
  }

  lemma WrittenOnce(p: Program, i: nat, j: nat, before: set<nat>, v: nat)
    requires i < j < |p| && SingleAssignment(p, 0, before) && v in p[j].defs
    ensures v !in p[i].defs
  {
    if v in p[i].defs {
      var k: nat :| k < |p[i].defs| && p[i].defs[k] == v;
      var l: nat :| l < |p[j].defs| && p[j].defs[l] == v;
      assert IsDef(p, i, k, v) && IsDef(p, j, l, v);
    }
  }

  /** Every register that matters at the start still holds its run at the end of the pass if and only if no
      register is read after its run went back to the pool. */
  lemma NeededIsHeldExactly(vars: seq<Virtual>, p: Program, given: set<nat>, held: set<nat>, before: set<nat>)
    requires SingleAssignment(p, 0, before) && given - held <= before
    ensures Needed(p, 0, held) <= Taken(vars, p, 0, given, held) <==> ReadsKept(vars, p, given, held)
  {
    if ReadsKept(vars, p, given, held) {
      NeededIsTaken(vars, p, 0, given, held);
    } else {
      LostIsNeeded(vars, p, given, held, before);
    }
  }

  // ----- how many runs a pass uses -----

  function Max(a: nat, b: nat): nat {
    if a < b then b else a
  }

  lemma MaxFacts()
    ensures forall a: nat, b: nat, c: nat {:trigger Max(Max(a, b), c)} :: b <= c ==> Max(Max(a, b), c) == Max(a, c)
    ensures forall a: nat, b: nat {:trigger Max(a, b)} :: b <= a ==> Max(a, b) == a
  {
  }

  /** Registers of one type and size. */
  ghost function Kind(vars: seq<Virtual>, regs: set<nat>, t: nat, s: nat): set<nat> {
    set v | v in regs && v < |vars| && vars[v].regType == t && vars[v].size == s
  }

  /** Where the runs of one type and size start. */
  ghost function Bases(vars: seq<Virtual>, a: Assignment, t: nat, s: nat): set<nat> {
    set v | v in Kind(vars, a.Keys, t, s) :: a[v]
  }

  /** Most registers of one type and size that hold a run at the same time, from instruction `n` on. */
  ghost function Peak(vars: seq<Virtual>, p: Program, n: nat, given: set<nat>, held: set<nat>, t: nat, s: nat): nat
    requires n <= |p|
    decreases |p| - n
  {
    if n == |p| then 0 else Max(|Kind(vars, Busy(vars, p, n, given, held), t, s)|, Peak(vars, p, n + 1, given, held, t, s))
  }

  ghost function SizeOf(vars: seq<Virtual>, regs: set<nat>, k: nat): nat
    requires k <= |vars|
  {
    if k == 0 then 0 else SizeOf(vars, regs, k - 1) + if k - 1 in regs then vars[k - 1].size else 0
  }

  /** Physical registers enough for a run of its own for every virtual one. */
  ghost function TotalSize(vars: seq<Virtual>): nat {
    SizeOf(vars, Below(|vars|), |vars|)
  }

  lemma SizeGrows(vars: seq<Virtual>, regs: set<nat>, v: nat, k: nat)
    requires v !in regs && v < |vars| && k <= |vars|
    ensures SizeOf(vars, regs + {v}, k) == SizeOf(vars, regs, k) + if v < k then vars[v].size else 0
  {
  }

  lemma SizeMonotone(vars: seq<Virtual>, a: set<nat>, b: set<nat>, k: nat)
    requires a <= b && k <= |vars|
    ensures SizeOf(vars, a, k) <= SizeOf(vars, b, k)
  {
  }

  lemma KindGrows(vars: seq<Virtual>, regs: set<nat>, v: nat, t: nat, s: nat)
    requires v !in regs && v < |vars|
    ensures |Kind(vars, regs + {v}, t, s)| == |Kind(vars, regs, t, s)| + if vars[v].regType == t && vars[v].size == s then 1 else 0
  {
    if vars[v].regType == t && vars[v].size == s {
      assert Kind(vars, regs + {v}, t, s) == Kind(vars, regs, t, s) + {v};
    } else {
      assert Kind(vars, regs + {v}, t, s) == Kind(vars, regs, t, s);
    }
  }

  lemma BasesGrow(vars: seq<Virtual>, a: Assignment, v: nat, b: nat, t: nat, s: nat)
    requires v !in a && v < |vars|
    ensures Bases(vars, a[v := b], t, s) == Bases(vars, a, t, s) + if vars[v].regType == t && vars[v].size == s then {b} else {}
  {
    var c := a[v := b];
    assert Kind(vars, c.Keys, t, s) == Kind(vars, a.Keys, t, s) + if vars[v].regType == t && vars[v].size == s then {v} else {};
    forall x | x in Bases(vars, a, t, s) ensures x in Bases(vars, c, t, s) {
      var u :| u in Kind(vars, a.Keys, t, s) && a[u] == x;
      assert u in Kind(vars, c.Keys, t, s) && c[u] == x;
    }
    if vars[v].regType == t && vars[v].size == s {
      assert v in Kind(vars, c.Keys, t, s) && c[v] == b;
    }
  }

  lemma BaseOf(vars: seq<Virtual>, a: Assignment, v: nat)
    requires v < |vars| && v in a
    ensures a[v] in Bases(vars, a, vars[v].regType, vars[v].size)
  {
    assert v in Kind(vars, a.Keys, vars[v].regType, vars[v].size);
  }

  /** Registers of one kind that start at different places need as many runs. */
  lemma ApartBases(vars: seq<Virtual>, a: Assignment, regs: set<nat>, t: nat, s: nat)
    requires regs <= a.Keys && forall v, w :: v in Kind(vars, regs, t, s) && w in Kind(vars, regs, t, s) && v != w ==> a[v] != a[w]
    ensures |Kind(vars, regs, t, s)| <= |Bases(vars, a, t, s)|
    ensures (forall b :: b in Bases(vars, a, t, s) ==> exists v :: v in Kind(vars, regs, t, s) && a[v] == b)
        ==> |Kind(vars, regs, t, s)| == |Bases(vars, a, t, s)|
  {
    var m := map v | v in Kind(vars, regs, t, s) :: a[v];
    assert m.Keys == Kind(vars, regs, t, s);
    OneToOneSize(m);
    assert m.Values <= Bases(vars, a, t, s) by {
      forall b | b in m.Values ensures b in Bases(vars, a, t, s) {
        var v :| v in m && m[v] == b;
        assert v in Kind(vars, a.Keys, t, s) && a[v] == b;
      }
    }
    SubsetSize(m.Values, Bases(vars, a, t, s));
    if forall b :: b in Bases(vars, a, t, s) ==> exists v :: v in Kind(vars, regs, t, s) && a[v] == b {
      forall b | b in Bases(vars, a, t, s) ensures b in m.Values {
        var v :| v in Kind(vars, regs, t, s) && a[v] == b;
        assert v in m && m[v] == b;
      }
      assert m.Values == Bases(vars, a, t, s);
    }
  }

  ghost predicate OutputsApartFrom(vars: seq<Virtual>, p: Program, a: Assignment, n: nat) {
    forall i: nat {:trigger p[i]} :: n <= i < |p| ==> OutputsApart(vars, p[i], a)
  }

  lemma MoreApart(vars: seq<Virtual>, p: Program, a: Assignment, b: Assignment, n: nat)
    requires n < |p| && OutputsApartFrom(vars, p, a, n + 1) && Extends(a, b) && OutputsApart(vars, p[n], b)
    ensures OutputsApartFrom(vars, p, b, n)
  {
    forall i: nat | n <= i < |p| ensures OutputsApart(vars, p[i], b) {
      assert i > n ==> OutputsApart(vars, p[i], a);
    }
  }

  lemma OutputsDistinct(p: Program, before: set<nat>)
    requires SingleAssignment(p, 0, before)
    ensures forall i: nat :: i < |p| ==> Distinct(p[i].defs)
  {
    forall i: nat | i < |p| ensures Distinct(p[i].defs) {
      if !Distinct(p[i].defs) {
        RepeatedOutput(p, i, before);
      }
    }
  }

  lemma BusyNow(vars: seq<Virtual>, p: Program, n: nat, given: set<nat>, held: set<nat>)
    requires n < |p|
    ensures Busy(vars, p, n, given, held) == Taken(vars, p, n + 1, given, held) + (Members(p[n].defs) + Members(p[n].uses) - Seen(p, n + 1, given))
    ensures Taken(vars, p, n, given, held) == Busy(vars, p, n, given, held) - Freed(vars, p[n])
    ensures Seen(p, n, given) == Seen(p, n + 1, given) + Members(p[n].defs) + Members(p[n].uses)
  {
  }

  lemma PeakStep(vars: seq<Virtual>, p: Program, n: nat, given: set<nat>, held: set<nat>)
    requires n < |p|
    ensures forall t, s ::
      Peak(vars, p, n, given, held, t, s) == Max(|Kind(vars, Busy(vars, p, n, given, held), t, s)|, Peak(vars, p, n + 1, given, held, t, s))
  {
  }
}
