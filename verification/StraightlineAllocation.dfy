/** Compiler/allocator.py:151-261: one backward pass gives every virtual register of a
    straight-line program its physical registers. */
module StraightlineAllocation {
  import opened AllocationTheory
  import opened FiniteSets
  import opened RegisterPools

  /** `held` and those of `regs` that are not among `given`. */
  ghost function With(given: set<nat>, held: set<nat>, regs: seq<nat>): set<nat> {
    held + (Members(regs) - given)
  }

  lemma WithOneMore(given: set<nat>, held: set<nat>, regs: seq<nat>, v: nat)
    ensures given <= With({}, given, regs) && With({}, given, regs + [v]) == With({}, given, regs) + {v}
    ensures With(given, held, regs + [v]) == if v in With({}, given, regs) then With(given, held, regs) else With(given, held, regs) + {v}
  {
  }

  lemma WithIs(given: set<nat>, held: set<nat>, regs: seq<nat>)
    ensures With({}, given, regs[..0]) == given && With(given, held, regs[..0]) == held
    ensures With({}, given, regs) == given + Members(regs) && With(given, held, regs) == held + (Members(regs) - given)
  {
  }

  ghost predicate HasRun(vars: seq<Virtual>, a: Assignment, v: nat, t: nat, run: Run) {
    v < |vars| && v in a && vars[v].regType == t && Run(a[v], vars[v].size) == run
  }

  /** Every run in use belongs to a held register. */
  ghost predicate LiveFromHeld(vars: seq<Virtual>, a: Assignment, held: set<nat>, live: set<(nat, Run)>) {
    forall t, run {:trigger (t, run) in live} :: (t, run) in live ==> exists v :: v in held && HasRun(vars, a, v, t, run)
  }

  /** Every spare run of a type was given to a register before, and every run given to one is in use or spare. */
  ghost predicate Accounted(vars: seq<Virtual>, a: Assignment, live: set<(nat, Run)>, t: nat, spare: set<Run>) {
    && (forall run :: run in spare ==> exists v :: HasRun(vars, a, v, t, run))
    && (forall v {:trigger v in a} :: v in a && v < |vars| && vars[v].regType == t ==> (t, Run(a[v], vars[v].size)) in live || Run(a[v], vars[v].size) in spare)
  }

  lemma LiveAfterAlloc(vars: seq<Virtual>, a: Assignment, held: set<nat>, live: set<(nat, Run)>, v: nat, b: nat)
    requires LiveFromHeld(vars, a, held, live) && v < |vars| && v !in a
    ensures LiveFromHeld(vars, a[v := b], held + {v}, live + {(vars[v].regType, Run(b, vars[v].size))})
  {
    var c, live' := a[v := b], live + {(vars[v].regType, Run(b, vars[v].size))};
    forall t, run | (t, run) in live' ensures exists u :: u in held + {v} && HasRun(vars, c, u, t, run) {
      if (t, run) in live {
        var u :| u in held && HasRun(vars, a, u, t, run);
        assert u in held + {v} && HasRun(vars, c, u, t, run);
      } else {
        assert v in held + {v} && HasRun(vars, c, v, t, run);
      }
    }
  }

  lemma LiveAfterFree(vars: seq<Virtual>, a: Assignment, held: set<nat>, live: set<(nat, Run)>, v: nat)
    requires LiveFromHeld(vars, a, held, live) && v < |vars| && v in a
    ensures LiveFromHeld(vars, a, held - {v}, live - {(vars[v].regType, Run(a[v], vars[v].size))})
  {
    var live' := live - {(vars[v].regType, Run(a[v], vars[v].size))};
    forall t, run | (t, run) in live' ensures exists u :: u in held - {v} && HasRun(vars, a, u, t, run) {
      var u :| u in held && HasRun(vars, a, u, t, run);
      assert u != v;
    }
  }

  lemma AccountedAfterAlloc(vars: seq<Virtual>, a: Assignment, live: set<(nat, Run)>, t: nat, spare: set<Run>, v: nat, b: nat)
    requires Accounted(vars, a, live, t, spare) && v < |vars| && v !in a
    ensures Accounted(vars, a[v := b], live + {(vars[v].regType, Run(b, vars[v].size))}, t,
                      spare - if t == vars[v].regType then {Run(b, vars[v].size)} else {})
  {
    var c := a[v := b];
    forall run | run in spare ensures exists u :: HasRun(vars, c, u, t, run) {
      var u :| HasRun(vars, a, u, t, run);
      assert HasRun(vars, c, u, t, run);
    }
  }

  lemma AccountedAfterFree(vars: seq<Virtual>, a: Assignment, live: set<(nat, Run)>, t: nat, spare: set<Run>, v: nat)
    requires Accounted(vars, a, live, t, spare) && v < |vars| && v in a
    ensures Accounted(vars, a, live - {(vars[v].regType, Run(a[v], vars[v].size))}, t,
                      spare + if t == vars[v].regType then {Run(a[v], vars[v].size)} else {})
  {
    assert HasRun(vars, a, v, vars[v].regType, Run(a[v], vars[v].size));
  }

  class StraightlineAllocator {
    const vars: seq<Virtual>
    const pool: AllocPool
    var alloc: Assignment
    var defined: set<nat>
    /** Registers whose run is taken: needed by the part of the program already seen, or never to be freed. */
    ghost var held: set<nat>

    ghost function Entry(v: nat): (nat, Run)
      requires v < |vars| && v in alloc
      reads this
    {
      (vars[v].regType, Run(alloc[v], vars[v].size))
    }

    ghost predicate HeldOk()
      reads this, pool
    {
      && (forall v :: v in held ==> v < |vars| && v in alloc && Entry(v) in pool.live)
      && (forall v, w :: v in held && w in held && v != w ==> Entry(v) != Entry(w))
    }

    ghost predicate Valid()
      reads this, pool, pool.Repr
    {
      && pool.Valid() && HeldOk()
      && (forall v: nat :: v < |vars| ==> vars[v].size > 0)
      && (forall v :: v in alloc ==> v < |vars| && (v in held || v in defined))
      && (forall v :: v in defined ==> v in alloc)
    }

    /** The pool serves this allocator alone: the runs in use are those of the held registers, the spare ones were
        given to a register before, and the physical registers are at most those asked for. */
    ghost predicate Accounts()
      reads this, pool, pool.Repr
    {
      && pool.Single()
      && LiveFromHeld(vars, alloc, held, pool.live)
      && (forall t :: Accounted(vars, alloc, pool.live, t, pool.Spare(t)))
      && (forall t :: pool.Top(t) <= SizeOf(vars, alloc.Keys, |vars|))
    }

    ghost function Runs(t: nat, s: nat): nat
      reads this
    {
      |Bases(vars, alloc, t, s)|
    }

    ghost function Held(t: nat, s: nat): nat
      reads this
    {
      |Kind(vars, held, t, s)|
    }

    constructor (vars: seq<Virtual>, pool: AllocPool)
      requires pool.Valid() && forall v: nat :: v < |vars| ==> vars[v].size > 0
      ensures Valid() && alloc == map[] && held == {} && defined == {} && this.vars == vars && this.pool == pool
      ensures pool.Single() && pool.live == {} && (forall t :: pool.Spare(t) == {} && pool.Top(t) == 0) ==> Accounts()
    {
      this.vars, this.pool := vars, pool;
      alloc, defined, held := map[], {}, {};
    }

    /** Held registers of one kind have as many runs; if no run of that kind is spare, there are no others. */
    lemma HeldRuns(t: nat, s: nat)
      requires Valid()
      ensures Held(t, s) <= Runs(t, s)
      ensures Accounts() && (forall a :: a in pool.Spare(t) ==> a.size != s) ==> Held(t, s) == Runs(t, s)
    {
      hide AllocPool.Valid, Disjoint, AllocPool.Spare, AllocPool.Single;
      forall v, w | v in Kind(vars, held, t, s) && w in Kind(vars, held, t, s) && v != w ensures alloc[v] != alloc[w] {
        assert Entry(v) != Entry(w);
      }
      if Accounts() && forall a :: a in pool.Spare(t) ==> a.size != s {
        forall b | b in Bases(vars, alloc, t, s) ensures exists v :: v in Kind(vars, held, t, s) && alloc[v] == b {
          var u :| u in Kind(vars, alloc.Keys, t, s) && alloc[u] == b;
          assert Accounted(vars, alloc, pool.live, t, pool.Spare(t));
          assert (t, Run(b, s)) in pool.live;
          var v :| v in held && HasRun(vars, alloc, v, t, Run(b, s));
          assert v in Kind(vars, held, t, s) && alloc[v] == b;
        }
      }
      ApartBases(vars, alloc, held, t, s);
    }

    /** Held registers never share a physical register. */
    lemma HeldAreDisjoint(v: nat, w: nat)
      requires Valid() && v in held && w in held && v != w
      ensures v < |vars| && w < |vars| && v in alloc && w in alloc && Disjoint(vars, alloc, v, w)
    {
      hide AllocPool.Valid;
      assert Entry(v) != Entry(w);
      if vars[v].regType == vars[w].regType {
        pool.LiveApart(vars[v].regType, Entry(v).1, Entry(w).1);
      }
    }

    lemma HeldArePairwise(regs: set<nat>)
      requires Valid() && regs <= held
      ensures PairwiseDisjoint(vars, alloc, regs)
    {
      hide AllocPool.Valid;
      forall v, w | v in regs && w in regs && v != w
        ensures v < |vars| && w < |vars| && v in alloc && w in alloc && Disjoint(vars, alloc, v, w) {
        HeldAreDisjoint(v, w);
      }
    }

    lemma HeldWritesApart(i: Instr, needed: set<nat>)
      requires Valid() && needed <= held && forall d :: d in i.defs ==> d in held
      ensures WritesApart(vars, i, alloc, needed)
    {
      hide AllocPool.Valid;
      forall d, w | d in i.defs && w in needed && w != d
        ensures d < |vars| && w < |vars| && d in alloc && w in alloc && Disjoint(vars, alloc, d, w) {
        HeldAreDisjoint(d, w);
      }
    }

    lemma HeldOutputsApart(i: Instr)
      requires Valid() && forall d :: d in i.defs ==> d in held
      ensures OutputsApart(vars, i, alloc)
    {
      hide AllocPool.Valid;
      forall d, e | d in i.defs && e in i.defs && d != e
        ensures d < |vars| && e < |vars| && d in alloc && e in alloc && Disjoint(vars, alloc, d, e) {
        HeldAreDisjoint(d, e);
      }
    }

    lemma HeldAtMostRuns()
      requires Valid()
      ensures forall t, s :: Held(t, s) <= Runs(t, s)
    {
      forall t, s ensures Held(t, s) <= Runs(t, s) {
        HeldRuns(t, s);
      }
    }

    lemma HeldGrew(before: set<nat>)
      requires before <= held
      ensures forall t, s :: |Kind(vars, before, t, s)| <= Held(t, s)
    {
      forall t, s ensures |Kind(vars, before, t, s)| <= Held(t, s) {
        SubsetSize(Kind(vars, before, t, s), Kind(vars, held, t, s));
      }
    }

    /** What the pool may answer: a spare run of the size asked for, if there is one. */
    ghost predicate CanGive(v: nat, b: nat)
      requires v < |vars| && pool.Single()
      reads this, pool, pool.Repr
    {
      && (vars[v].regType, Run(b, vars[v].size)) !in pool.live
      && (Run(b, vars[v].size) in pool.Spare(vars[v].regType) || forall a :: a in pool.Spare(vars[v].regType) ==> a.size != vars[v].size)
    }

    /** When no register is held, the run of each may be given to any other of its kind. */
    lemma AllSpare(u: nat)
      requires Valid() && Accounts() && held == {} && u in alloc
      ensures forall v: nat :: v < |vars| && vars[v].regType == vars[u].regType && vars[v].size == vars[u].size ==> CanGive(v, alloc[u])
    {
      hide AllocPool.Valid, AllocPool.Single, AllocPool.Spare;
      assert Accounted(vars, alloc, pool.live, vars[u].regType, pool.Spare(vars[u].regType));
    }

    /** A new run is needed only if all runs of its kind are held. */
    lemma OneRunMore(v: nat, b: nat, t: nat, s: nat)
      requires Valid() && Accounts() && v < |vars| && v !in alloc && CanGive(v, b)
      ensures |Bases(vars, alloc[v := b], t, s)| <= Max(Runs(t, s), |Kind(vars, held + {v}, t, s)|)
      ensures Runs(t, s) <= |Bases(vars, alloc[v := b], t, s)|
    {
      hide AllocPool.Valid, AllocPool.Single, AllocPool.Spare, AllocPool.Top, SizeOf, Bases, Kind;
      BasesGrow(vars, alloc, v, b, t, s);
      SubsetSize(Bases(vars, alloc, t, s), Bases(vars, alloc[v := b], t, s));
      if vars[v].regType == t && vars[v].size == s {
        if Run(b, s) in pool.Spare(t) {
          assert Accounted(vars, alloc, pool.live, t, pool.Spare(t));
          var u :| HasRun(vars, alloc, u, t, Run(b, s));
          BaseOf(vars, alloc, u);
        } else {
          HeldRuns(t, s);
          KindGrows(vars, held, v, t, s);
        }
      }
    }

    lemma AnyRunMore(v: nat)
      requires Valid() && Accounts() && v < |vars| && v !in alloc
      ensures forall b: nat, t: nat, s: nat {:trigger Bases(vars, alloc[v := b], t, s)} :: CanGive(v, b) ==>
        Runs(t, s) <= |Bases(vars, alloc[v := b], t, s)| <= Max(Runs(t, s), |Kind(vars, held + {v}, t, s)|)
    {
      hide Valid, AllocPool.Valid, AllocPool.Single, AllocPool.Spare, AllocPool.Top, SizeOf, Bases, Kind, CanGive, Runs, Max;
      forall b: nat, t: nat, s: nat | CanGive(v, b)
        ensures Runs(t, s) <= |Bases(vars, alloc[v := b], t, s)| <= Max(Runs(t, s), |Kind(vars, held + {v}, t, s)|) {
        OneRunMore(v, b, t, s);
      }
    }

    /** Lines 164-175, without duplicates. */
    method AllocReg(v: nat) returns (ok: bool)
      requires Valid() && v < |vars|
      modifies this, pool, pool.Repr
      ensures ok ==> Valid() && defined == old(defined) && fresh(pool.Repr - old(pool.Repr))
      ensures ok ==> held == (if v in old(alloc) then old(held) else old(held) + {v})
      ensures ok ==> alloc.Keys == old(alloc).Keys + {v} && Extends(old(alloc), alloc)
      ensures ok && old(Accounts()) ==> Accounts() && forall t, s :: Runs(t, s) == Max(old(Runs(t, s)), Held(t, s))
      ensures !ok && old(Accounts()) ==> TotalSize(vars) >= REG_MAX
    {
      hide AllocPool.Valid, AllocPool.Single, AllocPool.Spare, AllocPool.Top, SizeOf, LiveFromHeld, Accounted, Bases, Kind;
      HeldAtMostRuns();
      if v in alloc {
        return true;
      }
      if Accounts() {
        AnyRunMore(v);
      }
      var res := pool.Alloc(vars[v].regType, vars[v].size);
      if !res.Allocated? {
        if old(Accounts()) {
          SizeMonotone(vars, old(alloc).Keys, Below(|vars|), |vars|);
        }
        return false;
      }
      alloc := alloc[v := res.base];
      held := held + {v};
      if old(Accounts()) {
        assert old(CanGive(v, res.base));
        LiveAfterAlloc(vars, old(alloc), old(held), old(pool.live), v, res.base);
        forall t ensures Accounted(vars, alloc, pool.live, t, pool.Spare(t)) {
          AccountedAfterAlloc(vars, old(alloc), old(pool.live), t, old(pool.Spare(t)), v, res.base);
        }
        SizeGrows(vars, old(alloc).Keys, v, |vars|);
        assert alloc.Keys == old(alloc).Keys + {v};
      }
      HeldAtMostRuns();
      return true;
    }

    /** Lines 182-220, without duplicates. */
    method DeallocReg(v: nat, isCallArg: bool) returns (ok: bool)
      requires Valid() && v in alloc && (v in held || v in defined)
      modifies this, pool, pool.Repr
      ensures ok <==> v !in old(defined)
      ensures ok ==> Valid() && alloc == old(alloc) && defined == old(defined) + {v} && pool.Repr == old(pool.Repr)
      ensures ok ==> held == if vars[v].pinned || isCallArg then old(held) else old(held) - {v}
      ensures ok && old(Accounts()) ==> Accounts()
    {
      hide AllocPool.Valid, AllocPool.Single, AllocPool.Spare, AllocPool.Top, SizeOf, LiveFromHeld, Accounted;
      if v in defined {
        return false;
      }
      var freed := !vars[v].pinned && !isCallArg;
      if freed {
        pool.Free(vars[v].regType, Run(alloc[v], vars[v].size));
        held := held - {v};
      }
      defined := defined + {v};
      if old(Accounts()) {
        LiveAfterFree(vars, alloc, old(held), old(pool.live), v);
        forall t ensures Accounted(vars, alloc, pool.live, t, pool.Spare(t)) {
          assert old(Accounted(vars, alloc, pool.live, t, pool.Spare(t)));
          AccountedAfterFree(vars, alloc, old(pool.live), t, old(pool.Spare(t)), v);
        }
      }
      return true;
    }

    lemma GivenIsKnown(v: nat)
      requires Valid() && v in alloc
      ensures v in held || v in defined
    {
    }

    lemma DefinedIsGiven()
      requires Valid()
      ensures defined <= alloc.Keys
    {
    }

    /** Lines 226-235. */
    method AllocDefs(i: Instr) returns (r: Outcome)
      requires Valid() && InRange(vars, i.defs)
      modifies this, pool, pool.Repr
      ensures r.Done? ==> Valid() && defined == old(defined) && Extends(old(alloc), alloc) && fresh(pool.Repr - old(pool.Repr))
      ensures r.Done? ==> alloc.Keys == old(alloc).Keys + Members(i.defs) && held == old(held) + (Members(i.defs) - old(alloc).Keys)
      ensures r.Done? ==> forall d :: d in i.defs ==> d in held && d !in defined
      ensures r.Done? && old(Accounts()) ==> Accounts() && forall t, s :: Runs(t, s) == Max(old(Runs(t, s)), Held(t, s))
      ensures r.DoubleWrite? ==> r.reg in i.defs && r.reg in old(defined)
      ensures r.Overflow? && old(Accounts()) ==> TotalSize(vars) >= REG_MAX
    {
      hide Valid, AllocPool.Valid, Accounts, Runs, Kind, TotalSize, Extends, With, Max;
      HeldAtMostRuns();
      DefinedIsGiven();
      MaxFacts();
      ExtendsSelf(alloc);
      WithIs(old(alloc).Keys, old(held), i.defs);
      for k := 0 to |i.defs|
        invariant Valid() && defined == old(defined) && Extends(old(alloc), alloc) && fresh(pool.Repr - old(pool.Repr))
        invariant alloc.Keys == With({}, old(alloc).Keys, i.defs[..k]) && held == With(old(alloc).Keys, old(held), i.defs[..k])
        invariant forall d :: d in i.defs[..k] ==> d in held && d !in defined
        invariant old(Accounts()) ==> Accounts() && forall t, s :: Runs(t, s) == Max(old(Runs(t, s)), Held(t, s))
      {
        var j := i.defs[k];
        ghost var was, before := held, alloc;
        assert j in i.defs;
        assert i.defs[..k + 1] == i.defs[..k] + [j];
        WithOneMore(old(alloc).Keys, old(held), i.defs[..k], j);
        if j in alloc {
          GivenIsKnown(j);
          if j in defined {
            return DoubleWrite(j);
          }
        } else {
          var ok := AllocReg(j);
          if !ok {
            return Overflow;
          }
          HeldGrew(was);
          ExtendsTrans(old(alloc), before, alloc);
        }
      }
      assert i.defs[..|i.defs|] == i.defs;
      return Done;
    }

    /** Lines 245-246. */
    method AllocUses(i: Instr) returns (r: Outcome)
      requires Valid() && InRange(vars, i.uses)
      modifies this, pool, pool.Repr
      ensures r.Done? ==> Valid() && defined == old(defined) && Extends(old(alloc), alloc) && fresh(pool.Repr - old(pool.Repr))
      ensures r.Done? ==> alloc.Keys == old(alloc).Keys + Members(i.uses) && held == old(held) + (Members(i.uses) - old(alloc).Keys)
      ensures r.Done? && old(Accounts()) ==> Accounts() && forall t, s :: Runs(t, s) == Max(old(Runs(t, s)), Held(t, s))
      ensures r.Overflow? && old(Accounts()) ==> TotalSize(vars) >= REG_MAX
      ensures !r.DoubleWrite?
    {
      hide Valid, AllocPool.Valid, Accounts, Runs, Kind, TotalSize, Extends, With, Max;
      HeldAtMostRuns();
      MaxFacts();
      ExtendsSelf(alloc);
      WithIs(old(alloc).Keys, old(held), i.uses);
      for k := 0 to |i.uses|
        invariant Valid() && defined == old(defined) && Extends(old(alloc), alloc) && fresh(pool.Repr - old(pool.Repr))
        invariant alloc.Keys == With({}, old(alloc).Keys, i.uses[..k]) && held == With(old(alloc).Keys, old(held), i.uses[..k])
        invariant old(Accounts()) ==> Accounts() && forall t, s :: Runs(t, s) == Max(old(Runs(t, s)), Held(t, s))
      {
        var j := i.uses[k];
        ghost var was, before := held, alloc;
        assert j in i.uses;
        assert i.uses[..k + 1] == i.uses[..k] + [j];
        WithOneMore(old(alloc).Keys, old(held), i.uses[..k], j);
        var ok := AllocReg(j);
        if !ok {
          return Overflow;
        }
        HeldGrew(was);
        ExtendsTrans(old(alloc), before, alloc);
      }
      assert i.uses[..|i.uses|] == i.uses;
      return Done;
    }

    /** Lines 247-248. */
    method DeallocDefs(i: Instr) returns (r: Outcome)
      requires Valid() && forall d :: d in i.defs ==> d in held && d !in defined
      modifies this, pool, pool.Repr
      ensures r.Done? ==> Valid() && defined == old(defined) + Members(i.defs) && alloc == old(alloc) && pool.Repr == old(pool.Repr)
      ensures r.Done? ==> held == old(held) - Freed(vars, i) && Distinct(i.defs)
      ensures r.Done? && old(Accounts()) ==> Accounts()
      ensures r.DoubleWrite? ==> !Distinct(i.defs)
      ensures !r.Overflow?
    {
      hide AllocPool.Valid, Accounts;
      for k := 0 to |i.defs|
        invariant Valid() && alloc == old(alloc) && pool.Repr == old(pool.Repr)
        invariant defined == old(defined) + Members(i.defs[..k]) && Distinct(i.defs[..k])
        invariant held == old(held) - Freed(vars, i.(defs := i.defs[..k]))
        invariant old(Accounts()) ==> Accounts()
      {
        assert i.defs[..k + 1] == i.defs[..k] + [i.defs[k]];
        var ok := DeallocReg(i.defs[k], i.isCallArg);
        if !ok {
          assert i.defs[k] in i.defs[..k];
          return DoubleWrite(i.defs[k]);
        }
      }
      assert i.defs[..|i.defs|] == i.defs;
      return Done;
    }

    /** One turn of the backward loop, in a pass that started with the registers `given` and, of these, `end` held
        and `before` written. */
    method ProcessOne(p: Program, n: nat, ghost given: set<nat>, ghost end: set<nat>, ghost before: set<nat>) returns (r: Outcome)
      requires n < |p| && Valid() && WellFormed(vars, p)
      requires AllAssigned(vars, p, alloc, n + 1) && SingleAssignment(p, n + 1, before) && defined == before + DefsFrom(p, n + 1)
      requires alloc.Keys == Seen(p, n + 1, given) && held == Taken(vars, p, n + 1, given, end)
      requires OutputsApartFrom(vars, p, alloc, n + 1)
      requires ReadsKept(vars, p, given, end) ==> NoClobber(vars, p, alloc, n + 1, end)
      modifies this, pool, pool.Repr
      ensures r.Done? ==> Valid() && fresh(pool.Repr - old(pool.Repr)) && Extends(old(alloc), alloc)
      ensures r.Done? ==> AllAssigned(vars, p, alloc, n) && SingleAssignment(p, n, before) && defined == before + DefsFrom(p, n)
      ensures r.Done? ==> alloc.Keys == Seen(p, n, given) && held == Taken(vars, p, n, given, end)
      ensures r.Done? ==> OutputsApartFrom(vars, p, alloc, n)
      ensures r.Done? && ReadsKept(vars, p, given, end) ==> NoClobber(vars, p, alloc, n, end)
      ensures r.Done? && old(Accounts()) ==> Accounts() && forall t, s :: Runs(t, s) == Max(old(Runs(t, s)), |Kind(vars, Busy(vars, p, n, given, end), t, s)|)
      ensures r.DoubleWrite? ==> !SingleAssignment(p, n, before)
      ensures r.Overflow? && old(Accounts()) ==> TotalSize(vars) >= REG_MAX
    {
      hide Valid, AllocPool.Valid, Accounts, Bases, Kind, TotalSize, Peak, WellFormed, Assigned, AllAssigned, IsDef, SingleAssignment, DefsFrom,
        Needed, WritesApart, NoClobber, OutputsApart, ReadsKept, Taken, Busy, Seen, Freed, Extends, InRange, OutputsApartFrom;
      var i := p[n];
      InstrInRange(vars, p, n);
      label L0:
      r := AllocDefs(i);
      if !r.Done? {
        if r.DoubleWrite? {
          SecondWrite(p, n, before, r.reg);
        }
        return;
      }
      label L1:
      r := AllocUses(i);
      if !r.Done? {
        return;
      }
      label L2:
      HeldGrew(old@L1(held));
      ExtendsTrans(old@L0(alloc), old@L1(alloc), old@L2(alloc));
      BusyNow(vars, p, n, given, end);
      HeldOutputsApart(i);
      if ReadsKept(vars, p, given, end) {
        NeededIsTaken(vars, p, n + 1, given, end);
        HeldWritesApart(i, Needed(p, n + 1, end));
        MoreClobber(vars, p, old(alloc), alloc, n, end);
      }
      MoreAssigned(vars, p, old(alloc), alloc, n);
      MoreApart(vars, p, old(alloc), alloc, n);
      assert held == Busy(vars, p, n, given, end);
      assert old(Accounts()) ==> forall t, s :: Runs(t, s) == Max(old(Runs(t, s)), Held(t, s));
      r := DeallocDefs(i);
      if r.Done? {
        Unroll(p, n, end);
        OneMoreDefined(p, n, before);
      } else {
        RepeatedOutput(p, n, before);
      }
    }

    lemma ProgramEnd(p: Program)
      requires Valid()
      ensures forall v :: v in held ==> v < |vars| && v in alloc
      ensures DefsFrom(p, |p|) == {} && Extends(alloc, alloc) && OutputsApartFrom(vars, p, alloc, |p|)
      ensures Seen(p, |p|, alloc.Keys) == alloc.Keys && Taken(vars, p, |p|, alloc.Keys, held) == held && alloc.Keys - held <= defined
      ensures AllAssigned(vars, p, alloc, |p|) && SingleAssignment(p, |p|, defined) && NoClobber(vars, p, alloc, |p|, held)
      ensures forall t, s :: Peak(vars, p, |p|, alloc.Keys, held, t, s) == 0
    {
      hide AllocPool.Valid;
    }

    /** Lines 222-254. */
    method Process(p: Program) returns (r: Outcome)
      requires Valid() && WellFormed(vars, p)
      modifies this, pool, pool.Repr
      ensures r.Done? ==> Valid() && Extends(old(alloc), alloc) && AllAssigned(vars, p, alloc, 0)
      ensures r.Done? ==> SingleAssignment(p, 0, old(defined)) && defined == old(defined) + DefsFrom(p, 0)
      ensures r.Done? ==> (Needed(p, 0, old(held)) <= held <==> ReadsKept(vars, p, old(alloc).Keys, old(held)))
      ensures r.Done? && ReadsKept(vars, p, old(alloc).Keys, old(held)) ==> PreservesMeaning(vars, p, alloc, old(held))
      ensures r.Done? && OwnMeanings(p) ==>
        (PreservesMeaning(vars, p, alloc, old(held)) <==>
         NoClobber(vars, p, alloc, 0, old(held)) && PairwiseDisjoint(vars, alloc, Needed(p, 0, old(held))))
      ensures r.Done? && old(Accounts()) ==>
        forall t, s :: Runs(t, s) == Max(old(Runs(t, s)), Peak(vars, p, 0, old(alloc).Keys, old(held), t, s))
      ensures r.Done? ==> pool.Valid() && pool.NoneSpareAtTop()
      ensures r.DoubleWrite? ==> !SingleAssignment(p, 0, old(defined))
      ensures r.Overflow? && old(Accounts()) ==> TotalSize(vars) >= REG_MAX
    {
      hide Valid, AllocPool.Valid, Accounts, Bases, Kind, TotalSize, Peak, WellFormed, Assigned, AllAssigned, IsDef, SingleAssignment, DefsFrom,
        Needed, WritesApart, NoClobber, OutputsApart, ReadsKept, Taken, Busy, Seen, Freed, Extends, InRange, PairwiseDisjoint;
      ProgramEnd(p);
      var n: nat := |p|;
      ghost var given, end, before := alloc.Keys, held, defined;
      r := Done;
      while n > 0
        invariant n <= |p| && r.Done?
        invariant Valid() && fresh(pool.Repr - old(pool.Repr))
        invariant Extends(old(alloc), alloc) && AllAssigned(vars, p, alloc, n)
        invariant SingleAssignment(p, n, before) && defined == before + DefsFrom(p, n)
        invariant alloc.Keys == Seen(p, n, given) && held == Taken(vars, p, n, given, end)
        invariant OutputsApartFrom(vars, p, alloc, n)
        invariant ReadsKept(vars, p, given, end) ==> NoClobber(vars, p, alloc, n, end)
        invariant old(Accounts()) ==> Accounts() && forall t, s :: Runs(t, s) == Max(old(Runs(t, s)), Peak(vars, p, n, given, end, t, s))
      {
        n := n - 1;
        ghost var was := alloc;
        r := ProcessOne(p, n, given, end, before);
        if !r.Done? {
          LongerIsWorse(p, n, before);
          return;
        }
        ExtendsTrans(old(alloc), was, alloc);
        PeakStep(vars, p, n, given, end);
      }
      NeededIsHeldExactly(vars, p, given, end, before);
      StillAssigned(vars, old(alloc), alloc, end);
      if ReadsKept(vars, p, given, end) {
        HeldArePairwise(Needed(p, 0, end));
        MeaningPreserved(vars, p, alloc, end);
      }
      if OwnMeanings(p) {
        OutputsDistinct(p, before);
        NoClobberExactly(vars, p, alloc, end);
      }
      Tidy();
    }

    /** Line 254. */
    method Tidy()
      requires Valid()
      modifies pool.Repr
      ensures Valid() && pool.Valid() && pool.live == old(pool.live) && pool.NoneSpareAtTop()
    {
      hide AllocPool.Valid;
      pool.Consolidate();
    }
  }

  /** A pass over one program with a pool of its own (lines 156-162 and 222-261). It ends if and only if the program
      writes every register once, and then uses as many runs of each type and size as it holds at most at a time. */
  method Allocate(vars: seq<Virtual>, p: Program) returns (r: Outcome, a: Assignment)
    requires WellFormed(vars, p)
    ensures TotalSize(vars) < REG_MAX ==> !r.Overflow? && (r.Done? <==> SingleAssignment(p, 0, {}))
    ensures r.Done? ==> AllAssigned(vars, p, a, 0) && SingleAssignment(p, 0, {})
    ensures r.Done? && ReadsKept(vars, p, {}, {}) ==> PreservesMeaning(vars, p, a, {})
    ensures r.Done? && OwnMeanings(p) ==>
      (PreservesMeaning(vars, p, a, {}) <==> NoClobber(vars, p, a, 0, {}) && PairwiseDisjoint(vars, a, Needed(p, 0, {})))
    ensures r.Done? ==> forall t, s :: |Bases(vars, a, t, s)| == Peak(vars, p, 0, {}, {}, t, s)
  {
    hide SingleAssignment, AllAssigned, ReadsKept, PreservesMeaning, OwnMeanings, NoClobber, PairwiseDisjoint, Peak, TotalSize,
      AllocPool.Valid, Kind;
    var pool := new AllocPool();
    var allocator := new StraightlineAllocator(vars, pool);
    assert allocator.alloc.Keys == {};
    forall t, s ensures allocator.Runs(t, s) == 0 {
      NoBases(vars, t, s);
    }
    r := allocator.Process(p);
    a := allocator.alloc;
  }

  lemma NoBases(vars: seq<Virtual>, t: nat, s: nat)
    ensures Bases(vars, map[], t, s) == {}
  {
  }

  lemma TwoWrites(p: Program, i: nat, j: nat, v: nat, before: set<nat>)
    requires i < j < |p| && v in p[i].defs && v in p[j].defs
    ensures !SingleAssignment(p, 0, before)
  {
    if SingleAssignment(p, 0, before) {
      WrittenOnce(p, i, j, before, v);
    }
  }

  function WriteReadWrite(): Program {
    [Instr(0, [0], [], false), Instr(1, [1], [0], false), Instr(2, [0], [], false)]
  }

  function TwoScalars(): seq<Virtual> {
    [Virtual(0, 1, false), Virtual(0, 1, false)]
  }

  lemma TwoScalarsFit()
    ensures TotalSize(TwoScalars()) < REG_MAX
  {
    assert SizeOf(TwoScalars(), Below(2), 1) == 1;
  }

  /** A register that is written, read and written again is refused. */
  method RunWriteReadWrite() returns (r: Outcome)
    ensures r.DoubleWrite?
  {
    hide SingleAssignment, TotalSize;
    var p := WriteReadWrite();
    assert 0 in p[0].defs && 0 in p[2].defs;
    TwoWrites(p, 0, 2, 0, {});
    TwoScalarsFit();
    var a;
    r, a := Allocate(TwoScalars(), p);
  }

  /** Register 1 is written, then 0 and 1 are read, then 0 is written. */
  function ReadBeforeWrite(): Program {
    [Instr(0, [1], [], false), Instr(1, [], [0, 1], false), Instr(2, [0], [], false)]
  }

  /** The pass over this program never holds more than one register at a time. */
  lemma ReadBeforeWriteBusy(vars: seq<Virtual>)
    requires vars == TwoScalars()
    ensures Busy(vars, ReadBeforeWrite(), 2, {}, {}) == {0} && Busy(vars, ReadBeforeWrite(), 1, {}, {}) == {1}
    ensures Busy(vars, ReadBeforeWrite(), 0, {}, {}) == {1}
  {
    hide Busy, Seen;
    var p := ReadBeforeWrite();
    assert Taken(vars, p, 3, {}, {}) == {};
    hide Taken;
    assert Seen(p, 3, {}) == {} by {
      SeenAtEnd(p, {});
    }
    BusyNow(vars, p, 2, {}, {});
    assert Members(p[2].defs) == {0} && Freed(vars, p[2]) == {0};
    BusyNow(vars, p, 1, {}, {});
    assert Members(p[1].uses) == {0, 1} && Freed(vars, p[1]) == {};
    BusyNow(vars, p, 0, {}, {});
  }

  lemma SeenAtEnd(p: Program, given: set<nat>)
    ensures Seen(p, |p|, given) == given
  {
  }

  lemma ReadBeforeWritePeak(vars: seq<Virtual>)
    requires vars == TwoScalars()
    ensures Peak(vars, ReadBeforeWrite(), 0, {}, {}, 0, 1) == 1
  {
    hide Busy;
    var p := ReadBeforeWrite();
    ReadBeforeWriteBusy(vars);
    assert Kind(vars, {0}, 0, 1) == {0} && Kind(vars, {1}, 0, 1) == {1};
    assert Peak(vars, p, 3, {}, {}, 0, 1) == 0;
    assert Peak(vars, p, 2, {}, {}, 0, 1) == 1;
    assert Peak(vars, p, 1, {}, {}, 0, 1) == 1;
  }

  lemma ReadBeforeWriteReads(vars: seq<Virtual>)
    requires vars == TwoScalars()
    ensures SingleAssignment(ReadBeforeWrite(), 0, {}) && !ReadsKept(vars, ReadBeforeWrite(), {}, {})
    ensures 0 in Needed(ReadBeforeWrite(), 1, {})
  {
    var p := ReadBeforeWrite();
    assert 0 in p[1].uses && 0 in p[2].defs && 0 in Freed(vars, p[2]);
    NeededUntilWritten(p, 1, 1, {}, 0);
  }

  /** Register 0 gives its run back at its write, where the pass meets it first, and register 1 gets it although
      register 0 is still to be read: the write to register 1 is what both reads see. */
  method RunReadBeforeWrite() returns (r: Outcome, a: Assignment)
    ensures WellFormed(TwoScalars(), ReadBeforeWrite()) && !ReadsKept(TwoScalars(), ReadBeforeWrite(), {}, {})
    ensures r.Done? && AllAssigned(TwoScalars(), ReadBeforeWrite(), a, 0)
    ensures 0 in a && 1 in a && a[0] == a[1]
    ensures !PreservesMeaning(TwoScalars(), ReadBeforeWrite(), a, {})
  {
    hide SingleAssignment, ReadsKept, PreservesMeaning, Needed, Peak, TotalSize, Bases;
    var vars, p := TwoScalars(), ReadBeforeWrite();
    ReadBeforeWritePeak(vars);
    ReadBeforeWriteReads(vars);
    TwoScalarsFit();
    r, a := Allocate(vars, p);
    assert p[1].uses[0] == 0 && p[0].defs[0] == 1;
    assert Assigned(vars, a, p[1].uses) && Assigned(vars, a, p[0].defs);
    BaseOf(vars, a, 0);
    BaseOf(vars, a, 1);
    OnlyOne(Bases(vars, a, 0, 1), a[0], a[1]);
    assert 1 in p[0].defs;
    assert !WritesApart(vars, p[0], a, Needed(p, 1, {}));
  }

  lemma OnlyOne(s: set<nat>, x: nat, y: nat)
    requires |s| == 1 && x in s && y in s
    ensures x == y
  {
    if x != y {
      SubsetSize({x, y}, s);
    }
  }

  /** The condition is not necessary: nothing is written between this read and the write that freed the register. */
  method RunHarmlessRead() returns (r: Outcome, a: Assignment, ghost p: Program)
    ensures WellFormed(TwoScalars(), p) && !ReadsKept(TwoScalars(), p, {}, {})
    ensures r.Done? && AllAssigned(TwoScalars(), p, a, 0) && PreservesMeaning(TwoScalars(), p, a, {})
  {
    hide PreservesMeaning, Peak, TotalSize, Bases;
    var read, write := Instr(0, [], [0], false), Instr(1, [0], [], false);
    p := [read, write];
    TwoScalarsFit();
    assert 0 in p[0].uses && 0 in p[1].defs && 0 in Freed(TwoScalars(), p[1]);
    r, a := Allocate(TwoScalars(), [read, write]);
    assert NoClobber(TwoScalars(), p, a, 0, {}) by {
      assert Needed(p, 2, {}) == {};
      assert p[0].defs == [];
    }
  }
  /** Registers 0 and 1 are read, then 0 is written: what the pass leaves for the program above behind its first write. */
  function ReadBothThenWrite(): Program {
    ReadBeforeWrite()[1..]
  }

  lemma ReadBothThenWriteBusy(vars: seq<Virtual>)
    requires vars == TwoScalars()
    ensures Busy(vars, ReadBothThenWrite(), 1, {}, {}) == {0} && Busy(vars, ReadBothThenWrite(), 0, {}, {}) == {1}
  {
    hide Busy, Seen;
    var p := ReadBothThenWrite();
    assert p == [Instr(1, [], [0, 1], false), Instr(2, [0], [], false)];
    assert Taken(vars, p, 2, {}, {}) == {};
    hide Taken;
    SeenAtEnd(p, {});
    BusyNow(vars, p, 1, {}, {});
    assert Members(p[1].defs) == {0} && Freed(vars, p[1]) == {0};
    BusyNow(vars, p, 0, {}, {});
    assert Members(p[0].uses) == {0, 1};
  }

  lemma ReadBothThenWritePeak(vars: seq<Virtual>)
    requires vars == TwoScalars()
    ensures Peak(vars, ReadBothThenWrite(), 0, {}, {}, 0, 1) == 1
  {
    hide Busy;
    var p := ReadBothThenWrite();
    ReadBothThenWriteBusy(vars);
    KindsOfTwo(vars);
    hide Kind;
    assert Peak(vars, p, 2, {}, {}, 0, 1) == 0;
    assert Peak(vars, p, 1, {}, {}, 0, 1) == 1;
  }

  lemma KindsOfTwo(vars: seq<Virtual>)
    requires vars == TwoScalars()
    ensures Kind(vars, {0}, 0, 1) == {0} && Kind(vars, {1}, 0, 1) == {1}
  {
  }

  lemma ReadBothThenWriteReads(vars: seq<Virtual>, a: Assignment)
    requires vars == TwoScalars()
    ensures SingleAssignment(ReadBothThenWrite(), 0, {}) && OwnMeanings(ReadBothThenWrite())
    ensures NoClobber(vars, ReadBothThenWrite(), a, 0, {})
    ensures 0 in Needed(ReadBothThenWrite(), 0, {}) && 1 in Needed(ReadBothThenWrite(), 0, {})
  {
    var p := ReadBothThenWrite();
    assert Needed(p, 2, {}) == {};
    assert p[0].defs == [] && 0 in p[0].uses && 1 in p[0].uses;
  }

  /** No write clobbers anything here, but both registers that are needed at the start get the same physical register. */
  method RunSharedStart() returns (r: Outcome, a: Assignment)
    ensures WellFormed(TwoScalars(), ReadBothThenWrite()) && NoClobber(TwoScalars(), ReadBothThenWrite(), a, 0, {})
    ensures r.Done? && AllAssigned(TwoScalars(), ReadBothThenWrite(), a, 0)
    ensures 0 in a && 1 in a && a[0] == a[1]
    ensures !Loadable(TwoScalars(), a, Needed(ReadBothThenWrite(), 0, {}))
    ensures !PreservesMeaning(TwoScalars(), ReadBothThenWrite(), a, {})
  {
    hide SingleAssignment, OwnMeanings, NoClobber, Needed, Peak, TotalSize, Bases, Loadable;
    var vars, p := TwoScalars(), ReadBothThenWrite();
    ReadBothThenWritePeak(vars);
    TwoScalarsFit();
    ReadBothThenWriteReads(vars, map[]);
    r, a := Allocate(vars, p);
    ReadBothThenWriteReads(vars, a);
    assert p[0].uses[0] == 0 && p[0].uses[1] == 1;
    assert Assigned(vars, a, p[0].uses);
    BaseOf(vars, a, 0);
    BaseOf(vars, a, 1);
    OnlyOne(Bases(vars, a, 0, 1), a[0], a[1]);
    SharedNotLoadable(vars, a, Needed(p, 0, {}), 0, 1);
  }

  // ----- no condition on the program alone -----

  function ThreeScalars(): seq<Virtual> {
    [Virtual(0, 1, false), Virtual(0, 1, false), Virtual(0, 1, false)]
  }

  /** Register 1 is written, then 0 and 1 are read, then 0 and 2 are written. */
  function TwoSpareRuns(): Program {
    [Instr(0, [1], [], false), Instr(1, [], [0, 1], false), Instr(2, [0, 2], [], false)]
  }

  lemma TwoSpareRunsNeeded()
    ensures var p := TwoSpareRuns();
      Needed(p, 3, {}) == {} && Needed(p, 2, {}) == {} && Needed(p, 1, {}) == {0, 1} && Needed(p, 0, {}) == {0}
  {
    hide Needed;
    var p := TwoSpareRuns();
    NeededAtEnd(p, {});
    Unroll(p, 2, {});
    Unroll(p, 1, {});
    assert Members(p[1].uses) == {0, 1};
    Unroll(p, 0, {});
    assert Members(p[0].defs) == {1};
  }

  lemma NeededAtEnd(p: Program, end: set<nat>)
    ensures Needed(p, |p|, end) == end
  {
  }

  /** Only the first write can touch another register that is needed. */
  lemma ClobberByFirst(a: Assignment)
    requires a.Keys == {0, 1, 2}
    ensures NoClobber(ThreeScalars(), TwoSpareRuns(), a, 0, {}) <==> a[0] != a[1]
  {
    hide Needed;
    var vars, p := ThreeScalars(), TwoSpareRuns();
    TwoSpareRunsNeeded();
    assert WritesApart(vars, p[1], a, {}) && WritesApart(vars, p[2], a, {});
    assert 1 in p[0].defs;
    assert WritesApart(vars, p[0], a, {0, 1}) <==> Disjoint(vars, a, 1, 0);
  }

  lemma TwoSpareRunsAssigned(a: Assignment)
    requires a.Keys == {0, 1, 2}
    ensures AllAssigned(ThreeScalars(), TwoSpareRuns(), a, 0) && OwnMeanings(TwoSpareRuns())
  {
  }

  lemma TwoSpareRunsApart(a: Assignment)
    requires a.Keys == {0, 1, 2} && a[0] != a[2]
    ensures forall i: nat :: i < 3 ==> Distinct(TwoSpareRuns()[i].defs) && OutputsApart(ThreeScalars(), TwoSpareRuns()[i], a)
  {
    var p := TwoSpareRuns();
    assert p[0].defs == [1] && p[1].defs == [] && p[2].defs == [0, 2];
    assert OutputsApart(ThreeScalars(), p[2], a);
  }

  /** With the run of register 2 for register 1 the program keeps its meaning, with that of register 0 it does not. */
  lemma ChoiceDecides(a: Assignment)
    requires a.Keys == {0, 1, 2} && a[0] != a[2]
    ensures WellFormed(ThreeScalars(), TwoSpareRuns()) && AllAssigned(ThreeScalars(), TwoSpareRuns(), a, 0)
    ensures PreservesMeaning(ThreeScalars(), TwoSpareRuns(), a, {}) <==> a[0] != a[1]
  {
    hide PreservesMeaning, NoClobber, Needed, WellFormed, AllAssigned, OwnMeanings, OutputsApart;
    TwoSpareRunsNeeded();
    ClobberByFirst(a);
    TwoSpareRunsFit();
    TwoSpareRunsAssigned(a);
    TwoSpareRunsApart(a);
    NoClobberExactly(ThreeScalars(), TwoSpareRuns(), a, {});
  }

  lemma TwoSpareRunsFit()
    ensures WellFormed(ThreeScalars(), TwoSpareRuns())
  {
  }

  lemma ThreeScalarsFit()
    ensures TotalSize(ThreeScalars()) < REG_MAX
  {
    assert SizeOf(ThreeScalars(), Below(3), 1) == 1 && SizeOf(ThreeScalars(), Below(3), 2) == 2;
  }

  lemma TwoSpareRunsSingle()
    ensures SingleAssignment(TwoSpareRuns(), 0, {}) && SingleAssignment(TwoSpareRuns(), 1, {}) && SingleAssignment(TwoSpareRuns(), 2, {})
    ensures DefsFrom(TwoSpareRuns(), 2) == {0, 2}
  {
    var p := TwoSpareRuns();
    assert DefsFrom(p, 3) == {} && Members(p[2].defs) == {0, 2};
  }

  lemma TwoSpareRunsLate(vars: seq<Virtual>)
    requires vars == ThreeScalars()
    ensures !ReadsKept(vars, TwoSpareRuns(), {}, {})
  {
    var p := TwoSpareRuns();
    assert 0 in p[1].uses && 0 in p[2].defs && 0 in Freed(vars, p[2]);
  }

  lemma SeenOfTwoSpareRuns()
    ensures Seen(TwoSpareRuns(), 0, {}) == {0, 1, 2}
  {
    hide Seen;
    var p, vars := TwoSpareRuns(), ThreeScalars();
    TwoSpareRunsLast(vars);
    BusyNow(vars, p, 1, {}, {});
    BusyNow(vars, p, 0, {}, {});
    assert Members(p[1].uses) == {0, 1} && Members(p[0].defs) == {1};
  }

  lemma TwoSpareRunsLast(vars: seq<Virtual>)
    requires vars == ThreeScalars()
    ensures Taken(vars, TwoSpareRuns(), 2, {}, {}) == {} && Seen(TwoSpareRuns(), 2, {}) == {0, 2}
  {
    hide Busy, Seen;
    var p := TwoSpareRuns();
    assert Taken(vars, p, 3, {}, {}) == {};
    hide Taken;
    SeenAtEnd(p, {});
    BusyNow(vars, p, 2, {}, {});
    assert Members(p[2].defs) == {0, 2} && Freed(vars, p[2]) == {0, 2};
  }

  ghost predicate AfterLast(allocator: StraightlineAllocator)
    reads allocator
  {
    && allocator.alloc.Keys == {0, 2} && allocator.held == {} && allocator.defined == {0, 2}
    && OutputsApartFrom(allocator.vars, TwoSpareRuns(), allocator.alloc, 2)
  }

  /** After the last instruction of this program the pool has two spare runs and may answer with either when the pass asks
      for register 1, and one answer keeps the meaning and the other does not. */
  method RunTwoChoices() returns (allocator: StraightlineAllocator)
    ensures allocator.Valid() && allocator.Accounts() && allocator.vars == ThreeScalars() && allocator.alloc.Keys == {0, 2}
    ensures fresh(allocator) && fresh(allocator.pool) && fresh(allocator.pool.Repr) && AfterLast(allocator)
    ensures WellFormed(ThreeScalars(), TwoSpareRuns())
    ensures var a := allocator.alloc[1 := allocator.alloc[2]];
      && allocator.CanGive(1, a[1]) && AllAssigned(ThreeScalars(), TwoSpareRuns(), a, 0)
      && PreservesMeaning(ThreeScalars(), TwoSpareRuns(), a, {})
    ensures var a := allocator.alloc[1 := allocator.alloc[0]];
      && allocator.CanGive(1, a[1]) && AllAssigned(ThreeScalars(), TwoSpareRuns(), a, 0)
      && !PreservesMeaning(ThreeScalars(), TwoSpareRuns(), a, {})
  {
    hide PreservesMeaning, AllocPool.Valid, AllocPool.Single, AllocPool.Spare, AllocPool.Top, NoClobber, SizeOf, TotalSize, SingleAssignment,
      Seen, Taken, Busy, Needed, WellFormed, ReadsKept, AllAssigned, Kind, Bases, StraightlineAllocator.CanGive;
    var vars, p := ThreeScalars(), TwoSpareRuns();
    TwoSpareRunsFit();
    ThreeScalarsFit();
    TwoSpareRunsSingle();
    TwoSpareRunsLast(vars);
    var pool := new AllocPool();
    allocator := new StraightlineAllocator(vars, pool);
    assert allocator.alloc.Keys == {};
    allocator.ProgramEnd(p);
    var r := allocator.ProcessOne(p, 2, {}, {}, {});
    allocator.AllSpare(0);
    allocator.AllSpare(2);
    assert OutputsApart(vars, p[2], allocator.alloc);
    assert 0 in p[2].defs && 2 in p[2].defs;
    assert Disjoint(vars, allocator.alloc, 0, 2);
    ChoiceDecides(allocator.alloc[1 := allocator.alloc[2]]);
    ChoiceDecides(allocator.alloc[1 := allocator.alloc[0]]);
  }
  /** Whatever the pool answers, the rest of the pass goes through and gives no run to any other register. */
  method FinishTwoChoices(allocator: StraightlineAllocator)
    requires allocator.Valid() && allocator.Accounts() && allocator.vars == ThreeScalars() && AfterLast(allocator)
    modifies allocator, allocator.pool, allocator.pool.Repr
    ensures 1 in allocator.alloc && allocator.alloc == old(allocator.alloc)[1 := allocator.alloc[1]]
  {
    hide AllocPool.Valid, StraightlineAllocator.Valid, StraightlineAllocator.Accounts, NoClobber, TotalSize, Seen, Taken, Busy, Needed, ReadsKept, Freed, Kind, Bases;
    var p := TwoSpareRuns();
    TwoSpareRunsFit();
    ThreeScalarsFit();
    TwoSpareRunsSingle();
    TwoSpareRunsLast(allocator.vars);
    TwoSpareRunsLate(allocator.vars);
    var r := allocator.ProcessOne(p, 1, {}, {}, {});
    assert r.Done?;
    r := allocator.ProcessOne(p, 0, {}, {}, {});
    assert r.Done?;
    SeenOfTwoSpareRuns();
    assert allocator.alloc.Keys == {0, 1, 2};
  }
}
