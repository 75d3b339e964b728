/** Compiler/allocator.py:63-149: ranges of physical registers and the pool that hands them out. */
module RegisterPools {

  const REG_MAX: nat := 0x1_0000_0000

  /** A run of registers: where it starts and how many there are. */
  datatype Run = Run(base: nat, size: nat)

  datatype AllocResult = Allocated(base: nat) | NoRoom | RegisterOverflow

  predicate Apart(a: Run, b: Run) {
    a.base + a.size <= b.base || b.base + b.size <= a.base
  }

  /** The runs cover the registers from `lo` to `hi` exactly, none of them twice. */
  ghost predicate Tiles(runs: set<Run>, lo: nat, hi: nat) {
    && (forall a :: a in runs ==> a.size > 0 && lo <= a.base && a.base + a.size <= hi)
    && (forall a, b :: a in runs && b in runs && a != b ==> Apart(a, b))
    && (forall c: nat :: lo <= c < hi ==> Covered(runs, c))
  }

  ghost predicate Covered(runs: set<Run>, c: nat) {
    exists a :: a in runs && a.base <= c < a.base + a.size
  }

  lemma TilesExtended(runs: set<Run>, lo: nat, hi: nat, size: nat)
    requires Tiles(runs, lo, hi) && lo <= hi && size > 0
    ensures Tiles(runs + {Run(hi, size)}, lo, hi + size) && Run(hi, size) !in runs
  {
    var runs', a := runs + {Run(hi, size)}, Run(hi, size);
    forall c: nat | lo <= c < hi + size ensures Covered(runs', c) {
      if c < hi {
        assert Covered(runs, c);
        var b :| b in runs && b.base <= c < b.base + b.size;
        assert b in runs';
      } else {
        assert a in runs';
      }
    }
  }

  lemma TilesShrunk(runs: set<Run>, lo: nat, hi: nat, a: Run)
    requires Tiles(runs, lo, hi) && a in runs && a.base + a.size == hi
    ensures Tiles(runs - {a}, lo, a.base)
  {
    forall b | b in runs - {a} ensures b.base + b.size <= a.base {
      assert Apart(a, b);
    }
    forall c: nat | lo <= c < a.base ensures Covered(runs - {a}, c) {
      assert Covered(runs, c);
      var b :| b in runs && b.base <= c < b.base + b.size;
      assert b in runs - {a};
    }
  }

  class AllocRange {
    const base: nat
    ghost const regType: nat
    var top: nat
    var limit: nat
    var grow: bool
    var pool: map<nat, set<nat>>
    ghost var live: set<Run>
    ghost var pooled: set<Run>

    ghost predicate Valid()
      reads this
    {
      && base <= top <= limit
      && Tiles(live + pooled, base, top) && live !! pooled
      && (forall a :: a in pooled <==> a.size in pool && a.base in pool[a.size])
    }

    constructor (base: nat, ghost regType: nat)
      ensures Valid() && live == {} && pooled == {} && grow && this.base == top == limit == base && this.regType == regType
    {
      this.regType := regType;
      this.base, top, limit, grow := base, base, base, true;
      pool := map[];
      live, pooled := {}, {};
    }

    ghost predicate HasSpare(size: nat)
      reads this
    {
      exists a :: a in pooled && a.size == size
    }

    ghost predicate HasRoom(size: nat)
      reads this
    {
      HasSpare(size) || grow || top + size <= limit
    }

    /** Lines 71-80; an empty pool entry and a missing one are the same. */
    method Alloc(size: nat) returns (r: AllocResult)
      requires Valid() && size > 0
      modifies this
      ensures r.Allocated? ==> Valid() && live == old(live) + {Run(r.base, size)} && Run(r.base, size) !in old(live)
      ensures r.Allocated? ==> limit >= old(limit) && grow == old(grow) && (old(grow) || limit == old(limit))
      ensures r.Allocated? ==> pooled == old(pooled) - {Run(r.base, size)} && top <= old(top) + size
      ensures r.Allocated? ==> Run(r.base, size) in old(pooled) || forall a :: a in old(pooled) ==> a.size != size
      ensures r.Allocated? && old(HasSpare(size)) ==> top == old(top) && limit == old(limit)
      ensures r.Allocated? && !old(HasSpare(size)) ==>
        r.base == old(top) && top == old(top) + size && limit == if old(limit) < top then top else old(limit)
      ensures r.NoRoom? <==> !old(HasRoom(size))
      ensures r.NoRoom? ==> !old(grow) && Valid() && live == old(live) && pooled == old(pooled) && top == old(top)
      ensures r.NoRoom? ==> limit == old(limit) && grow == old(grow)
      ensures r.RegisterOverflow? <==> old(HasRoom(size) && !HasSpare(size) && top >= REG_MAX)
    {
      if size in pool && pool[size] != {} {
        var b :| b in pool[size];
        assert Run(b, size) in pooled;
        pool := pool[size := pool[size] - {b}];
        pooled := pooled - {Run(b, size)};
        live := live + {Run(b, size)};
        assert live + pooled == old(live) + old(pooled);
        return Allocated(b);
      } else if grow || top + size <= limit {
        var res := top;
        TilesExtended(live + pooled, base, top, size);
        top := top + size;
        limit := if limit < top then top else limit;
        if res >= REG_MAX {
          return RegisterOverflow;
        }
        live := live + {Run(res, size)};
        assert live + pooled == old(live) + old(pooled) + {Run(res, size)};
        return Allocated(res);
      }
      return NoRoom;
    }

    /** Lines 82-84; the first clause is the assertion of the source. */
    method Free(base': nat, size: nat)
      requires Valid() && Run(base', size) in live
      modifies this
      ensures base <= base' < top
      ensures Valid() && live == old(live) - {Run(base', size)} && limit == old(limit) && grow == old(grow)
      ensures pooled == old(pooled) + {Run(base', size)} && top == old(top)
    {
      pool := pool[size := (if size in pool then pool[size] else {}) + {base'}];
      live := live - {Run(base', size)};
      pooled := pooled + {Run(base', size)};
      assert live + pooled == old(live) + old(pooled);
    }

    method StopGrowing()
      requires Valid()
      modifies `grow
      ensures Valid() && !grow
    {
      grow := false;
    }

    /** Lines 89-104: gives back the free runs at the top. */
    method Consolidate()
      requires Valid()
      modifies this
      ensures Valid() && live == old(live) && limit == old(limit) && grow == old(grow)
      ensures pooled <= old(pooled) && top <= old(top)
      ensures NoneAtTop()
    {
      var regs := AllRuns();
      while regs != {}
        invariant Valid() && live == old(live) && limit == old(limit) && grow == old(grow)
        invariant pooled <= old(pooled) && top <= old(top)
        invariant regs == pooled
      {
        var highest := Highest(regs);
        if highest.base + highest.size != top {
          GapAtTop(live + pooled, base, top, pooled, highest);
          break;
        }
        TilesShrunk(live + pooled, base, top, highest);
        ghost var before := live + pooled;
        top := top - highest.size;
        pool := pool[highest.size := pool[highest.size] - {highest.base}];
        pooled := pooled - {highest};
        assert live + pooled == before - {highest};
        regs := regs - {highest};
      }
    }

    ghost predicate NoneAtTop()
      reads this
    {
      forall a :: a in pooled ==> a.base + a.size != top
    }

    method AllRuns() returns (regs: set<Run>)
      requires Valid()
      ensures regs == pooled
    {
      regs := set s, b | s in pool && b in pool[s] :: Run(b, s);
    }
  }

  lemma GapAtTop(runs: set<Run>, lo: nat, hi: nat, pooled: set<Run>, highest: Run)
    requires Tiles(runs, lo, hi) && pooled <= runs && highest in pooled
    requires forall b :: b in pooled ==> b.base <= highest.base
    requires highest.base + highest.size != hi
    ensures forall a :: a in pooled ==> a.base + a.size != hi
  {
    forall a | a in pooled ensures a.base + a.size != hi {
      if a != highest { assert Apart(a, highest); }
    }
  }

  method Highest(regs: set<Run>) returns (h: Run)
    requires regs != {}
    ensures h in regs && forall b :: b in regs ==> b.base <= h.base
  {
    h :| h in regs;
    var rest := regs - {h};
    while rest != {}
      invariant rest <= regs && h in regs
      invariant forall b :: b in regs && b !in rest ==> b.base <= h.base
    {
      var b :| b in rest;
      if h.base < b.base {
        h := b;
      }
      rest := rest - {b};
    }
  }

  class AllocPool {
    var ranges: map<nat, seq<AllocRange>>
    var byBase: map<(nat, nat), AllocRange>
    /** Runs handed out and not yet returned, with their register type. */
    ghost var live: set<(nat, Run)>
    ghost var Repr: set<AllocRange>

    ghost predicate Valid()
      reads this, Repr
    {
      RangesOk() && TableOk() && LiveOk() && LastsGrow()
    }

    ghost predicate LastsGrow()
      reads this, Repr
    {
      forall t {:trigger ranges[t]} :: t in ranges ==> ranges[t] != [] && (ranges[t][|ranges[t]| - 1] in Repr ==> ranges[t][|ranges[t]| - 1].grow)
    }

    ghost predicate RangesOk()
      reads this, Repr
    {
      && (forall r {:trigger r in Repr} :: r in Repr ==> r.Valid() && r.regType in ranges)
      && (forall r, q {:trigger r in Repr, q in Repr} :: r in Repr && q in Repr && r != q && r.regType == q.regType ==> InTurn(r, q) || InTurn(q, r))
    }

    ghost predicate TableOk()
      reads this, Repr
    {
      && (forall t, k: nat {:trigger ranges[t][k]} :: t in ranges && k < |ranges[t]| ==> ranges[t][k] in Repr && ranges[t][k].regType == t)
    }

    ghost predicate LiveOk()
      reads this, Repr
    {
      && (forall t, a {:trigger (t, a) in live} :: (t, a) in live ==> Handed(t, a))
      && (forall r, a {:trigger a in r.live} :: r in Repr && a in r.live ==> (r.regType, a) in live)
    }

    /** Of two ranges of one type, the earlier one ends below the later one and no longer grows. */
    static ghost predicate InTurn(r: AllocRange, q: AllocRange)
      reads r, q
    {
      r.limit <= q.base && !r.grow
    }

    ghost predicate Handed(t: nat, a: Run)
      reads this, Repr
    {
      && (t, a.base) in byBase && byBase[(t, a.base)] in Repr
      && byBase[(t, a.base)].regType == t && a in byBase[(t, a.base)].live
    }

    /** As long as no range was closed there is one range for every type that was used. */
    ghost predicate Single()
      reads this, Repr
    {
      && (forall t {:trigger ranges[t]} :: t in ranges ==> |ranges[t]| == 1 && ranges[t][0] in Repr && ranges[t][0].regType == t)
      && (forall r {:trigger r in Repr} :: r in Repr ==> r.regType in ranges && ranges[r.regType] == [r])
    }

    /** The runs of a type that wait to be handed out again. */
    ghost function Spare(t: nat): set<Run>
      requires Single()
      reads this, Repr
    {
      if t in ranges then ranges[t][0].pooled else {}
    }

    ghost function Top(t: nat): nat
      requires Single()
      reads this, Repr
    {
      if t in ranges then ranges[t][0].top else 0
    }

    constructor ()
      ensures Valid() && live == {} && Repr == {}
      ensures Single() && forall t :: Spare(t) == {} && Top(t) == 0
    {
      ranges, byBase, live, Repr := map[], map[], {}, {};
    }

    /** The entry a `defaultdict` makes on first access. */
    method Default(regType: nat)
      requires Valid()
      modifies this
      ensures Valid() && live == old(live) && fresh(Repr - old(Repr)) && old(Repr) <= Repr
      ensures regType in ranges
      ensures regType in old(ranges) ==> ranges == old(ranges) && Repr == old(Repr)
      ensures ranges == old(ranges)[regType := ranges[regType]]
      ensures regType !in old(ranges) ==> |ranges[regType]| == 1 && ranges[regType][0].limit == 0
      ensures old(Single()) ==> Single() && forall t :: Spare(t) == old(Spare(t)) && Top(t) == old(Top(t))
    {
      hide Valid;
      if regType !in ranges {
        AddFirst(regType);
      }
    }

    method AddFirst(regType: nat)
      requires Valid() && regType !in ranges
      modifies this
      ensures Valid() && live == old(live) && regType in ranges && |ranges[regType]| == 1
      ensures fresh(ranges[regType][0]) && Repr == old(Repr) + {ranges[regType][0]} && ranges == old(ranges)[regType := ranges[regType]]
      ensures ranges[regType][0].regType == regType && ranges[regType][0].limit == ranges[regType][0].top == 0 && ranges[regType][0].pooled == {}
    {
      hide Tiles, AllocRange.Valid;
      var first := new AllocRange(0, regType);
      ranges := ranges[regType := [first]];
      Repr := Repr + {first};
    }

    /** Range `k` of the type is the first that has room. */
    ghost predicate FirstRoom(regType: nat, k: nat, size: nat)
      reads this, Repr, set t, l | t in ranges && 0 <= l < |ranges[t]| :: ranges[t][l]
    {
      regType in ranges && k < |ranges[regType]| && ranges[regType][k].HasRoom(size) && forall l: nat :: l < k ==> !ranges[regType][l].HasRoom(size)
    }

    ghost predicate FromRange(regType: nat, k: nat, a: Run)
      reads this, Repr
    {
      regType in ranges && k < |ranges[regType]| && ranges[regType][k] in Repr && a in ranges[regType][k].live
    }

    method Alloc(regType: nat, size: nat) returns (r: AllocResult)
      requires Valid() && size > 0
      modifies this, Repr
      ensures r.Allocated? || r.RegisterOverflow?
      ensures r.Allocated? ==> Valid() && fresh(Repr - old(Repr))
      ensures r.Allocated? ==> live == old(live) + {(regType, Run(r.base, size))} && (regType, Run(r.base, size)) !in old(live)
      ensures r.Allocated? && old(Single()) ==> Single() && forall t :: Spare(t) == old(Spare(t)) - (if t == regType then {Run(r.base, size)} else {})
      ensures r.Allocated? && old(Single()) ==> forall t :: Top(t) <= old(Top(t)) + if t == regType then size else 0
      ensures r.Allocated? && old(Single()) ==> Run(r.base, size) in old(Spare(regType)) || forall a :: a in old(Spare(regType)) ==> a.size != size
      ensures r.RegisterOverflow? && old(Single()) ==> old(Top(regType)) >= REG_MAX
      ensures r.Allocated? ==> exists k: nat :: FromRange(regType, k, Run(r.base, size)) && (regType in old(ranges) ==> old(FirstRoom(regType, k, size)))
    {
      hide Valid;
      Default(regType);
      var rs := ranges[regType];
      for k := 0 to |rs|
        invariant regType in ranges && rs == ranges[regType] && Valid() && live == old(live)
        invariant fresh(Repr - old(Repr))
        invariant forall l: nat :: l < k ==> !rs[l].grow
        invariant k == 0 && old(Single()) ==> Single() && forall t :: Spare(t) == old(Spare(t)) && Top(t) == old(Top(t))
        invariant old(Single()) ==> |rs| == 1
        invariant regType in old(ranges) ==> rs == old(ranges)[regType] && Repr == old(Repr)
        invariant regType in old(ranges) ==> forall l: nat :: l < k && l < |old(ranges)[regType]| ==> !old(ranges[regType][l].HasRoom(size))
        invariant regType in old(ranges) ==> forall q :: q in Repr ==> q.HasRoom(size) == old(q.HasRoom(size))
      {
        RangesOf(regType, k);
        r := AllocIn(regType, rs[k], size);
        if r.Allocated? || r.RegisterOverflow? {
          assert r.Allocated? ==> FromRange(regType, k, Run(r.base, size));
          assert regType in old(ranges) ==> old(FirstRoom(regType, k, size));
          return;
        }
        RangesOf(regType, k);
      }
      LastGrows(regType);
    }

    lemma RangesOf(regType: nat, k: nat)
      requires Valid() && regType in ranges && k < |ranges[regType]|
      ensures forall l: nat :: l <= k ==> ranges[regType][l] in Repr && ranges[regType][l].regType == regType
    {
    }

    lemma LastGrows(regType: nat)
      requires Valid() && regType in ranges
      ensures ranges[regType] != [] && ranges[regType][|ranges[regType]| - 1].grow
    {
    }

    /** One turn of the loop in lines 113-117. */
    method AllocIn(regType: nat, range: AllocRange, size: nat) returns (r: AllocResult)
      requires Valid() && range in Repr && range.regType == regType && size > 0
      modifies this, range
      ensures ranges == old(ranges) && Repr == old(Repr)
      ensures r.Allocated? ==> Valid() && live == old(live) + {(regType, Run(r.base, size))} && (regType, Run(r.base, size)) !in old(live)
      ensures r.NoRoom? ==> Valid() && live == old(live) && !range.grow && forall q :: q in Repr ==> q.grow == old(q.grow)
      ensures r.NoRoom? <==> !old(range.HasRoom(size))
      ensures r.NoRoom? ==> forall q :: q in Repr ==> q.HasRoom(size) == old(q.HasRoom(size))
      ensures r.Allocated? ==> Run(r.base, size) in range.live
      ensures r.Allocated? ==> range.pooled == old(range.pooled) - {Run(r.base, size)} && range.top <= old(range.top) + size
      ensures r.Allocated? ==> Run(r.base, size) in old(range.pooled) || forall a :: a in old(range.pooled) ==> a.size != size
      ensures r.RegisterOverflow? ==> old(range.top) >= REG_MAX
    {
      hide Tiles, AllocRange.Valid;
      r := range.Alloc(size);
      if r.RegisterOverflow? {
        return;
      }
      assert RangesOk() && TableOk() && LastsGrow();
      if r.Allocated? {
        Record(regType, range, Run(r.base, size));
      } else {
        assert forall t, a: Run {:trigger (t, a) in live} :: (t, a) in live ==> old(Handed(t, a));
      }
    }

    /** Line 116. */
    method Record(regType: nat, range: AllocRange, a: Run)
      requires RangesOk() && TableOk() && LastsGrow() && range in Repr && range.regType == regType && a in range.live
      requires forall t, b: Run {:trigger (t, b) in live} :: (t, b) in live ==> Handed(t, b) && (range == byBase[(t, b.base)] ==> b != a)
      requires forall q, b {:trigger b in q.live} :: q in Repr && b in q.live ==> (q.regType, b) in live || (q == range && b == a)
      modifies this
      ensures Valid() && ranges == old(ranges) && Repr == old(Repr)
      ensures live == old(live) + {(regType, a)} && (regType, a) !in old(live)
    {
      hide Tiles, AllocRange.Valid;
      forall b: Run | (regType, b) in live ensures b.base != a.base {
        assert Handed(regType, b);
        NewIsApart(range, a, byBase[(regType, b.base)], b);
      }
      byBase := byBase[(regType, a.base) := range];
      live := live + {(regType, a)};
      assert RangesOk() && TableOk() && LastsGrow();
    }

    /** A run just taken from a range starts elsewhere than any other live run of its type. */
    static lemma NewIsApart(range: AllocRange, a: Run, q: AllocRange, b: Run)
      requires range.Valid() && q.Valid() && a in range.live && b in q.live && (q == range ==> a != b)
      requires q != range ==> q.limit <= range.base || range.limit <= q.base
      ensures Apart(a, b) && a.base != b.base
    {
      assert a in range.live + range.pooled && b in q.live + q.pooled;
    }

    static lemma RunInOneRange(r: AllocRange, a: Run, q: AllocRange)
      requires r.Valid() && q.Valid() && a in r.live && (q.limit <= r.base || r.limit <= q.base)
      ensures a !in q.live
    {
      LiveInside(r);
      LiveInside(q);
    }

    static lemma LiveInside(r: AllocRange)
      requires r.Valid()
      ensures forall a :: a in r.live ==> a.size > 0 && r.base <= a.base && a.base + a.size <= r.limit
    {
      assert forall a :: a in r.live ==> a in r.live + r.pooled;
    }

    /** Lines 119-122: what was handed out from this pool goes back to the range it came from. */
    method Free(regType: nat, a: Run)
      requires Valid() && (regType, a) in live
      modifies this, Repr
      ensures Valid() && Repr == old(Repr)
      ensures live == old(live) - {(regType, a)}
      ensures old(Single()) ==> Single() && forall t :: Spare(t) == old(Spare(t)) + (if t == regType then {a} else {}) && Top(t) == old(Top(t))
    {
      hide Valid;
      LiveIsHanded(regType, a);
      FreeIn(regType, a, byBase[(regType, a.base)]);
    }

    lemma LiveIsHanded(regType: nat, a: Run)
      requires Valid() && (regType, a) in live
      ensures Handed(regType, a)
    {
    }

    lemma OnlyHere(regType: nat, a: Run, r: AllocRange)
      requires Valid() && (regType, a) in live && Handed(regType, a) && r == byBase[(regType, a.base)]
      ensures forall b: Run :: (regType, b) in live && b != a ==> b.base != a.base
      ensures forall q :: q in Repr && q != r && q.regType == regType ==> a !in q.live
    {
      hide Tiles, AllocRange.Valid;
      forall b: Run | (regType, b) in live && b != a ensures b.base != a.base {
        LiveApart(regType, a, b);
      }
      forall q | q in Repr && q != r && q.regType == regType ensures a !in q.live {
        RunInOneRange(r, a, q);
      }
    }

    method FreeIn(regType: nat, a: Run, r: AllocRange)
      requires Valid() && (regType, a) in live && Handed(regType, a) && r == byBase[(regType, a.base)]
      modifies this, r
      ensures Valid() && Repr == old(Repr) && ranges == old(ranges)
      ensures live == old(live) - {(regType, a)}
      ensures r.pooled == old(r.pooled) + {a} && r.top == old(r.top)
    {
      hide Tiles, AllocRange.Valid;
      OnlyHere(regType, a, r);
      assert r in Repr;
      byBase := byBase - {(regType, a.base)};
      r.Free(a.base, a.size);
      live := live - {(regType, a)};
      assert LiveOk() by {
        forall t, b: Run | (t, b) in live ensures Handed(t, b) {
          assert old(Handed(t, b));
        }
        forall q, b | q in Repr && b in q.live ensures (q.regType, b) in live {
          assert b in old(q.live);
        }
      }
    }

    /** Two runs of one type that are handed out at the same time have no register in common. */
    lemma LiveApart(regType: nat, a: Run, b: Run)
      requires Valid() && (regType, a) in live && (regType, b) in live && a != b
      ensures Apart(a, b) && a.base != b.base
    {
      assert Handed(regType, a) && Handed(regType, b);
      NewIsApart(byBase[(regType, a.base)], a, byBase[(regType, b.base)], b);
    }

    /** Lines 132-138, for one register type: registers below `n` were used elsewhere, so new ones come from above. */
    method NewRange(regType: nat, n: nat)
      requires Valid()
      requires regType in ranges ==> ranges[regType] != [] && n >= ranges[regType][|ranges[regType]| - 1].limit
      modifies this, Repr
      ensures Valid() && live == old(live) && fresh(Repr - old(Repr))
      ensures regType in ranges && ranges[regType] != [] && n <= ranges[regType][|ranges[regType]| - 1].limit
      ensures regType in old(ranges) ==>
        ranges == (if old(ranges[regType][|ranges[regType]| - 1].limit) < n then Opened(old(ranges), regType) else old(ranges))
      ensures regType !in old(ranges) ==> |ranges[regType]| == (if 0 < n then 2 else 1) && ranges == old(ranges)[regType := ranges[regType]]
      ensures regType !in old(ranges) || old(ranges[regType][|ranges[regType]| - 1].limit) < n ==> 0 < n ==> OpensAt(regType, n)
    {
      hide Valid;
      Default(regType);
      var rs := ranges[regType];
      LastGrows(regType);
      var r := rs[|rs| - 1];
      if r.limit < n {
        Append(regType, n);
      }
    }

    static lemma BaseBelowLimit(r: AllocRange)
      requires r.Valid()
      ensures r.base <= r.limit
    {
    }

    /** One range more for the type. */
    ghost function Opened(before: map<nat, seq<AllocRange>>, regType: nat): map<nat, seq<AllocRange>>
      requires regType in before
      reads this
    {
      if regType in ranges && ranges[regType] != [] then before[regType := before[regType] + [ranges[regType][|ranges[regType]| - 1]]] else before
    }

    /** The last range of the type is empty, starts at `n` and grows. */
    ghost predicate OpensAt(regType: nat, n: nat)
      reads this, Repr
    {
      && regType in ranges && ranges[regType] != []
      && var r := ranges[regType][|ranges[regType]| - 1];
      r in Repr && r.base == r.top == r.limit == n && r.grow && r.live == {} && r.pooled == {}
    }

    method Append(regType: nat, n: nat)
      requires Valid() && regType in ranges && ranges[regType] != [] && ranges[regType][|ranges[regType]| - 1].limit < n
      modifies this, Repr
      ensures Valid() && live == old(live) && fresh(Repr - old(Repr))
      ensures ranges == Opened(old(ranges), regType) && OpensAt(regType, n)
      ensures regType in ranges && ranges[regType] != [] && n <= ranges[regType][|ranges[regType]| - 1].limit
    {
      hide *;
      LastGrows(regType);
      StopLast(regType, n);
      AddNext(regType, n);
    }

    /** No range of this type grows any more, and none of them reaches `n`. */
    ghost predicate Stopped(regType: nat, n: nat)
      reads this, Repr
    {
      && RangesOk() && TableOk() && LiveOk()
      && (forall t {:trigger ranges[t]} :: t in ranges && t != regType ==> ranges[t] != [] && (ranges[t][|ranges[t]| - 1] in Repr ==> ranges[t][|ranges[t]| - 1].grow))
      && (forall q :: q in Repr && q.regType == regType ==> q.limit <= n && !q.grow)
    }

    method StopLast(regType: nat, n: nat)
      requires Valid() && regType in ranges && ranges[regType] != [] && ranges[regType][|ranges[regType]| - 1].limit < n
      modifies Repr
      ensures Stopped(regType, n) && ranges == old(ranges) && live == old(live) && Repr == old(Repr)
    {
      hide Tiles, AllocRange.Valid;
      var rs := ranges[regType];
      var r := rs[|rs| - 1];
      assert r in Repr && r.regType == regType;
      BaseBelowLimit(r);
      r.StopGrowing();
      forall q | q in Repr && q.regType == regType ensures q.limit <= n && !q.grow {
        assert q != r ==> old(InTurn(q, r));
      }
      forall t, a: Run | (t, a) in live ensures Handed(t, a) {
        assert old(Handed(t, a));
      }
      forall t | t in ranges && t != regType && ranges[t][|ranges[t]| - 1] in Repr ensures ranges[t][|ranges[t]| - 1].grow {
        assert ranges[t][|ranges[t]| - 1] != r;
      }
    }

    method AddNext(regType: nat, n: nat)
      requires Stopped(regType, n) && regType in ranges
      modifies this
      ensures Valid() && live == old(live) && fresh(Repr - old(Repr))
      ensures ranges == Opened(old(ranges), regType) && OpensAt(regType, n)
      ensures regType in ranges && ranges[regType] != [] && n <= ranges[regType][|ranges[regType]| - 1].limit
    {
      hide Tiles, AllocRange.Valid;
      var next := new AllocRange(n, regType);
      ghost var rs := ranges[regType];
      ranges := ranges[regType := ranges[regType] + [next]];
      Repr := Repr + {next};
      assert RangesOk();
      forall t, k: nat {:trigger ranges[t][k]} | t in ranges && k < |ranges[t]| ensures ranges[t][k] in Repr && ranges[t][k].regType == t {
        assert t != regType || k < |rs| ==> ranges[t][k] == old(ranges)[t][k];
      }
      forall t, a: Run | (t, a) in live ensures Handed(t, a) {
        assert old(Handed(t, a));
      }
    }

    method ConsolidateOne(r: AllocRange)
      requires Valid() && r in Repr
      modifies r
      ensures Valid() && live == old(live) && r.NoneAtTop()
    {
      hide Tiles, AllocRange.Valid;
      ghost var handed := live;
      r.Consolidate();
      assert forall t, b: Run {:trigger (t, b) in live} :: (t, b) in live ==> old(Handed(t, b));
    }

    /** No range ends with a spare run. */
    ghost predicate NoneSpareAtTop()
      requires TableOk()
      reads this, Repr
    {
      forall t, k: nat {:trigger ranges[t][k]} :: t in ranges && k < |ranges[t]| ==> ranges[t][k].NoneAtTop()
    }

    /** Lines 140-143. */
    method Consolidate()
      requires Valid()
      modifies Repr
      ensures Valid() && live == old(live) && NoneSpareAtTop()
    {
      hide Valid;
      var all := set t, k | t in ranges && 0 <= k < |ranges[t]| :: ranges[t][k];
      forall t, k: nat | t in ranges && k < |ranges[t]| ensures ranges[t][k] in Repr {
        RangesOf(t, k);
      }
      var todo := all;
      while todo != {}
        invariant Valid() && live == old(live) && todo <= all <= Repr
        invariant forall r :: r in all - todo ==> r.NoneAtTop()
      {
        var r :| r in todo;
        ConsolidateOne(r);
        todo := todo - {r};
      }
    }
  }
}
