/** Compiler/dijkstra.py: a priority queue in oblivious arrays, with an index from values to heap slots. */
module IndexedHeap {
  import opened Powers

  /** A slot of the heap array; an empty one reads as priority 0 and value 0. */
  datatype HeapEntry = Empty | Entry(prio: int, value: nat) {
    function Value(): nat {
      if Empty? then 0 else value
    }

    /** Compiler/dijkstra.py:30-32: empty entries are greater than nothing. */
    predicate Greater(other: HeapEntry) {
      Entry? && other.Entry? && prio > other.prio
    }
  }

  /** Slots 1 to `size` are in use. */
  ghost predicate Filled(h: seq<HeapEntry>, size: nat) {
    size < |h| && forall k: nat :: k < |h| ==> (h[k].Entry? <==> 1 <= k <= size)
  }

  ghost predicate InOrder(h: seq<HeapEntry>, k: nat)
    requires k < |h|
  {
    k >= 2 ==> !h[k / 2].Greater(h[k])
  }

  ghost predicate Ordered(h: seq<HeapEntry>) {
    forall k: nat :: k < |h| ==> InOrder(h, k)
  }

  /** Heap order with one exception: slot `x` may be smaller than its parent, but its children are not. */
  ghost predicate OrderedBut(h: seq<HeapEntry>, x: nat) {
    && (forall k: nat :: k < |h| && k != x ==> InOrder(h, k))
    && (forall k: nat {:trigger h[k]} :: 4 <= k < |h| && k / 2 == x ==> !h[x / 2].Greater(h[k]))
  }

  /** Heap order with one exception: slot `x` may be greater than its children. */
  ghost predicate OrderedAbove(h: seq<HeapEntry>, x: nat) {
    && (forall k: nat :: k < |h| && k / 2 != x ==> InOrder(h, k))
    && (forall k: nat {:trigger h[k]} :: 4 <= k < |h| && k / 2 == x ==> !h[x / 2].Greater(h[k]))
  }

  /** The index is the inverse of the heap. */
  ghost predicate Indexed(h: seq<HeapEntry>, index: map<nat, nat>, size: nat)
    requires Filled(h, size)
  {
    && (forall k: nat :: 1 <= k <= size ==> h[k].value in index && index[h[k].value] == k)
    && (forall v :: v in index ==> 1 <= index[v] <= size && h[index[v]].value == v)
  }

  ghost function Entries(h: seq<HeapEntry>, index: map<nat, nat>, size: nat): map<nat, int>
    requires Filled(h, size) && Indexed(h, index, size)
  {
    map v | v in index :: h[index[v]].prio
  }

  // ----- positions -----

  /** Slot `x` lies on the way from slot `c` up to the root. */
  predicate Above(x: nat, c: nat) {
    x == c || (x < c && Above(x, c / 2))
  }

  lemma Doubled(x: nat, p: nat)
    ensures x * (2 * p) == 2 * (x * p)
  {
  }

  lemma {:induction false} ShiftedIsBelow(x: nat, t: nat)
    requires x > 0
    ensures x * Pow2(t) > 0 && Above(x, x * Pow2(t))
  {
    if t > 0 {
      ShiftedIsBelow(x, t - 1);
      Doubled(x, Pow2(t - 1));
      assert x * Pow2(t) / 2 == x * Pow2(t - 1);
    }
  }

  lemma {:induction false} RootIsSmallest(h: seq<HeapEntry>, size: nat, k: nat)
    requires Filled(h, size) && Ordered(h) && 1 <= k <= size
    ensures h[1].prio <= h[k].prio
  {
    if k > 1 {
      RootIsSmallest(h, size, k / 2);
      assert InOrder(h, k);
    }
  }

  // ----- the walk up -----

  /** Comparing slot `c` with its parent, then the parent with its own parent, and so on up to the root. */
  ghost function WalkUp(h: seq<HeapEntry>, c: nat): (r: seq<HeapEntry>)
    requires c < |h|
    ensures |r| == |h|
    decreases c
  {
    if c <= 1 then h else WalkUp(if h[c / 2].Greater(h[c]) then Swapped(h, c / 2, c) else h, c / 2)
  }

  /** Comparing slot `p` with the smaller of its children, the left one if neither is smaller, then that child with its own. */
  ghost function WalkDown(h: seq<HeapEntry>, p: nat): (r: seq<HeapEntry>)
    requires 0 < p < |h|
    ensures |r| == |h|
    decreases |h| - p
  {
    if 2 * p + 1 >= |h| then h else
    var c := if h[2 * p].Greater(h[2 * p + 1]) then 2 * p + 1 else 2 * p;
    WalkDown(if h[p].Greater(h[c]) then Swapped(h, p, c) else h, c)
  }

  /** The leftmost descendant of slot `x` in the bottom level. */
  ghost function BottomBelow(x: nat, levels: nat): (b: nat)
    requires levels > 0 && 0 < x < Pow2(levels)
    ensures b < Pow2(levels)
    decreases Pow2(levels) - x
  {
    if Pow2(levels - 1) <= x then x else BottomBelow(2 * x, levels)
  }

  lemma {:induction false} ShiftedIsBottom(x: nat, t: nat, levels: nat)
    requires levels > 0 && 0 < x < Pow2(levels) && Pow2(levels - 1) <= x * Pow2(t) < Pow2(levels)
    ensures BottomBelow(x, levels) == x * Pow2(t)
    decreases t
  {
    if t > 0 {
      assert x * Pow2(t) == (2 * x) * Pow2(t - 1);
      assert x * Pow2(t) >= 2 * x by {
        assert Pow2(t - 1) >= 1;
        Scaled(1, Pow2(t - 1), 2 * x);
      }
      assert x < Pow2(levels - 1);
      ShiftedIsBottom(2 * x, t - 1, levels);
    }
  }

  /** A walk through places that are in order changes nothing. */
  lemma {:induction false} WalkUpStill(h: seq<HeapEntry>, c: nat)
    requires c < |h| && forall k: nat :: k <= c ==> InOrder(h, k)
    ensures WalkUp(h, c) == h
  {
    if c > 1 {
      assert InOrder(h, c);
      WalkUpStill(h, c / 2);
    }
  }

  /** Nor does the part of a walk that is in order. */
  lemma {:induction false} WalkUpFrom(h: seq<HeapEntry>, y: nat, levels: nat)
    requires levels > 0 && |h| == Pow2(levels) && 2 <= y < Pow2(levels) && forall k: nat :: y < k < |h| ==> InOrder(h, k) || k / 2 < y
    ensures BottomBelow(y, levels) < |h| && WalkUp(h, BottomBelow(y, levels)) == WalkUp(h, y)
    decreases |h| - y
  {
    if y < Pow2(levels - 1) {
      assert InOrder(h, 2 * y);
      WalkUpFrom(h, 2 * y, levels);
    }
  }

  /** Nothing at slot `k` of the heap is less than `prio`; an absent entry counts as plus infinity. */
  predicate AtMost(prio: int, h: seq<HeapEntry>, k: nat) {
    k < |h| && h[k].Entry? ==> prio <= h[k].prio
  }

  /** When the entry of slot `x` may get priority `prio`: it is at most its children, or it is greater than the left child, that is
      at most the right one, and below it the new priority fits. */
  predicate Fits(h: seq<HeapEntry>, x: nat, prio: int) {
    || (AtMost(prio, h, 2 * x) && AtMost(prio, h, 2 * x + 1))
    || (!AtMost(prio, h, 2 * x) && AtMost(h[2 * x].prio, h, 2 * x + 1) && AtMost(prio, h, 4 * x) && AtMost(prio, h, 4 * x + 1))
  }

  /** Where the new priority is greater than a child's, the walk makes one comparison that counts. */
  lemma RaisedWalk(h: seq<HeapEntry>, size: nat, levels: nat, x: nat, prio: int, value: nat)
    requires levels > 0 && |h| == Pow2(levels) && Filled(h, size) && Ordered(h) && 1 <= x <= size
    requires !(AtMost(prio, h, 2 * x) && AtMost(prio, h, 2 * x + 1))
    ensures 2 * x < |h|
    ensures var g := h[x := Entry(prio, value)];
      WalkUp(g, BottomBelow(x, levels)) == if AtMost(prio, h, 2 * x) then g else Swapped(g, x, 2 * x)
  {
    var g := h[x := Entry(prio, value)];
    assert Pow2(levels) == 2 * Pow2(levels - 1);
    assert 2 * x < |h|;
    assert BottomBelow(x, levels) == BottomBelow(2 * x, levels);
    forall k: nat | 2 * x < k < |g| && k / 2 >= 2 * x ensures InOrder(g, k) {
      assert InOrder(h, k);
    }
    WalkUpFrom(g, 2 * x, levels);
    var s := if AtMost(prio, h, 2 * x) then g else Swapped(g, x, 2 * x);
    assert InOrder(h, x) && InOrder(h, 2 * x) && InOrder(h, 2 * x + 1);
    forall k: nat | k <= x ensures InOrder(s, k) {
      assert InOrder(h, k);
    }
    WalkUpStill(s, x);
  }

  /** The order afterwards. */
  lemma RaisedOrder(h: seq<HeapEntry>, size: nat, levels: nat, x: nat, prio: int, value: nat)
    requires levels > 0 && |h| == Pow2(levels) && Filled(h, size) && Ordered(h) && 1 <= x <= size
    requires !(AtMost(prio, h, 2 * x) && AtMost(prio, h, 2 * x + 1))
    ensures Ordered(WalkUp(h[x := Entry(prio, value)], BottomBelow(x, levels))) <==> Fits(h, x, prio)
  {
    assert |h| % 2 == 0;
    hide *;
    RaisedWalk(h, size, levels, x, prio, value);
    FitsRaised(h, x, prio);
    if AtMost(prio, h, 2 * x) {
      RightTooSmall(h, size, x, prio, value);
    } else {
      SwappedOrder(h, size, x, prio, value);
    }
  }

  lemma FitsRaised(h: seq<HeapEntry>, x: nat, prio: int)
    requires !(AtMost(prio, h, 2 * x) && AtMost(prio, h, 2 * x + 1))
    ensures Fits(h, x, prio) <==>
      !AtMost(prio, h, 2 * x) && AtMost(h[2 * x].prio, h, 2 * x + 1) && AtMost(prio, h, 4 * x) && AtMost(prio, h, 4 * x + 1)
  {
  }

  lemma RightTooSmall(h: seq<HeapEntry>, size: nat, x: nat, prio: int, value: nat)
    requires Filled(h, size) && 1 <= x <= size && !AtMost(prio, h, 2 * x + 1)
    ensures !Ordered(h[x := Entry(prio, value)])
  {
    assert !InOrder(h[x := Entry(prio, value)], 2 * x + 1);
  }

  lemma SwappedOrder(h: seq<HeapEntry>, size: nat, x: nat, prio: int, value: nat)
    requires Filled(h, size) && Ordered(h) && 1 <= x <= size && 2 * x < |h| && |h| % 2 == 0 && !AtMost(prio, h, 2 * x)
    ensures Ordered(Swapped(h[x := Entry(prio, value)], x, 2 * x)) <==>
      AtMost(h[2 * x].prio, h, 2 * x + 1) && AtMost(prio, h, 4 * x) && AtMost(prio, h, 4 * x + 1)
  {
    var s := Swapped(h[x := Entry(prio, value)], x, 2 * x);
    if AtMost(h[2 * x].prio, h, 2 * x + 1) && AtMost(prio, h, 4 * x) && AtMost(prio, h, 4 * x + 1) {
      forall k: nat | k < |s| ensures InOrder(s, k) {
        assert InOrder(h, k) && InOrder(h, x) && InOrder(h, 2 * x);
        assert k / 2 == x ==> k == 2 * x || k == 2 * x + 1;
        assert k / 2 == 2 * x ==> k == 4 * x || k == 4 * x + 1;
      }
    } else if !AtMost(h[2 * x].prio, h, 2 * x + 1) {
      assert !InOrder(s, 2 * x + 1);
    } else if !AtMost(prio, h, 4 * x) {
      assert !InOrder(s, 4 * x);
    } else {
      assert !InOrder(s, 4 * x + 1);
    }
  }

  class HeapQ {
    const levels: nat
    const heap: array<HeapEntry>
    var valueIndex: map<nat, nat>
    var size: nat

    /** Slots, index and size agree; the order is stated apart. */
    ghost predicate Consistent()
      reads this, heap
    {
      heap.Length == Pow2(levels) && Filled(heap[..], size) && Indexed(heap[..], valueIndex, size)
    }

    ghost predicate Valid()
      reads this, heap
    {
      Consistent() && Ordered(heap[..])
    }

    ghost function Contents(): map<nat, int>
      requires Consistent()
      reads this, heap
    {
      Entries(heap[..], valueIndex, size)
    }

    constructor (levels: nat)
      ensures Valid() && Contents() == map[] && size == 0 && this.levels == levels && fresh(heap)
    {
      this.levels := levels;
      heap := new HeapEntry[Pow2(levels)](_ => Empty);
      valueIndex, size := map[], 0;
    }

    /** Lines 113-121 and 146-153: compares a parent with a child, swaps them in the heap and in the index. */
    method Compare(parentpos: nat, childpos: nat) returns (swap: bool)
      requires parentpos < childpos < heap.Length
      modifies this`valueIndex, heap
      ensures swap == old(heap[parentpos].Greater(heap[childpos]))
      ensures heap[..] == if swap then Swapped(old(heap[..]), parentpos, childpos) else old(heap[..])
      ensures old(Consistent()) ==> Consistent() && Contents() == old(Contents())
      ensures !swap ==> valueIndex == old(valueIndex)
    {
      hide Indexed, Entries;
      var parent, child := heap[parentpos], heap[childpos];
      swap := parent.Greater(child);
      var (newParent, newChild) := if swap then (child, parent) else (parent, child);
      heap[childpos] := newChild;
      heap[parentpos] := newParent;
      if swap {
        valueIndex := valueIndex[newParent.Value() := parentpos];
        valueIndex := valueIndex[newChild.Value() := childpos];
        assert heap[..] == Swapped(old(heap[..]), parentpos, childpos);
        if old(Consistent()) {
          SwapKeepsEntries(old(heap[..]), old(valueIndex), size, parentpos, childpos);
        }
      } else {
        assert heap[..] == old(heap[..]);
      }
    }

    /** Lines 105-109: the distance of the highest bit from the top, as a power of two. */
    method HighestShift(start: nat) returns (shift: nat, ghost t: nat)
      requires 0 < start < Pow2(levels)
      ensures shift == Pow2(t) && Pow2(levels - 1) <= start * shift < Pow2(levels)
    {
      shift, t := 0, 0;
      var or := 0;
      for i := 0 to levels
        invariant or == 0 || or == 1
        invariant or == 0 ==> start < Pow2(levels - i) && shift == 0
        invariant or == 1 ==> shift == Pow2(t) && Pow2(levels - 1) <= start * shift < Pow2(levels)
      {
        if or == 0 {
          TopBit(start, levels, i);
        }
        var bit := start / Pow2(levels - 1 - i) % 2;
        var next := if bit == 1 then 1 else or;
        if next - or == 1 {
          shift := shift + Pow2(i);
          t := i;
        }
        or := next;
      }
    }

    /** Lines 104-122: from the leftmost bottom descendant of `start` up to the root. If the entry of `start` may only be too
        small, order is restored and nothing after `start` changes. */
    method BubbleUp(start: nat)
      requires Consistent() && levels > 0 && 0 < start < heap.Length
      modifies this`valueIndex, heap
      ensures Consistent() && Contents() == old(Contents())
      ensures heap[..] == WalkUp(old(heap[..]), BottomBelow(start, levels))
      ensures old(OrderedBut(heap[..], start)) ==> Valid() && heap[start + 1..] == old(heap[start + 1..])
    {
      hide Filled, Indexed, Entries, OrderedBut, Ordered;
      var shift, t := HighestShift(start);
      var childpos := start * shift;
      ShiftedIsBelow(start, t);
      ShiftedIsBottom(start, t, levels);
      ghost var small := OrderedBut(heap[..], start);
      ghost var x: nat := start;
      for i := 0 to levels - 1
        invariant Consistent() && Contents() == old(Contents())
        invariant Pow2(levels - 1 - i) <= childpos < Pow2(levels - i) <= heap.Length
        invariant WalkUp(heap[..], childpos) == WalkUp(old(heap[..]), BottomBelow(start, levels))
        invariant small ==> (x == 0 || Above(x, childpos)) && x <= start && OrderedBut(heap[..], x)
        invariant small ==> heap[start + 1..] == old(heap[start + 1..])
      {
        var parentpos := childpos / 2;
        Pow2Monotone(levels - i, levels);
        ghost var before := heap[..];
        if small {
          AtExceptionOnly(before, x, childpos);
        }
        var swap := Compare(parentpos, childpos);
        if small {
          if swap {
            SwapUp(before, parentpos, childpos);
            x := parentpos;
          } else if x == childpos {
            NoException(before, x);
            x := 0;
          }
        }
        childpos := parentpos;
      }
      if small {
        OrderedAtRoot(heap[..], x);
      }
    }

    /** Lines 135-154: from the root down to the bottom, always towards the smaller child. */
    method SiftDown()
      requires levels > 0 && heap.Length == Pow2(levels)
      modifies this`valueIndex, heap
      ensures heap[..] == WalkDown(old(heap[..]), 1)
      ensures old(Consistent() && OrderedAbove(heap[..], 1)) ==> Valid() && Contents() == old(Contents())
      ensures old(NoEntries(heap[..])) ==> heap[..] == old(heap[..]) && valueIndex == old(valueIndex)
    {
      hide Filled, Indexed, Entries, OrderedAbove, Ordered, NoEntries;
      var parentpos := 1;
      for i := 0 to levels - 1
        invariant Pow2(i) <= parentpos < Pow2(i + 1) <= heap.Length
        invariant WalkDown(heap[..], parentpos) == WalkDown(old(heap[..]), 1)
        invariant old(Consistent() && OrderedAbove(heap[..], 1)) ==>
          Consistent() && Contents() == old(Contents()) && OrderedAbove(heap[..], parentpos)
        invariant old(NoEntries(heap[..])) ==> heap[..] == old(heap[..]) && valueIndex == old(valueIndex)
      {
        Pow2Monotone(i + 2, levels);
        var childpos := 2 * parentpos;
        var goRight := heap[childpos].Greater(heap[childpos + 1]);
        childpos := if goRight then childpos + 1 else childpos;
        ghost var before := heap[..];
        EmptyNeverGreater(before, parentpos, childpos);
        var swap := Compare(parentpos, childpos);
        if old(Consistent() && OrderedAbove(heap[..], 1)) {
          OneDown(before, size, parentpos, childpos);
        }
        parentpos := childpos;
      }
      if old(Consistent() && OrderedAbove(heap[..], 1)) {
        NoChildren(heap[..], parentpos);
      }
    }

    /** When storing `prio` for a value keeps the heap in order. */
    ghost predicate KeepsOrder(value: nat, prio: int)
      requires Consistent()
      reads this, heap
    {
      value in valueIndex ==> Fits(heap[..], valueIndex[value], prio)
    }

    /** The slot of a value, or the next free one. */
    ghost function SlotFor(value: nat): nat
      reads this
    {
      if value in valueIndex then valueIndex[value] else size + 1
    }

    /** Lines 158-168: inserts a value or changes its priority. Contents and index are always right; the order is lost exactly when
        the new priority of a stored value does not fit. */
    method Update(value: nat, prio: int, forReal: bool)
      requires Valid() && levels > 0
      requires forReal && value !in valueIndex ==> size + 1 < heap.Length
      modifies this`valueIndex, this`size, heap
      ensures Consistent() && Contents() == if forReal then old(Contents())[value := prio] else old(Contents())
      ensures size == old(size) + if forReal && value !in old(valueIndex) then 1 else 0
      ensures Valid() <==> !forReal || old(KeepsOrder(value, prio))
      ensures forReal ==> old(0 < SlotFor(value) < heap.Length)
      ensures heap[..] == if !forReal then old(heap[..])
        else WalkUp(old(heap[..])[old(SlotFor(value)) := Entry(prio, value)], BottomBelow(old(SlotFor(value)), levels))
    {
      hide OrderedBut, Ordered, Fits, WalkUp, BottomBelow;
      ghost var h := heap[..];
      var notFound := value !in valueIndex;
      if notFound && forReal {
        size := size + 1;
      }
      var index := if notFound then size else valueIndex[value];
      if notFound && forReal {
        valueIndex := valueIndex[value := size];
      }
      if forReal {
        heap[index] := Entry(prio, value);
        assert heap[..] == h[index := Entry(prio, value)];
        WrittenEntries(h, old(valueIndex), old(size), heap[..], valueIndex, size, index, value, prio);
        if notFound || (AtMost(prio, h, 2 * index) && AtMost(prio, h, 2 * index + 1)) {
          WrittenOrder(h, old(size), heap[..], index, value, prio);
          FitsBelow(h, index, prio);
        } else {
          RaisedOrder(h, old(size), levels, index, prio, value);
        }
      } else {
        StillOrdered(heap[..], size, index);
        if index > 0 {
          StillWalk(heap[..], BottomBelow(index, levels));
        }
      }
      // bubbling up from slot 0 would put the empty slot 0 back
      if index > 0 {
        BubbleUp(index);
      }
    }

    /** The heap once the last entry has taken the place of the first. */
    ghost function LastAtRoot(): seq<HeapEntry>
      requires 0 < size < heap.Length
      reads this, heap
    {
      heap[..][1 := heap[size]][size := Empty]
    }

    /** Lines 124-156: takes out a value of least priority. On an empty heap a pop for real breaks the index:
        line 132 then files value 0 under slot 1. */
    method Pop(forReal: bool) returns (value: nat)
      requires Valid() && levels > 0
      modifies this`valueIndex, this`size, heap
      ensures Valid() <==> !(forReal && old(size) == 0)
      ensures heap.Length > 1 && value == old(heap[1]).Value()
      ensures heap[..] == WalkDown(if forReal && old(size) > 0 then old(LastAtRoot()) else old(heap[..]), 1)
      ensures old(size) > 0 ==> value in old(Contents()) && forall v :: v in old(Contents()) ==> old(Contents())[value] <= old(Contents())[v]
      ensures forReal && old(size) > 0 ==> Contents() == old(Contents()) - {value} && size == old(size) - 1
      ensures !forReal ==> Contents() == old(Contents()) && size == old(size)
      ensures forReal && old(size) == 0 ==> valueIndex == map[0 := 1] && NoEntries(heap[..])
    {
      hide Ordered, OrderedAbove, Entries;
      var popForReal := forReal && size != 0;
      var entry := heap[1];
      value := entry.Value();
      LeastAtRoot(heap[..], valueIndex, size);
      if forReal {
        valueIndex := valueIndex - {value};
      }
      var last := heap[size];
      if popForReal {
        heap[1] := last;
      }
      if forReal && size != 1 {
        valueIndex := valueIndex[last.Value() := 1];
      }
      if forReal {
        heap[size] := Empty;
      }
      if popForReal {
        size := size - 1;
        Taken(old(heap[..]), old(valueIndex), old(size), heap[..], valueIndex);
      } else {
        assert heap[..] == old(heap[..]);
        Untouched(heap[..], old(valueIndex), size);
      }
      SiftDown();
    }
  }

  ghost predicate NoEntries(h: seq<HeapEntry>) {
    forall k: nat :: k < |h| ==> h[k].Empty?
  }

  ghost function Swapped(h: seq<HeapEntry>, a: nat, b: nat): seq<HeapEntry>
    requires a < |h| && b < |h|
  {
    h[a := h[b]][b := h[a]]
  }

  lemma SwapKeepsEntries(h: seq<HeapEntry>, index: map<nat, nat>, size: nat, a: nat, b: nat)
    requires Filled(h, size) && Indexed(h, index, size) && a < b < |h| && h[a].Entry? && h[b].Entry?
    ensures var (t, index') := (Swapped(h, a, b), index[h[b].value := a][h[a].value := b]);
      Filled(t, size) && Indexed(t, index', size) && Entries(t, index', size) == Entries(h, index, size)
  {
    var t, index' := Swapped(h, a, b), index[h[b].value := a][h[a].value := b];
    assert Filled(t, size);
    assert Indexed(t, index', size);
    assert index'.Keys == index.Keys;
  }

  lemma EmptyNeverGreater(h: seq<HeapEntry>, a: nat, b: nat)
    requires a < |h| && b < |h|
    ensures NoEntries(h) ==> !h[a].Greater(h[b])
  {
  }

  /** Only the exception can be smaller than its parent. */
  lemma AtExceptionOnly(h: seq<HeapEntry>, x: nat, c: nat)
    requires OrderedBut(h, x) && 2 <= c < |h|
    ensures h[c / 2].Greater(h[c]) ==> c == x
  {
    assert c != x ==> InOrder(h, c);
  }

  /** Swapping the exception with its parent makes the parent the exception. */
  lemma SwapUp(h: seq<HeapEntry>, p: nat, c: nat)
    requires 2 <= c < |h| && p == c / 2 && OrderedBut(h, c) && h[p].Greater(h[c])
    ensures OrderedBut(Swapped(h, p, c), p)
  {
    var t := Swapped(h, p, c);
    assert InOrder(h, p);
    forall k: nat | k < |h| && k != p ensures InOrder(t, k) {
      assert k != c ==> InOrder(h, k);
    }
    forall k: nat | 4 <= k < |h| && k / 2 == p ensures !t[p / 2].Greater(t[k]) {
      assert k != c ==> InOrder(h, k);
    }
  }

  lemma NoException(h: seq<HeapEntry>, x: nat)
    requires OrderedBut(h, x) && x < |h| && InOrder(h, x)
    ensures OrderedBut(h, 0)
  {
  }

  lemma OrderedAtRoot(h: seq<HeapEntry>, x: nat)
    requires OrderedBut(h, x) && x <= 1
    ensures Ordered(h)
  {
  }

  /** One step down: the smaller child comes up if it has to, and the exception moves to its place. */
  lemma OneDown(h: seq<HeapEntry>, size: nat, p: nat, c: nat)
    requires Filled(h, size) && OrderedAbove(h, p) && p > 0 && (c == 2 * p || c == 2 * p + 1) && 2 * p + 1 < |h|
    requires c == if h[2 * p].Greater(h[2 * p + 1]) then 2 * p + 1 else 2 * p
    ensures OrderedAbove(if h[p].Greater(h[c]) then Swapped(h, p, c) else h, c)
  {
    var t := if h[p].Greater(h[c]) then Swapped(h, p, c) else h;
    forall k: nat | k < |h| && k / 2 != c ensures InOrder(t, k) {
      if k / 2 != p && k >= 2 {
        assert InOrder(h, k);
      }
    }
    forall k: nat | 4 <= k < |h| && k / 2 == c ensures !t[c / 2].Greater(t[k]) {
      assert InOrder(h, k);
    }
  }

  lemma NoChildren(h: seq<HeapEntry>, x: nat)
    requires OrderedAbove(h, x) && |h| <= 2 * x
    ensures Ordered(h)
  {
  }

  lemma StillOrdered(h: seq<HeapEntry>, size: nat, x: nat)
    requires Filled(h, size) && Ordered(h) && x <= size
    ensures OrderedBut(h, x)
  {
    forall k: nat | 4 <= k < |h| && k / 2 == x ensures !h[x / 2].Greater(h[k]) {
      assert InOrder(h, k) && InOrder(h, x);
    }
  }

  /** Contents and index right after an entry is written. */
  lemma WrittenEntries(h: seq<HeapEntry>, index: map<nat, nat>, size: nat, h': seq<HeapEntry>, index': map<nat, nat>, size': nat,
                       x: nat, value: nat, prio: int)
    requires Filled(h, size) && Indexed(h, index, size)
    requires value in index ==> x == index[value] && index' == index && size' == size
    requires value !in index ==> x == size + 1 && size' == size + 1 < |h| && index' == index[value := x]
    requires h' == h[x := Entry(prio, value)]
    ensures Filled(h', size') && Indexed(h', index', size')
    ensures Entries(h', index', size') == Entries(h, index, size)[value := prio]
  {
    if value in index {
      Rewritten(h, index, size, h', x, value, prio);
    } else {
      Inserted(h, index, size, h', value, prio);
    }
  }

  lemma FitsBelow(h: seq<HeapEntry>, x: nat, prio: int)
    ensures AtMost(prio, h, 2 * x) && AtMost(prio, h, 2 * x + 1) ==> Fits(h, x, prio)
  {
  }

  lemma StillWalk(h: seq<HeapEntry>, c: nat)
    requires Ordered(h) && c < |h|
    ensures WalkUp(h, c) == h
  {
    WalkUpStill(h, c);
  }

  lemma Rewritten(h: seq<HeapEntry>, index: map<nat, nat>, size: nat, h': seq<HeapEntry>, x: nat, value: nat, prio: int)
    requires Filled(h, size) && Indexed(h, index, size) && value in index && x == index[value] && h' == h[x := Entry(prio, value)]
    ensures Filled(h', size) && Indexed(h', index, size)
    ensures Entries(h', index, size) == Entries(h, index, size)[value := prio]
  {
    assert Filled(h', size);
    assert forall v :: v in index && v != value ==> index[v] != x;
  }

  lemma Inserted(h: seq<HeapEntry>, index: map<nat, nat>, size: nat, h': seq<HeapEntry>, value: nat, prio: int)
    requires Filled(h, size) && Indexed(h, index, size) && value !in index && size + 1 < |h| && h' == h[size + 1 := Entry(prio, value)]
    ensures Filled(h', size + 1) && Indexed(h', index[value := size + 1], size + 1)
    ensures Entries(h', index[value := size + 1], size + 1) == Entries(h, index, size)[value := prio]
  {
    assert Filled(h', size + 1);
  }

  lemma WrittenOrder(h: seq<HeapEntry>, size: nat, h': seq<HeapEntry>, x: nat, value: nat, prio: int)
    requires Filled(h, size) && Ordered(h) && (1 <= x <= size || x == size + 1 < |h|)
    requires x <= size ==> AtMost(prio, h, 2 * x) && AtMost(prio, h, 2 * x + 1)
    requires h' == h[x := Entry(prio, value)]
    ensures OrderedBut(h', x)
  {
    forall k: nat | k < |h| && k != x ensures InOrder(h', k) {
      assert InOrder(h, k);
      assert k / 2 == x ==> k == 2 * x || k == 2 * x + 1;
    }
    forall k: nat | 4 <= k < |h| && k / 2 == x ensures !h'[x / 2].Greater(h'[k]) {
      assert InOrder(h, k) && InOrder(h, x);
    }
  }

  lemma LeastAtRoot(h: seq<HeapEntry>, index: map<nat, nat>, size: nat)
    requires Filled(h, size) && Indexed(h, index, size) && Ordered(h)
    ensures size > 0 ==> h[1].value in Entries(h, index, size)
    ensures size > 0 ==> forall v :: v in Entries(h, index, size) ==> Entries(h, index, size)[h[1].value] <= Entries(h, index, size)[v]
  {
    if size > 0 {
      forall v | v in index ensures h[1].prio <= h[index[v]].prio {
        RootIsSmallest(h, size, index[v]);
      }
    }
  }

  /** The heap right after the last entry has replaced the root. */
  lemma Taken(h: seq<HeapEntry>, index: map<nat, nat>, size: nat, h': seq<HeapEntry>, index': map<nat, nat>)
    requires 0 < size && Filled(h, size) && Indexed(h, index, size) && Ordered(h)
    requires h' == h[1 := h[size]][size := Empty]
    requires index' == if size != 1 then (index - {h[1].value})[h[size].value := 1] else index - {h[1].value}
    ensures Filled(h', size - 1) && Indexed(h', index', size - 1) && OrderedAbove(h', 1)
    ensures Entries(h', index', size - 1) == Entries(h, index, size) - {h[1].value}
  {
    forall k: nat | k < |h| && k / 2 != 1 ensures InOrder(h', k) {
      assert InOrder(h, k);
    }
  }

  lemma Untouched(h: seq<HeapEntry>, index: map<nat, nat>, size: nat)
    requires Filled(h, size) && Indexed(h, index, size) && Ordered(h)
    ensures OrderedAbove(h, 1) && (size == 0 ==> NoEntries(h) && index == map[])
  {
  }

  /** With two levels the walk from slot 1 starts at slot 2. */
  lemma SmallWalks(h: seq<HeapEntry>)
    requires |h| == 4
    ensures Pow2(2) == 4 && BottomBelow(1, 2) == 2 && BottomBelow(2, 2) == 2 && BottomBelow(3, 2) == 3
    ensures WalkUp(h, 2) == if h[1].Greater(h[2]) then Swapped(h, 1, 2) else h
    ensures WalkUp(h, 3) == if h[1].Greater(h[3]) then Swapped(h, 1, 3) else h
  {
    assert Pow2(1) == 2 && Pow2(0) == 1;
    var g := if h[1].Greater(h[2]) then Swapped(h, 1, 2) else h;
    assert WalkUp(g, 1) == g;
    var f := if h[1].Greater(h[3]) then Swapped(h, 1, 3) else h;
    assert WalkUp(f, 1) == f;
  }

  lemma SlotOf(h: seq<HeapEntry>, index: map<nat, nat>, size: nat, v: nat, k: nat)
    requires Filled(h, size) && Indexed(h, index, size) && 1 <= k <= size && h[k].value == v
    ensures v in index && index[v] == k
  {
  }

  lemma NotThere(h: seq<HeapEntry>, index: map<nat, nat>, size: nat, v: nat)
    requires Filled(h, size) && Indexed(h, index, size) && forall k: nat :: 1 <= k <= size ==> h[k].value != v
    ensures v !in index
  {
  }

  /** A run that loses the order: values 0, 1 and 2 with priorities 1, 3 and 2, then 0 is raised to 9. It is compared with 3
      only, which comes to the root above 2. */
  method RaisingBreaksOrder() returns (q: HeapQ)
    ensures q.Consistent() && q.heap[..] == [Empty, Entry(3, 1), Entry(9, 0), Entry(2, 2)] && !q.Valid()
  {
    hide Indexed, Entries, Ordered, WalkUp, BottomBelow, Pow2;
    q := new HeapQ(2);
    ghost var h: seq<HeapEntry> := [Empty, Empty, Empty, Empty];
    SmallWalks(h);
    assert q.heap[..] == h;
    NotThere(h, q.valueIndex, 0, 0);
    q.Update(0, 1, true);
    SmallWalks(h[1 := Entry(1, 0)]);
    h := [Empty, Entry(1, 0), Empty, Empty];
    assert q.heap[..] == h;
    NotThere(h, q.valueIndex, 1, 1);
    q.Update(1, 3, true);
    SmallWalks(h[2 := Entry(3, 1)]);
    h := [Empty, Entry(1, 0), Entry(3, 1), Empty];
    assert q.heap[..] == h;
    NotThere(h, q.valueIndex, 2, 2);
    q.Update(2, 2, true);
    SmallWalks(h[3 := Entry(2, 2)]);
    h := [Empty, Entry(1, 0), Entry(3, 1), Entry(2, 2)];
    assert q.heap[..] == h;
    SlotOf(h, q.valueIndex, 3, 0, 1);
    assert !Fits(h, 1, 9);
    q.Update(0, 9, true);
    SmallWalks(h[1 := Entry(9, 0)]);
    assert q.heap[..] == [Empty, Entry(3, 1), Entry(9, 0), Entry(2, 2)];
  }

  lemma TopBit(start: nat, levels: nat, i: nat)
    requires i < levels && start < Pow2(levels - i)
    ensures start / Pow2(levels - 1 - i) % 2 == (if start < Pow2(levels - 1 - i) then 0 else 1)
    ensures start >= Pow2(levels - 1 - i) ==> Pow2(levels - 1) <= start * Pow2(i) < Pow2(levels)
  {
    var low := Pow2(levels - 1 - i);
    Quotient(start, low);
    if start >= low {
      Pow2Add(levels - 1 - i, i);
      Pow2Add(levels - i, i);
      Scaled(low, start, Pow2(i));
      Scaled(start + 1, 2 * low, Pow2(i));
    }
  }

  lemma Quotient(a: nat, b: nat)
    requires 0 < b && a < 2 * b
    ensures a / b == if a < b then 0 else 1
  {
    if a >= b {
      assert (a - b) / b == 0;
    }
  }

  lemma Scaled(a: nat, b: nat, c: nat)
    requires a <= b && c > 0
    ensures a * c <= b * c && (a > 0 ==> (a - 1) * c < a * c)
  {
  }
}
