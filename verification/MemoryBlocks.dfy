/** Compiler/allocator.py:15-61: the free list of memory blocks, indexed by size and by address. */
module MemoryBlocks {
  import opened Powers

  const ADDRESSING: nat := 0x1_0000_0000_0000_0000

  datatype PopResult = Popped(address: nat) | NoBlock | TooLarge

  function Log2(n: nat): nat {
    if n < 2 then 0 else 1 + Log2(n / 2)
  }

  lemma {:induction false} Log2Bounds(n: nat)
    requires n > 0
    ensures Pow2(Log2(n)) <= n < Pow2(Log2(n) + 1)
  {
    if n >= 2 {
      Log2Bounds(n / 2);
    }
  }

  lemma Log2Monotone(m: nat, n: nat)
    requires 0 < m && Log2(m) < Log2(n)
    ensures m < n
  {
    Log2Bounds(m);
    Log2Bounds(n);
    Pow2Monotone(Log2(m) + 1, Log2(n));
  }

  lemma TableEnd()
    ensures Pow2(64) == ADDRESSING
  {
    assert Pow2(4) == 16;
    Pow2Add(4, 4);
    assert Pow2(8) == 0x100;
    Pow2Add(8, 8);
    assert Pow2(16) == 0x1_0000;
    Pow2Add(16, 16);
    assert Pow2(32) == 0x1_0000_0000;
    Pow2Add(32, 32);
  }

  lemma Log2InTable(n: nat)
    requires 0 < n < ADDRESSING
    ensures Log2(n) < 64
  {
    Log2Bounds(n);
    if Log2(n) >= 64 {
      Pow2Monotone(64, Log2(n));
      TableEnd();
    }
  }

  type Table = t: seq<map<nat, set<nat>>> | |t| == 64 witness seq(64, _ => map[])

  function Bucket(size: nat): (l: nat)
    requires 0 < size < ADDRESSING
    ensures l == Log2(size) && l < 64
  {
    Log2InTable(size);
    Log2(size)
  }

  /** Lines 21-24, for a size that the table has a place for: the blocks of exactly this size. */
  function BySize(t: Table, size: nat): set<nat>
    requires 0 < size < ADDRESSING
  {
    if size in t[Bucket(size)] then t[Bucket(size)][size] else {}
  }

  function SetSize(t: Table, size: nat, addresses: set<nat>): (r: Table)
    requires 0 < size < ADDRESSING
    ensures BySize(r, size) == addresses
    ensures forall s: nat :: 0 < s < ADDRESSING && s != size ==> BySize(r, s) == BySize(t, s)
    ensures Filed(t) ==> Filed(r)
  {
    var bucket: map<nat, set<nat>> := t[Bucket(size)];
    var entry: map<nat, set<nat>> := map[size := addresses];
    t[Bucket(size) := bucket + entry]
  }

  /** Sizes are filed under their logarithm only. */
  ghost predicate Filed(t: Table) {
    forall l: nat, s: nat {:trigger s in t[l]} :: l < 64 && s in t[l] ==> 0 < s < ADDRESSING && Log2(s) == l
  }

  /** Two views of one collection of blocks. */
  ghost predicate SameBlocks(t: Table, byAddress: map<nat, nat>) {
    && (forall a :: a in byAddress ==> 0 < byAddress[a] < ADDRESSING && a in BySize(t, byAddress[a]))
    && (forall s: nat, a: nat {:trigger a in BySize(t, s)} :: 0 < s < ADDRESSING && a in BySize(t, s) ==> a in byAddress && byAddress[a] == s)
  }

  ghost predicate Overlap(a: nat, m: nat, b: nat, n: nat) {
    a < b + n && b < a + m
  }

  ghost predicate Separate(byAddress: map<nat, nat>) {
    forall a, b :: a in byAddress && b in byAddress && a != b ==> !Overlap(a, byAddress[a], b, byAddress[b])
  }

  ghost predicate Covers(byAddress: map<nat, nat>, a: nat, c: nat) {
    a in byAddress && a <= c < a + byAddress[a]
  }

  ghost predicate IsFree(byAddress: map<nat, nat>, c: nat) {
    exists a: nat :: Covers(byAddress, a, c)
  }

  /** The size of the free block at `a`, 0 if there is none. */
  function SizeAt(byAddress: map<nat, nat>, a: nat): nat {
    if a in byAddress then byAddress[a] else 0
  }

  /** What is left when the first `size` cells of the block at `addr` are taken: the rest, if any, is one block. */
  ghost predicate StartTaken(before: map<nat, nat>, after: map<nat, nat>, addr: nat, size: nat) {
    && addr in before && size <= before[addr]
    && (before[addr] == size ==> after == before - {addr})
    && (before[addr] > size ==> after == (before - {addr})[addr + size := before[addr] - size])
  }

  /** No block of the wanted size or more is of a smaller logarithm class, and outside the class of the request none is smaller;
      a block of exactly the wanted size goes before all others. */
  ghost predicate BestFit(byAddress: map<nat, nat>, size: nat, blockSize: nat) {
    && size <= blockSize
    && (forall a {:trigger byAddress[a]} :: a in byAddress && byAddress[a] >= size ==>
      && (byAddress[a] == size ==> blockSize == size)
      && Log2(blockSize) <= Log2(byAddress[a])
      && (Log2(blockSize) > Log2(size) ==> blockSize <= byAddress[a]))
  }

  class BlockAllocator {
    var byLogsize: Table
    var byAddress: map<nat, nat>

    ghost predicate Valid()
      reads this
    {
      Filed(byLogsize) && SameBlocks(byLogsize, byAddress) && Separate(byAddress)
    }

    constructor ()
      ensures Valid() && forall c: nat :: !IsFree(byAddress, c)
    {
      byLogsize := seq(64, _ => map[]);
      byAddress := map[];
      new;
      assert forall s: nat :: 0 < s < ADDRESSING ==> BySize(byLogsize, s) == {};
    }

    method Remove(address: nat, size: nat)
      requires Valid() && address in byAddress && byAddress[address] == size
      modifies this
      ensures Valid() && byAddress == old(byAddress) - {address}
    {
      byLogsize := SetSize(byLogsize, size, BySize(byLogsize, size) - {address});
      byAddress := byAddress - {address};
    }

    method Add(address: nat, size: nat)
      requires Valid() && 0 < size < ADDRESSING && address !in byAddress
      requires forall a :: a in byAddress ==> !Overlap(a, byAddress[a], address, size)
      modifies this
      ensures Valid() && byAddress == old(byAddress)[address := size]
    {
      byLogsize := SetSize(byLogsize, size, BySize(byLogsize, size) + {address});
      byAddress := byAddress[address := size];
    }

    /** Lines 26-33: a block joins the free block right after it, never the one before. It fails only when
        the joined block is too large, and then the later block is lost with it. */
    method Push(address: nat, size: nat) returns (ok: bool)
      requires Valid() && size > 0
      requires forall c: nat :: address <= c < address + size ==> !IsFree(byAddress, c)
      modifies this
      ensures Valid()
      ensures ok <==> size + SizeAt(old(byAddress), address + size) < ADDRESSING
      ensures ok ==> byAddress == (old(byAddress) - {address + size})[address := size + SizeAt(old(byAddress), address + size)]
      ensures ok ==> forall c: nat :: IsFree(byAddress, c) <==> IsFree(old(byAddress), c) || address <= c < address + size
      ensures !ok ==> byAddress == old(byAddress) - {address + size}
    {
      hide Filed, SameBlocks, Separate, IsFree, Overlap;
      var end := address + size;
      var total := size;
      assert forall a :: a in byAddress ==> byAddress[a] > 0 by {
        BlocksHaveSize();
      }
      JoinedApart(byAddress, address, size);
      if end in byAddress {
        var nextSize := byAddress[end];
        Remove(end, nextSize);
        total := size + nextSize;
      }
      assert byAddress == old(byAddress) - {end} && total == size + SizeAt(old(byAddress), end);
      if total >= ADDRESSING {
        return false;
      }
      ghost var rest := byAddress;
      Add(address, total);
      forall c: nat ensures IsFree(byAddress, c) <==> IsFree(old(byAddress), c) || address <= c < address + size {
        PushedCells(old(byAddress), rest, address, size, total, c);
      }
      return true;
    }

    lemma BlocksHaveSize()
      requires Valid()
      ensures forall a :: a in byAddress ==> byAddress[a] > 0
    {
    }

    /** Lines 36-53: the size of the block to use, 0 for none. */
    method ChooseSize(size: nat) returns (blockSize: nat)
      requires Valid() && 0 < size < ADDRESSING
      ensures blockSize == 0 ==> forall a :: a in byAddress ==> byAddress[a] < size
      ensures blockSize > 0 ==> size <= blockSize < ADDRESSING && BySize(byLogsize, blockSize) != {}
      ensures blockSize > 0 ==> BestFit(byAddress, size, blockSize)
    {
      if BySize(byLogsize, size) != {} {
        forall a | a in byAddress && byAddress[a] >= size ensures Log2(size) <= Log2(byAddress[a]) {
          NoSmallerClass(size, byAddress[a]);
        }
        return size;
      }
      var logsize := Bucket(size);
      var near := set s | s in byLogsize[logsize] && s >= size && byLogsize[logsize][s] != {};
      if near != {} {
        blockSize :| blockSize in near;
        forall a | a in byAddress && byAddress[a] >= size ensures Log2(size) <= Log2(byAddress[a]) && byAddress[a] != size {
          NoSmallerClass(size, byAddress[a]);
        }
        return;
      }
      forall s: nat | size <= s < ADDRESSING && Bucket(s) <= logsize ensures BySize(byLogsize, s) == {} {
        if Bucket(s) < logsize {
          Log2Monotone(s, size);
        } else {
          assert BySize(byLogsize, s) != {} ==> s in near;
        }
      }
      for l := logsize + 1 to 64
        invariant forall s: nat :: size <= s < ADDRESSING && Bucket(s) < l ==> BySize(byLogsize, s) == {}
      {
        var filled := set s | s in byLogsize[l] && byLogsize[l][s] != {};
        assert forall s: nat :: 0 < s < ADDRESSING && Bucket(s) == l && BySize(byLogsize, s) != {} ==> s in filled;
        if filled != {} {
          blockSize := Smallest(filled);
          Log2Monotone(size, blockSize);
          forall a | a in byAddress && byAddress[a] >= size
            ensures l <= Log2(byAddress[a]) && byAddress[a] != size && blockSize <= byAddress[a] {
            assert Bucket(byAddress[a]) >= l;
            if Log2(byAddress[a]) > l {
              Log2Monotone(blockSize, byAddress[a]);
            }
          }
          return;
        }
      }
      blockSize := 0;
      forall a | a in byAddress ensures byAddress[a] < size {
        assert Bucket(byAddress[a]) < 64;
      }
    }

    /** Lines 35-61. */
    method Pop(size: nat) returns (r: PopResult)
      requires Valid() && size > 0
      modifies this
      ensures Valid()
      ensures r.TooLarge? <==> size >= ADDRESSING
      ensures r.NoBlock? <==> size < ADDRESSING && forall a :: a in old(byAddress) ==> old(byAddress)[a] < size
      ensures !r.Popped? ==> byAddress == old(byAddress)
      ensures r.Popped? ==> StartTaken(old(byAddress), byAddress, r.address, size) && BestFit(old(byAddress), size, old(byAddress)[r.address])
      ensures r.Popped? ==> forall c: nat :: r.address <= c < r.address + size ==> IsFree(old(byAddress), c)
      ensures r.Popped? ==> forall c: nat :: IsFree(byAddress, c) <==> IsFree(old(byAddress), c) && !(r.address <= c < r.address + size)
    {
      if size >= ADDRESSING {
        return TooLarge;
      }
      hide Filed, Separate, IsFree, Log2, BestFit, StartTaken;
      var blockSize := ChooseSize(size);
      if blockSize < size {
        return NoBlock;
      }
      var addr :| addr in BySize(byLogsize, blockSize);
      Carve(addr, size, blockSize);
      return Popped(addr);
    }

    /** Lines 54-61: takes the start of a block and files what is left of it. */
    method Carve(addr: nat, size: nat, blockSize: nat)
      requires Valid() && addr in byAddress && byAddress[addr] == blockSize && 0 < size <= blockSize
      modifies this
      ensures Valid() && StartTaken(old(byAddress), byAddress, addr, size)
      ensures forall c: nat :: addr <= c < addr + size ==> IsFree(old(byAddress), c)
      ensures forall c: nat :: IsFree(byAddress, c) <==> IsFree(old(byAddress), c) && !(addr <= c < addr + size)
    {
      hide Filed, Separate, IsFree, Log2;
      RestApart(byAddress, addr, size, blockSize);
      Remove(addr, blockSize);
      var diff := blockSize - size;
      ghost var rest := byAddress;
      if diff != 0 {
        Add(addr + size, diff);
      }
      forall c: nat
        ensures addr <= c < addr + size ==> IsFree(old(byAddress), c)
        ensures IsFree(byAddress, c) <==> IsFree(old(byAddress), c) && !(addr <= c < addr + size) {
        PoppedCells(old(byAddress), rest, byAddress, addr, size, c);
      }
    }
  }

  lemma NoSmallerClass(m: nat, n: nat)
    requires 0 < m <= n
    ensures Log2(m) <= Log2(n)
  {
    if Log2(n) < Log2(m) {
      Log2Monotone(n, m);
    }
  }

  method Smallest(sizes: set<nat>) returns (s: nat)
    requires sizes != {}
    ensures s in sizes && forall t :: t in sizes ==> s <= t
  {
    s :| s in sizes;
    var rest := sizes - {s};
    while rest != {}
      invariant rest <= sizes && s in sizes
      invariant forall t :: t in sizes && t !in rest ==> s <= t
    {
      var t :| t in rest;
      s := if t < s then t else s;
      rest := rest - {t};
    }
  }

  lemma NewBlockApart(byAddress: map<nat, nat>, address: nat, size: nat)
    requires size > 0 && forall a :: a in byAddress ==> byAddress[a] > 0
    requires forall c: nat :: address <= c < address + size ==> !IsFree(byAddress, c)
    ensures address !in byAddress
    ensures forall a :: a in byAddress ==> !Overlap(a, byAddress[a], address, size)
  {
    forall a | a in byAddress ensures !Overlap(a, byAddress[a], address, size) {
      if Overlap(a, byAddress[a], address, size) {
        var c := if a < address then address else a;
        assert Covers(byAddress, a, c);
        assert IsFree(byAddress, c);
      }
    }
    assert address in byAddress ==> !Overlap(address, byAddress[address], address, size);
  }

  lemma JoinedApart(byAddress: map<nat, nat>, address: nat, size: nat)
    requires Separate(byAddress) && size > 0 && forall a :: a in byAddress ==> byAddress[a] > 0
    requires forall c: nat :: address <= c < address + size ==> !IsFree(byAddress, c)
    ensures address !in byAddress
    ensures forall a :: a in byAddress && a != address + size ==>
      !Overlap(a, byAddress[a], address, size + SizeAt(byAddress, address + size))
  {
    hide IsFree;
    NewBlockApart(byAddress, address, size);
    var end := address + size;
    forall a | a in byAddress && a != end ensures !Overlap(a, byAddress[a], address, size + SizeAt(byAddress, end)) {
      assert end in byAddress ==> !Overlap(a, byAddress[a], end, byAddress[end]);
    }
  }

  lemma PushedCells(before: map<nat, nat>, rest: map<nat, nat>, address: nat, size: nat, total: nat, c: nat)
    requires rest == before - {address + size} && address !in before && size > 0
    requires total == size + if address + size in before then before[address + size] else 0
    ensures IsFree(rest[address := total], c) <==> IsFree(before, c) || address <= c < address + size
  {
    var after := rest[address := total];
    if IsFree(before, c) {
      var a: nat :| Covers(before, a, c);
      assert Covers(after, if a == address + size then address else a, c);
    } else if address <= c < address + size {
      assert Covers(after, address, c);
    } else if IsFree(after, c) {
      var a: nat :| Covers(after, a, c);
      assert Covers(before, if a == address then address + size else a, c);
    }
  }

  lemma RestApart(byAddress: map<nat, nat>, addr: nat, size: nat, blockSize: nat)
    requires Separate(byAddress) && addr in byAddress && byAddress[addr] == blockSize && 0 < size <= blockSize
    requires forall a :: a in byAddress ==> byAddress[a] > 0
    ensures size < blockSize ==> addr + size !in byAddress
    ensures forall a :: a in byAddress - {addr} ==> !Overlap(a, byAddress[a], addr + size, blockSize - size)
  {
    assert addr + size in byAddress ==> !Overlap(addr + size, byAddress[addr + size], addr, blockSize);
  }

  lemma PoppedCells(before: map<nat, nat>, rest: map<nat, nat>, after: map<nat, nat>, addr: nat, size: nat, c: nat)
    requires Separate(before) && addr in before && 0 < size <= before[addr] && rest == before - {addr}
    requires after == if before[addr] == size then rest else rest[addr + size := before[addr] - size]
    requires before[addr] != size ==> addr + size !in rest
    ensures addr <= c < addr + size ==> IsFree(before, c)
    ensures IsFree(after, c) <==> IsFree(before, c) && !(addr <= c < addr + size)
  {
    if addr <= c < addr + size {
      assert Covers(before, addr, c);
    }
    if IsFree(after, c) {
      var a: nat :| Covers(after, a, c);
      if a in rest {
        assert Covers(before, a, c);
        OneBlock(before, a, addr, c);
      } else {
        assert Covers(before, addr, c);
      }
    }
    if IsFree(before, c) && !(addr <= c < addr + size) {
      var a: nat :| Covers(before, a, c);
      assert Covers(after, if a == addr then addr + size else a, c);
    }
  }

  lemma OneBlock(byAddress: map<nat, nat>, a: nat, b: nat, c: nat)
    requires Separate(byAddress) && a != b && b in byAddress && Covers(byAddress, a, c)
    ensures !Covers(byAddress, b, c)
  {
    assert !Overlap(a, byAddress[a], b, byAddress[b]);
  }
}
