/** BMR/RealGarbleWire.hpp and BMR/RealProgramParty.hpp: garbling without a dealer. Every secret-shared value
    stands for the field element it opens to, and all parties run in step. */
module RealGarbling {
  import opened Bits
  import opened GarblingKeys
  import opened GarbledGates
  import opened Queues

  /** Multiplication in the field of 2^128 elements, as far as it matters here. */
  type Product = (Key, Key) -> Key

  ghost predicate HasZeroAndOne(mul: Product) {
    forall x: Key :: mul(x, ZeroKey()) == ZeroKey() && mul(x, OneKey()) == x
  }

  function BitKey(b: Bit): Key {
    if b == 1 then OneKey() else ZeroKey()
  }

  function Times(x: Key, b: Bit): Key {
    if b == 1 then x else ZeroKey()
  }

  /** What all parties together know about a gate. */
  datatype GateInput = GateInput(left: Bit, right: Bit, out: Bit, zero: Keys, tuples: seq<seq<PRFTuple>>)

  ghost predicate Valid(g: GateInput, n: nat) {
    |g.zero| == n && TuplesFor(g.tuples, n)
  }

  // ----- what a gate puts into every queue -----

  ghost function Flat<T>(rows: seq<seq<T>>): seq<T> {
    if rows == [] then [] else rows[0] + Flat(rows[1..])
  }

  lemma {:induction false} FlatSnoc<T>(rows: seq<seq<T>>, row: seq<T>)
    ensures Flat(rows + [row]) == Flat(rows) + row
  {
    if rows == [] {
      assert [row][1..] == [];
    } else {
      assert (rows + [row])[1..] == rows[1..] + [row];
      FlatSnoc(rows[1..], row);
    }
  }

  ghost function PrfRow(g: GateInput, n: nat, i: nat, k: nat): (row: seq<Key>)
    requires Valid(g, n) && i < n && k < 4
    ensures |row| == n
  {
    seq<Key>(n, j requires 0 <= j < n => ForGarbling(g.tuples[i][j], k))
  }

  ghost function PrfRows(g: GateInput, n: nat, i: nat, k: nat): (rows: seq<seq<Key>>)
    requires Valid(g, n) && i < n && k <= 4
    ensures |rows| == k
  {
    seq(k, l requires 0 <= l < k => PrfRow(g, n, i, l))
  }

  /** Everything that party `i` inputs for a gate. */
  ghost function Inputs(g: GateInput, n: nat, i: nat): seq<Key>
    requires Valid(g, n) && i < n
  {
    [g.zero[i]] + Flat(PrfRows(g, n, i, 4))
  }

  /** The bit that entry `k` = 2 alpha + beta encodes: the and of the unmasked inputs, masked for the output. */
  function EntryBit(g: GateInput, k: nat): Bit
    requires k < 4
  {
    OutIndex([0, 0, 0, 1], g.left, g.right, g.out, k)
  }

  ghost function DeltaRow(g: GateInput, deltas: Keys, k: nat): (row: seq<Key>)
    requires k < 4
    ensures |row| == |deltas|
  {
    seq<Key>(|deltas|, j requires 0 <= j < |deltas| => Times(deltas[j], EntryBit(g, k)))
  }

  ghost function DeltaRows(g: GateInput, deltas: Keys, k: nat): (rows: seq<seq<Key>>)
    requires k <= 4
    ensures |rows| == k
  {
    seq(k, l requires 0 <= l < k => DeltaRow(g, deltas, l))
  }

  /** The table that a dealer with the same keys and masks would send. */
  ghost function DealerTable(g: GateInput, deltas: Keys): (t: Table)
    requires Valid(g, |deltas|)
    ensures Square(t, 4, |deltas|)
  {
    TableOf(g.tuples, [0, 0, 0, 1], Wire(g.left, []), Wire(g.right, []), Wire(g.out, [g.zero, XorKeys(g.zero, deltas)]), |deltas|)
  }

  /** Masked inputs, protocol products: queues that are filled before an exchange and emptied after it. */
  class Inputter {
    var queues: seq<seq<Key>>

    constructor (n: nat)
      ensures |queues| == n && forall i: nat :: i < n ==> queues[i] == []
    {
      queues := seq(n, _ => []);
    }

    /** Every party adds one value of its own. */
    method AddFromAll(values: Keys)
      requires |values| == |queues|
      modifies this
      ensures |queues| == |values| && forall i: nat :: i < |queues| ==> queues[i] == old(queues[i]) + [values[i]]
    {
      var qs := queues;
      queues := seq(|qs|, i requires 0 <= i < |qs| && |values| == |qs| => qs[i] + [values[i]]);
    }

    method Finalize(i: nat) returns (x: Key)
      requires i < |queues| && queues[i] != []
      modifies this
      ensures x == old(queues[i][0]) && queues == old(queues)[i := old(queues[i][1..])]
    {
      x := queues[i][0];
      queues := queues[i := queues[i][1..]];
    }
  }

  class Protocol {
    const mul: Product
    var products: seq<Key>

    constructor (mul: Product)
      ensures products == [] && this.mul == mul
    {
      this.mul, products := mul, [];
    }

    method PrepareMul(x: Key, y: Key)
      modifies this
      ensures products == old(products) + [mul(x, y)]
    {
      products := products + [mul(x, y)];
    }

    method FinalizeMul() returns (x: Key)
      requires products != []
      modifies this
      ensures x == old(products)[0] && products == old(products)[1..]
    {
      x := products[0];
      products := products[1..];
    }
  }

  datatype GarbleJob = GarbleJob(u: Key, v: Key, w: Key)

  /** RealGarbleWire.hpp:10-31 at all parties: what is queued for a gate. */
  method GarbleWire(g: GateInput, n: nat, inputter: Inputter, protocol: Protocol) returns (job: GarbleJob)
    requires Valid(g, n) && |inputter.queues| == n
    modifies inputter, protocol
    ensures |inputter.queues| == n && forall i: nat :: i < n ==> inputter.queues[i] == old(inputter.queues[i]) + Inputs(g, n, i)
    ensures protocol.products == old(protocol.products) + [protocol.mul(BitKey(g.left), BitKey(g.right))]
    ensures job == GarbleJob(BitKey(g.left), BitKey(g.right), BitKey(g.out))
  {
    hide Xor, ForGarbling;
    inputter.AddFromAll(g.zero);
    for k := 0 to 4
      invariant |inputter.queues| == n && protocol.products == old(protocol.products)
      invariant forall i: nat :: i < n ==> inputter.queues[i] == old(inputter.queues[i]) + ([g.zero[i]] + Flat(PrfRows(g, n, i, k)))
    {
      label L:
      for j := 0 to n
        invariant |inputter.queues| == n && protocol.products == old(protocol.products)
        invariant forall i: nat :: i < n ==> inputter.queues[i] == old@L(inputter.queues[i]) + PrfRow(g, n, i, k)[..j]
      {
        inputter.AddFromAll(seq<Key>(n, i requires 0 <= i < n && Valid(g, n) => ForGarbling(g.tuples[i][j], k)));
      }
      forall i: nat | i < n ensures Flat(PrfRows(g, n, i, k + 1)) == Flat(PrfRows(g, n, i, k)) + PrfRow(g, n, i, k) {
        MoreRows(g, n, i, k);
      }
    }
    protocol.PrepareMul(BitKey(g.left), BitKey(g.right));
    job := GarbleJob(BitKey(g.left), BitKey(g.right), BitKey(g.out));
  }

  lemma MoreRows(g: GateInput, n: nat, i: nat, k: nat)
    requires Valid(g, n) && i < n && k < 4
    ensures Flat(PrfRows(g, n, i, k + 1)) == Flat(PrfRows(g, n, i, k)) + PrfRow(g, n, i, k)
  {
    hide PrfRow;
    FlatSnoc(PrfRows(g, n, i, k), PrfRow(g, n, i, k));
    assert PrfRows(g, n, i, k + 1) == PrfRows(g, n, i, k) + [PrfRow(g, n, i, k)];
  }

  lemma BitsInField(a: Bit, b: Bit)
    ensures Xor(BitKey(a), BitKey(b)) == BitKey(BitXor(a, b))
  {
    XorSelf(BitKey(a));
    XorSelf(BitKey(b));
  }

  lemma BitProduct(mul: Product, a: Bit, b: Bit)
    requires HasZeroAndOne(mul)
    ensures mul(BitKey(a), BitKey(b)) == BitKey(BitAnd(a, b))
  {
  }

  lemma BitTimes(a: Bit, b: Bit)
    ensures Times(BitKey(a), b) == BitKey(BitAnd(a, b))
  {
  }

  lemma EntryInBits(g: GateInput, a: Bit, b: Bit)
    ensures BitXor(BitXor(BitXor(BitXor(BitAnd(g.left, g.right), BitAnd(g.right, a)), BitAnd(g.left, b)), BitAnd(a, b)), g.out)
      == EntryBit(g, Row(a, b))
  {
    AndOfUnmasked(g.left, g.right, a, b);
    EntryIsAnd(g, a, b);
  }

  lemma AndOfUnmasked(l: Bit, r: Bit, a: Bit, b: Bit)
    ensures BitXor(BitXor(BitXor(BitAnd(l, r), BitAnd(r, a)), BitAnd(l, b)), BitAnd(a, b)) == BitAnd(BitXor(l, a), BitXor(r, b))
  {
  }

  lemma EntryIsAnd(g: GateInput, a: Bit, b: Bit)
    ensures EntryBit(g, Row(a, b)) == BitXor(BitAnd(BitXor(g.left, a), BitXor(g.right, b)), g.out)
  {
    hide BitXor;
    var k, l, r := Row(a, b), BitXor(g.left, a), BitXor(g.right, b);
    assert k / 2 == a && k % 2 == b;
    assert Row(l, r) == 3 <==> l == 1 && r == 1;
  }

  /** The field expression of the middle round is the entry's bit. */
  lemma EntryInField(g: GateInput, mul: Product, a: Bit, b: Bit)
    requires HasZeroAndOne(mul)
    ensures var (u, v, w) := (BitKey(g.left), BitKey(g.right), BitKey(g.out));
      Xor(Xor(Xor(Xor(mul(u, v), Times(v, a)), Times(u, b)), BitKey(BitAnd(a, b))), w) == BitKey(EntryBit(g, Row(a, b)))
  {
    hide *;
    var uv, va, ub, ab := BitAnd(g.left, g.right), BitAnd(g.right, a), BitAnd(g.left, b), BitAnd(a, b);
    BitProduct(mul, g.left, g.right);
    BitTimes(g.right, a);
    BitTimes(g.left, b);
    BitsInField(uv, va);
    BitsInField(BitXor(uv, va), ub);
    BitsInField(BitXor(BitXor(uv, va), ub), ab);
    BitsInField(BitXor(BitXor(BitXor(uv, va), ub), ab), g.out);
    EntryInBits(g, a, b);
  }

  lemma MoreDeltaRows(g: GateInput, deltas: Keys, k: nat)
    requires k < 4
    ensures Flat(DeltaRows(g, deltas, k + 1)) == Flat(DeltaRows(g, deltas, k)) + DeltaRow(g, deltas, k)
  {
    hide DeltaRow;
    FlatSnoc(DeltaRows(g, deltas, k), DeltaRow(g, deltas, k));
    assert DeltaRows(g, deltas, k + 1) == DeltaRows(g, deltas, k) + [DeltaRow(g, deltas, k)];
  }

  lemma NoDeltaRows(g: GateInput, deltas: Keys)
    ensures Flat(DeltaRows(g, deltas, 0)) == []
  {
  }

  /** Lines 57-63 */
  method MiddleRow(deltas: Keys, second: Protocol, entry: Key, ghost g: GateInput, ghost k: nat)
    requires k < 4 && HasZeroAndOne(second.mul) && entry == BitKey(EntryBit(g, k))
    modifies second
    ensures second.products == old(second.products) + DeltaRow(g, deltas, k)
  {
    hide EntryBit;
    for j := 0 to |deltas|
      invariant second.products == old(second.products) + DeltaRow(g, deltas, k)[..j]
    {
      second.PrepareMul(deltas[j], entry);
    }
  }

  /** RealGarbleWire.hpp:39-64 */
  method MiddleRound(job: GarbleJob, deltas: Keys, protocol: Protocol, second: Protocol, ghost g: GateInput)
    requires protocol != second && HasZeroAndOne(second.mul) && protocol.mul == second.mul
    requires job == GarbleJob(BitKey(g.left), BitKey(g.right), BitKey(g.out))
    requires protocol.products != [] && protocol.products[0] == protocol.mul(job.u, job.v)
    modifies protocol, second
    ensures protocol.products == old(protocol.products)[1..]
    ensures second.products == old(second.products) + Flat(DeltaRows(g, deltas, 4))
  {
    hide Xor, EntryBit, Flat, DeltaRow, HasZeroAndOne, BitKey, Times;
    NoDeltaRows(g, deltas);
    var uv := protocol.FinalizeMul();
    for alpha := 0 to 2
      invariant protocol.products == old(protocol.products)[1..]
      invariant second.products == old(second.products) + Flat(DeltaRows(g, deltas, 2 * alpha))
    {
      for beta := 0 to 2
        invariant protocol.products == old(protocol.products)[1..]
        invariant second.products == old(second.products) + Flat(DeltaRows(g, deltas, 2 * alpha + beta))
      {
        var entry := Xor(Xor(Xor(Xor(uv, Times(job.v, alpha)), Times(job.u, beta)), BitKey(BitAnd(alpha, beta))), job.w);
        EntryInField(g, second.mul, alpha, beta);
        MiddleRow(deltas, second, entry, g, 2 * alpha + beta);
        MoreDeltaRows(g, deltas, 2 * alpha + beta);
      }
    }
  }

  // ----- the last round -----

  /** What is left of a queue while entry `k` for receiver `j` is put together. */
  ghost function Left(rows: seq<seq<Key>>, k: nat, j: nat): seq<Key>
    requires |rows| == 4 && k <= 4 && (k < 4 ==> j <= |rows[k]|) && (k == 4 ==> j == 0)
  {
    if k == 4 then [] else rows[k][j..] + Flat(rows[k + 1..])
  }

  lemma DropOne<T>(s: seq<T>, j: nat, tail: seq<T>)
    requires j < |s|
    ensures s[j..] + tail == [s[j]] + (s[j + 1..] + tail)
  {
  }

  lemma FlatFrom<T>(rows: seq<seq<T>>, k: nat)
    requires k <= |rows|
    ensures Flat(rows[k..]) == if k == |rows| then [] else rows[k][0..] + Flat(rows[k + 1..])
  {
    if k < |rows| {
      assert rows[k..][0] == rows[k] == rows[k][0..] && rows[k..][1..] == rows[k + 1..];
    }
  }

  lemma NoneLeft<T>(s: seq<T>, tail: seq<T>)
    ensures s[|s|..] + tail == tail
  {
  }

  lemma LeftSteps(rows: seq<seq<Key>>, k: nat, j: nat)
    requires |rows| == 4 && k < 4 && j <= |rows[k]|
    ensures j < |rows[k]| ==> Left(rows, k, j) == [rows[k][j]] + Left(rows, k, j + 1)
    ensures j == |rows[k]| ==> Left(rows, k, j) == Left(rows, k + 1, 0)
  {
    hide Flat;
    var tail := Flat(rows[k + 1..]);
    if j < |rows[k]| {
      DropOne(rows[k], j, tail);
    } else {
      NoneLeft(rows[k], tail);
      FlatFrom(rows, k + 1);
    }
  }

  ghost predicate InputsAt(queues: seq<seq<Key>>, g: GateInput, n: nat, k: nat, j: nat, inputsLeft: seq<seq<Key>>)
    requires Valid(g, n) && k <= 4 && j <= n && (k == 4 ==> j == 0) && |inputsLeft| == n
  {
    |queues| == n && forall i: nat :: i < n ==> queues[i] == Left(PrfRows(g, n, i, 4), k, j) + inputsLeft[i]
  }

  ghost predicate ProductsAt(products: seq<Key>, g: GateInput, deltas: Keys, k: nat, j: nat, productsLeft: seq<Key>)
    requires k <= 4 && j <= |deltas| && (k == 4 ==> j == 0)
  {
    products == Left(DeltaRows(g, deltas, 4), k, j) + productsLeft
  }

  /** Lines 73-75 */
  method BaseKeys(inputter: Inputter, n: nat, ghost g: GateInput, ghost inputsLeft: seq<seq<Key>>) returns (baseKeys: Keys)
    requires Valid(g, n) && |inputter.queues| == |inputsLeft| == n
    requires forall i: nat :: i < n ==> inputter.queues[i] == Inputs(g, n, i) + inputsLeft[i]
    modifies inputter
    ensures baseKeys == g.zero && InputsAt(inputter.queues, g, n, 0, 0, inputsLeft)
  {
    hide PrfRow, Flat;
    baseKeys := [];
    for i := 0 to n
      invariant |inputter.queues| == n && baseKeys == g.zero[..i]
      invariant forall l: nat :: i <= l < n ==> inputter.queues[l] == Inputs(g, n, l) + inputsLeft[l]
      invariant forall l: nat :: l < i ==> inputter.queues[l] == Flat(PrfRows(g, n, l, 4)) + inputsLeft[l]
    {
      var key := inputter.Finalize(i);
      baseKeys := baseKeys + [key];
    }
    forall i: nat | i < n ensures Flat(PrfRows(g, n, i, 4)) == Left(PrfRows(g, n, i, 4), 0, 0) {
      FromTheStart(PrfRows(g, n, i, 4));
    }
  }

  lemma FromTheStart(rows: seq<seq<Key>>)
    requires |rows| == 4
    ensures Flat(rows) == Left(rows, 0, 0)
  {
  }

  /** Lines 80-85: the shares of one entry, added up. */
  method LastEntry(inputter: Inputter, second: Protocol, n: nat, baseKey: Key, ghost k: nat, ghost j: nat,
                   ghost g: GateInput, ghost deltas: Keys, ghost inputsLeft: seq<seq<Key>>, ghost productsLeft: seq<Key>)
    returns (wire: Key)
    requires Valid(g, n) && |deltas| == |inputsLeft| == n && k < 4 && j < n && baseKey == g.zero[j]
    requires InputsAt(inputter.queues, g, n, k, j, inputsLeft) && ProductsAt(second.products, g, deltas, k, j, productsLeft)
    modifies inputter, second
    ensures InputsAt(inputter.queues, g, n, k, j + 1, inputsLeft) && ProductsAt(second.products, g, deltas, k, j + 1, productsLeft)
    ensures wire == DealerTable(g, deltas)[k][j]
  {
    hide Xor, EntryBit, ForGarbling, Flat, DealerTable, Left;
    wire := ZeroKey();
    for i := 0 to n
      invariant |inputter.queues| == n && second.products == old(second.products)
      invariant forall l: nat :: i <= l < n ==> inputter.queues[l] == Left(PrfRows(g, n, l, 4), k, j) + inputsLeft[l]
      invariant forall l: nat :: l < i ==> inputter.queues[l] == Left(PrfRows(g, n, l, 4), k, j + 1) + inputsLeft[l]
      invariant wire == PrfSum(g.tuples, n, i, k, j)
    {
      LeftSteps(PrfRows(g, n, i, 4), k, j);
      var share := inputter.Finalize(i);
      wire := Xor(wire, share);
    }
    LeftSteps(DeltaRows(g, deltas, 4), k, j);
    DealerEntry(g, deltas, k, j);
    var product := second.FinalizeMul();
    wire := Xor(Xor(wire, baseKey), product);
  }

  lemma DealerEntry(g: GateInput, deltas: Keys, k: nat, j: nat)
    requires Valid(g, |deltas|) && k < 4 && j < |deltas|
    ensures DealerTable(g, deltas)[k][j] ==
      Xor(Xor(PrfSum(g.tuples, |deltas|, |deltas|, k, j), g.zero[j]), Times(deltas[j], EntryBit(g, k)))
  {
    hide Xor, PrfSum;
    var sum, zero := PrfSum(g.tuples, |deltas|, |deltas|, k, j), g.zero[j];
    XorAssoc(sum, zero, Times(deltas[j], EntryBit(g, k)));
    XorSelf(zero);
  }

  method LastRow(inputter: Inputter, second: Protocol, wires: seq<Key>, n: nat, baseKeys: Keys, ghost k: nat, ghost g: GateInput,
                 ghost deltas: Keys, ghost inputsLeft: seq<seq<Key>>, ghost productsLeft: seq<Key>)
    returns (wires': seq<Key>)
    requires Valid(g, n) && |deltas| == |inputsLeft| == n && k < 4 && baseKeys == g.zero
    requires InputsAt(inputter.queues, g, n, k, 0, inputsLeft) && ProductsAt(second.products, g, deltas, k, 0, productsLeft)
    modifies inputter, second
    ensures InputsAt(inputter.queues, g, n, k + 1, 0, inputsLeft) && ProductsAt(second.products, g, deltas, k + 1, 0, productsLeft)
    ensures wires' == wires + DealerTable(g, deltas)[k]
  {
    hide Xor, EntryBit, ForGarbling, Flat, Left, DealerTable, InputsAt, ProductsAt;
    wires' := wires;
    ghost var row := DealerTable(g, deltas)[k];
    for j := 0 to n
      invariant InputsAt(inputter.queues, g, n, k, j, inputsLeft) && ProductsAt(second.products, g, deltas, k, j, productsLeft)
      invariant wires' == wires + row[..j]
    {
      var wire := LastEntry(inputter, second, n, baseKeys[j], k, j, g, deltas, inputsLeft, productsLeft);
      wires' := wires' + [wire];
    }
    NextRow(inputter.queues, second.products, g, n, k, deltas, inputsLeft, productsLeft);
  }

  lemma NextRow(queues: seq<seq<Key>>, products: seq<Key>, g: GateInput, n: nat, k: nat, deltas: Keys,
                inputsLeft: seq<seq<Key>>, productsLeft: seq<Key>)
    requires Valid(g, n) && |deltas| == |inputsLeft| == n && k < 4
    requires InputsAt(queues, g, n, k, n, inputsLeft) && ProductsAt(products, g, deltas, k, n, productsLeft)
    ensures InputsAt(queues, g, n, k + 1, 0, inputsLeft) && ProductsAt(products, g, deltas, k + 1, 0, productsLeft)
  {
    hide Left;
    forall i: nat | i < n ensures Left(PrfRows(g, n, i, 4), k, n) == Left(PrfRows(g, n, i, 4), k + 1, 0) {
      LeftSteps(PrfRows(g, n, i, 4), k, n);
    }
    LeftSteps(DeltaRows(g, deltas, 4), k, n);
  }

  /** RealGarbleWire.hpp:66-87: the opened rows of one job. */
  method LastRound(inputter: Inputter, second: Protocol, wires: seq<Key>, n: nat, ghost g: GateInput, ghost deltas: Keys,
                   ghost inputsLeft: seq<seq<Key>>, ghost productsLeft: seq<Key>)
    returns (wires': seq<Key>)
    requires Valid(g, n) && |deltas| == n && |inputter.queues| == |inputsLeft| == n
    requires forall i: nat :: i < n ==> inputter.queues[i] == Inputs(g, n, i) + inputsLeft[i]
    requires second.products == Flat(DeltaRows(g, deltas, 4)) + productsLeft
    modifies inputter, second
    ensures inputter.queues == inputsLeft && second.products == productsLeft
    ensures wires' == wires + Flat(DealerTable(g, deltas))
  {
    hide Xor, EntryBit, ForGarbling, Flat, DealerTable, PrfRow, DeltaRow, InputsAt, ProductsAt;
    var baseKeys := BaseKeys(inputter, n, g, inputsLeft);
    wires' := wires;
    ghost var table := DealerTable(g, deltas);
    FirstRow(second.products, g, deltas, productsLeft, table);
    for k := 0 to 4
      invariant InputsAt(inputter.queues, g, n, k, 0, inputsLeft) && ProductsAt(second.products, g, deltas, k, 0, productsLeft)
      invariant wires' == wires + Flat(table[..k])
    {
      wires' := LastRow(inputter, second, wires', n, baseKeys, k, g, deltas, inputsLeft, productsLeft);
      FlatSnoc(table[..k], table[k]);
      assert table[..k + 1] == table[..k] + [table[k]];
    }
    assert table[..4] == table;
    AllTaken(inputter.queues, second.products, g, n, deltas, inputsLeft, productsLeft);
  }

  lemma FirstRow(products: seq<Key>, g: GateInput, deltas: Keys, productsLeft: seq<Key>, table: Table)
    requires products == Flat(DeltaRows(g, deltas, 4)) + productsLeft
    ensures ProductsAt(products, g, deltas, 0, 0, productsLeft) && Flat(table[..0]) == []
  {
    FromTheStart(DeltaRows(g, deltas, 4));
  }

  lemma AllTaken(queues: seq<seq<Key>>, products: seq<Key>, g: GateInput, n: nat, deltas: Keys,
                 inputsLeft: seq<seq<Key>>, productsLeft: seq<Key>)
    requires Valid(g, n) && |inputsLeft| == n
    requires InputsAt(queues, g, n, 4, 0, inputsLeft) && ProductsAt(products, g, deltas, 4, 0, productsLeft)
    ensures queues == inputsLeft && products == productsLeft
  {
    forall i: nat | i < n ensures queues[i] == inputsLeft[i] {
      assert Left(PrfRows(g, n, i, 4), 4, 0) == [];
    }
  }

  // ----- all jobs of one phase -----

  ghost predicate AllValid(gates: seq<GateInput>, n: nat) {
    forall k: nat :: k < |gates| ==> Valid(gates[k], n)
  }

  ghost function InputsOf(gates: seq<GateInput>, n: nat, i: nat): nat -> seq<Key>
    requires AllValid(gates, n) && i < n
  {
    (k: nat) => if k < |gates| then Inputs(gates[k], n, i) else []
  }

  ghost function ProductsOf(gates: seq<GateInput>, mul: Product): nat -> seq<Key> {
    (k: nat) => if k < |gates| then [mul(BitKey(gates[k].left), BitKey(gates[k].right))] else []
  }

  ghost function DeltasOf(gates: seq<GateInput>, deltas: Keys): nat -> seq<Key> {
    (k: nat) => if k < |gates| then Flat(DeltaRows(gates[k], deltas, 4)) else []
  }

  /** The dealer's tables, gate by gate, as they are sent in the other protocol. */
  ghost function DealerOf(gates: seq<GateInput>, deltas: Keys): nat -> seq<Key>
    requires AllValid(gates, |deltas|)
  {
    (k: nat) => if k < |gates| then Flat(DealerTable(gates[k], deltas)) else []
  }

  /** RealProgramParty.hpp:165-209: for every sequence of gates, what is opened is exactly what the dealer would
      have sent, so all queues are read in the order in which they were filled. */
  method GarbleAll(gates: seq<GateInput>, n: nat, deltas: Keys, mul: Product) returns (rows: seq<Key>)
    requires AllValid(gates, n) && |deltas| == n && HasZeroAndOne(mul)
    ensures rows == Upto(DealerOf(gates, deltas), |gates|)
  {
    hide *;
    var inputter := new Inputter(n);
    var protocol := new Protocol(mul);
    var jobs := FirstPhase(gates, n, inputter, protocol);
    var second := new Protocol(mul);
    MiddleRounds(gates, jobs, deltas, protocol, second);
    rows := LastRounds(gates, n, deltas, inputter, second);
  }

  ghost predicate JobsOf(jobs: seq<GarbleJob>, gates: seq<GateInput>) {
    && |jobs| == |gates|
    && forall k: nat :: k < |gates| ==> jobs[k] == GarbleJob(BitKey(gates[k].left), BitKey(gates[k].right), BitKey(gates[k].out))
  }

  method FirstPhase(gates: seq<GateInput>, n: nat, inputter: Inputter, protocol: Protocol) returns (jobs: seq<GarbleJob>)
    requires AllValid(gates, n) && |inputter.queues| == n && protocol.products == []
    requires forall i: nat :: i < n ==> inputter.queues[i] == []
    modifies inputter, protocol
    ensures JobsOf(jobs, gates) && protocol.products == Upto(ProductsOf(gates, protocol.mul), |gates|)
    ensures |inputter.queues| == n && forall i: nat :: i < n ==> inputter.queues[i] == Upto(InputsOf(gates, n, i), |gates|)
  {
    hide Inputs, BitKey;
    jobs := [];
    for k := 0 to |gates|
      invariant JobsOf(jobs, gates[..k]) && protocol.products == Upto(ProductsOf(gates, protocol.mul), k)
      invariant |inputter.queues| == n && forall i: nat :: i < n ==> inputter.queues[i] == Upto(InputsOf(gates, n, i), k)
    {
      var job := GarbleWire(gates[k], n, inputter, protocol);
      jobs := jobs + [job];
    }
    assert gates[..|gates|] == gates;
  }

  method MiddleRounds(gates: seq<GateInput>, jobs: seq<GarbleJob>, deltas: Keys, protocol: Protocol, second: Protocol)
    requires protocol != second && protocol.mul == second.mul && HasZeroAndOne(second.mul) && JobsOf(jobs, gates)
    requires protocol.products == Upto(ProductsOf(gates, protocol.mul), |gates|) && second.products == []
    modifies protocol, second
    ensures second.products == Upto(DeltasOf(gates, deltas), |gates|)
  {
    hide BitKey, Flat, DeltaRows, HasZeroAndOne;
    Delivered(ProductsOf(gates, protocol.mul), |gates|);
    for k := 0 to |gates|
      invariant protocol.products == From(ProductsOf(gates, protocol.mul), k, |gates|)
      invariant second.products == Upto(DeltasOf(gates, deltas), k)
    {
      MiddleRound(jobs[k], deltas, protocol, second, gates[k]);
    }
  }

  lemma LastStart(gates: seq<GateInput>, deltas: Keys)
    requires AllValid(gates, |deltas|)
    ensures Upto(DealerOf(gates, deltas), 0) == []
  {
  }

  lemma InputsStep(gates: seq<GateInput>, n: nat, i: nat, k: nat)
    requires AllValid(gates, n) && i < n && k < |gates|
    ensures Valid(gates[k], n)
    ensures From(InputsOf(gates, n, i), k, |gates|) == Inputs(gates[k], n, i) + From(InputsOf(gates, n, i), k + 1, |gates|)
  {
    hide Inputs, Valid;
  }

  lemma LastStep(gates: seq<GateInput>, deltas: Keys, k: nat)
    requires AllValid(gates, |deltas|) && k < |gates|
    ensures Valid(gates[k], |deltas|)
    ensures From(DeltasOf(gates, deltas), k, |gates|) == Flat(DeltaRows(gates[k], deltas, 4)) + From(DeltasOf(gates, deltas), k + 1, |gates|)
    ensures Upto(DealerOf(gates, deltas), k + 1) == Upto(DealerOf(gates, deltas), k) + Flat(DealerTable(gates[k], deltas))
  {
    hide Flat, DealerTable, DeltaRows, Valid;
  }

  method LastRounds(gates: seq<GateInput>, n: nat, deltas: Keys, inputter: Inputter, second: Protocol) returns (wires: seq<Key>)
    requires AllValid(gates, n) && |deltas| == n && second.products == Upto(DeltasOf(gates, deltas), |gates|)
    requires |inputter.queues| == n && forall i: nat :: i < n ==> inputter.queues[i] == Upto(InputsOf(gates, n, i), |gates|)
    modifies inputter, second
    ensures wires == Upto(DealerOf(gates, deltas), |gates|)
  {
    hide *;
    LastStart(gates, deltas);
    forall i: nat | i < n ensures Upto(InputsOf(gates, n, i), |gates|) == From(InputsOf(gates, n, i), 0, |gates|) {
      Delivered(InputsOf(gates, n, i), |gates|);
    }
    Delivered(DeltasOf(gates, deltas), |gates|);
    wires := [];
    for k := 0 to |gates|
      invariant |inputter.queues| == n && forall i: nat :: i < n ==> inputter.queues[i] == From(InputsOf(gates, n, i), k, |gates|)
      invariant second.products == From(DeltasOf(gates, deltas), k, |gates|) && wires == Upto(DealerOf(gates, deltas), k)
    {
      LastStep(gates, deltas, k);
      forall i: nat | i < n ensures From(InputsOf(gates, n, i), k, |gates|) == Inputs(gates[k], n, i) + From(InputsOf(gates, n, i), k + 1, |gates|) {
        InputsStep(gates, n, i, k);
      }
      ghost var inputsLeft := seq(n, i requires 0 <= i < n => From(InputsOf(gates, n, i), k + 1, |gates|));
      wires := LastRound(inputter, second, wires, n, gates[k], deltas, inputsLeft, From(DeltasOf(gates, deltas), k + 1, |gates|));
    }
  }
}
