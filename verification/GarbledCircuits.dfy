/** Whole circuits through the four phases of BMR: the dealer's randomness, every party's pseudo-random values,
    the dealer's tables, and one party's evaluation. Phases only meet in first-in first-out messages. */
module GarbledCircuits {
  import opened Bits
  import opened GarblingKeys
  import opened GarbledGates
  import opened Queues

  /** Every instruction names the wire it makes; `Output` opens an earlier wire and passes it on. */
  datatype Instr =
    | And(func: Function, left: nat, right: nat)
    | XorGate(left: nat, right: nat)
    | Input(from: nat)
    | Public(value: Bit)
    | RandomBit
    | Output(wire: nat)

  /** A circuit with everything that is chosen for one run; `inputs[k]` is what is entered at instruction `k`. */
  datatype Setup = Setup(c: seq<Instr>, n: nat, prf: Prf, deltas: Keys, coins: seq<Coin>, inputs: seq<Bit>)

  predicate InstrOk(i: Instr, k: nat, n: nat) {
    match i
    case And(_, l, r) => l < k && r < k
    case XorGate(l, r) => l < k && r < k
    case Input(from) => from < n
    case Output(w) => w < k
    case _ => true
  }

  ghost predicate Valid(s: Setup) {
    && |s.deltas| == s.n && |s.coins| == |s.inputs| == |s.c|
    && (forall k: nat :: k < |s.c| ==> InstrOk(s.c[k], k, s.n) && |s.coins[k].zero| == s.n)
    && (forall j: nat :: j < s.n ==> GetSignal(s.deltas[j]) == 1)
  }

  /** What the circuit computes in the clear. */
  ghost function Value(s: Setup, k: nat): Bit
    requires Valid(s) && k < |s.c|
  {
    assert InstrOk(s.c[k], k, s.n);
    match s.c[k]
    case And(func, l, r) => func[Row(Value(s, l), Value(s, r))]
    case XorGate(l, r) => BitXor(Value(s, l), Value(s, r))
    case Input(_) => s.inputs[k]
    case Public(value) => value
    case RandomBit => s.coins[k].mask
    case Output(w) => Value(s, w)
  }

  /** The wire made by instruction `k`, as the dealer has it. */
  ghost function WireOf(s: Setup, k: nat): (w: Wire)
    requires Valid(s) && k < |s.c|
    ensures Square(w.keys, 2, s.n)
  {
    assert InstrOk(s.c[k], k, s.n);
    match s.c[k]
    case XorGate(l, r) =>
      Wire(BitXor(WireOf(s, l).mask, WireOf(s, r).mask), FreeXor(WireOf(s, l).keys[0], WireOf(s, r).keys[0], s.deltas))
    case Public(value) => Wire(0, PublicKeys(value, s.deltas))
    case Output(w) => WireOf(s, w)
    case _ => Wire(s.coins[k].mask, FreshKeys(s.coins[k].zero, s.deltas))
  }

  ghost function GateNumber(s: Setup, k: nat): nat
    requires k <= |s.c|
  {
    if k == 0 then 0 else GateNumber(s, k - 1) + if s.c[k - 1].And? then 1 else 0
  }

  // ----- the messages of each phase, instruction by instruction -----

  /** The dealer keeps the wires for the garbling phase: BMR/Register.cpp:702-763. */
  function StoredOf(i: Instr, w: Wire): seq<Wire> {
    if i.XorGate? || i.Output? then [] else [w]
  }

  /** Both keys of party `p`, and for a random bit everybody's first keys: BMR/TrustedParty.h:107-118. */
  function KeysOf(i: Instr, w: Wire, p: nat): seq<Key>
    requires |w.keys| == 2 && p < |w.keys[0]| && p < |w.keys[1]|
  {
    if i.XorGate? || i.Output? || i.Public? then []
    else [w.keys[0][p], w.keys[1][p]] + if i.RandomBit? then w.keys[0] else []
  }

  function InputMaskOf(i: Instr, w: Wire, p: nat): seq<Bit> {
    if i == Input(p) then [w.mask] else []
  }

  function OutputMaskOf(i: Instr, w: Wire): seq<Bit> {
    if i.Output? then [w.mask] else []
  }

  /** What party `p` keeps for its evaluation: BMR/Register.cpp:431-491. */
  function OwnKeysOf(i: Instr, own: Key, all: Keys): seq<Key> {
    if i.Input? || i.Output? then [own] else if i.RandomBit? then [own] + all else []
  }

  ghost function Stored(s: Setup): nat -> seq<Wire>
    requires Valid(s)
  {
    (k: nat) => if k < |s.c| then StoredOf(s.c[k], WireOf(s, k)) else []
  }

  ghost function KeysFor(s: Setup, p: nat): nat -> seq<Key>
    requires Valid(s) && p < s.n
  {
    (k: nat) => if k < |s.c| then KeysOf(s.c[k], WireOf(s, k), p) else []
  }

  ghost function InputMasks(s: Setup, p: nat): nat -> seq<Bit>
    requires Valid(s)
  {
    (k: nat) => if k < |s.c| then InputMaskOf(s.c[k], WireOf(s, k), p) else []
  }

  ghost function OutputMasks(s: Setup): nat -> seq<Bit>
    requires Valid(s)
  {
    (k: nat) => if k < |s.c| then OutputMaskOf(s.c[k], WireOf(s, k)) else []
  }

  /** The tuple of party `p` for receiver `j`. */
  ghost function TupleFor(s: Setup, left: Wire, right: Wire, g: nat, p: nat, j: nat): PRFTuple
    requires Square(left.keys, 2, s.n) && Square(right.keys, 2, s.n) && p < s.n
  {
    seq<Key>(8, i requires 0 <= i < 8 => Encrypted(s.prf, left.keys, right.keys, g, p, i, j))
  }

  ghost function GateTuples(s: Setup, k: nat, p: nat): (t: seq<PRFTuple>)
    requires Valid(s) && k < |s.c| && s.c[k].And? && p < s.n
    ensures |t| == s.n
  {
    assert InstrOk(s.c[k], k, s.n);
    seq<PRFTuple>(s.n, j requires 0 <= j < s.n => TupleFor(s, WireOf(s, s.c[k].left), WireOf(s, s.c[k].right), GateNumber(s, k) + 1, p, j))
  }

  ghost function Tuples(s: Setup, p: nat): nat -> seq<PRFTuple>
    requires Valid(s) && p < s.n
  {
    (k: nat) => if k < |s.c| && s.c[k].And? then GateTuples(s, k, p) else []
  }

  ghost function OwnKeys(s: Setup, p: nat): nat -> seq<Key>
    requires Valid(s) && p < s.n
  {
    (k: nat) => if k < |s.c| then OwnKeysOf(s.c[k], WireOf(s, k).keys[0][p], WireOf(s, k).keys[0]) else []
  }

  ghost function AllTuples(s: Setup, k: nat): (t: seq<seq<PRFTuple>>)
    requires Valid(s) && k < |s.c| && s.c[k].And?
    ensures TuplesFor(t, s.n)
  {
    seq(s.n, p requires 0 <= p < s.n => GateTuples(s, k, p))
  }

  ghost function GateTable(s: Setup, k: nat): (t: Table)
    requires Valid(s) && k < |s.c| && s.c[k].And?
  {
    assert InstrOk(s.c[k], k, s.n);
    TableOf(AllTuples(s, k), s.c[k].func, WireOf(s, s.c[k].left), WireOf(s, s.c[k].right), WireOf(s, k), s.n)
  }

  ghost function Tables(s: Setup): nat -> seq<Table>
    requires Valid(s)
  {
    (k: nat) => if k < |s.c| && s.c[k].And? then [GateTable(s, k)] else []
  }

  ghost function Outputs(s: Setup): nat -> seq<Bit>
    requires Valid(s)
  {
    (k: nat) => if k < |s.c| && s.c[k].Output? then [Value(s, k)] else []
  }

  // ----- what holds on every wire -----

  /** Free XOR: the two keys of a wire differ by the party's delta. */
  lemma {:induction false} KeysDifferByDelta(s: Setup, k: nat)
    requires Valid(s) && k < |s.c|
    ensures WireOf(s, k).keys[1] == XorKeys(WireOf(s, k).keys[0], s.deltas)
  {
    assert InstrOk(s.c[k], k, s.n);
    match s.c[k]
    case Output(w) => KeysDifferByDelta(s, w);
    case Public(value) =>
      var keys := PublicKeys(value, s.deltas);
      forall j: nat | j < s.n ensures keys[1][j] == Xor(keys[0][j], s.deltas[j]) {
        XorSelf(s.deltas[j]);
      }
    case _ =>
  }

  /** An odd number of public ones goes into the wire, by way of exclusive ors only. */
  ghost predicate OddOnes(s: Setup, k: nat)
    requires Valid(s) && k < |s.c|
  {
    assert InstrOk(s.c[k], k, s.n);
    match s.c[k]
    case Public(value) => value == 1
    case XorGate(l, r) => OddOnes(s, l) != OddOnes(s, r)
    case Output(w) => OddOnes(s, w)
    case _ => false
  }

  /** The signal bit of a key is its index, turned around by every public one. */
  lemma {:induction false} SignalOfKey(s: Setup, k: nat, b: Bit, j: nat)
    requires Valid(s) && k < |s.c| && j < s.n
    ensures GetSignal(WireOf(s, k).keys[b][j]) == if OddOnes(s, k) then BitNot(b) else b
  {
    hide Xor, GetSignal, ZeroSignal;
    assert InstrOk(s.c[k], k, s.n);
    KeysDifferByDelta(s, k);
    SignalOfXor(WireOf(s, k).keys[0][j], s.deltas[j]);
    FirstSignal(s, k, j);
  }

  lemma {:induction false} FirstSignal(s: Setup, k: nat, j: nat)
    requires Valid(s) && k < |s.c| && j < s.n
    ensures GetSignal(WireOf(s, k).keys[0][j]) == if OddOnes(s, k) then 1 else 0
  {
    assert InstrOk(s.c[k], k, s.n);
    match s.c[k]
    case XorGate(l, r) =>
      hide Xor, GetSignal;
      FirstSignal(s, l, j);
      FirstSignal(s, r, j);
      SignalOfXor(WireOf(s, l).keys[0][j], WireOf(s, r).keys[0][j]);
    case Output(w) => FirstSignal(s, w, j);
    case Public(value) =>
    case And(_, _, _) =>
    case Input(_) =>
    case RandomBit =>
  }

  /** The signal bits tell the indices of the keys exactly on the wires into which an even number of public ones goes:
      so on all wires made by gates, inputs and random bits, and on a public 0 but not on a public 1. */
  lemma SignalledWires(s: Setup, k: nat)
    requires Valid(s) && k < |s.c|
    ensures Signalled(WireOf(s, k), s.n) <==> s.n == 0 || !OddOnes(s, k)
  {
    hide GetSignal, OddOnes, WireOf;
    forall b: Bit, j: nat | j < s.n ensures GetSignal(WireOf(s, k).keys[b][j]) == if OddOnes(s, k) then BitNot(b) else b {
      SignalOfKey(s, k, b, j);
    }
    if s.n > 0 {
      SignalOfKey(s, k, 0, 0);
    }
  }

  /** Exclusive or costs nothing: the evaluator's keys add up to the right key. */
  lemma XorCarries(l: Wire, r: Wire, deltas: Keys, x: Bit, y: Bit, n: nat)
    requires |deltas| == n && Square(l.keys, 2, n) && Square(r.keys, 2, n)
    requires l.keys[1] == XorKeys(l.keys[0], deltas) && r.keys[1] == XorKeys(r.keys[0], deltas)
    ensures Carries(Signal(BitXor(BitXor(x, l.mask), BitXor(y, r.mask))),
                    XorKeys(l.keys[BitXor(x, l.mask)], r.keys[BitXor(y, r.mask)]),
                    Wire(BitXor(l.mask, r.mask), FreeXor(l.keys[0], r.keys[0], deltas)), BitXor(x, y))
  {
    hide Xor;
    var a, b := BitXor(x, l.mask), BitXor(y, r.mask);
    var keys := FreeXor(l.keys[0], r.keys[0], deltas);
    forall j: nat | j < n ensures Xor(l.keys[a][j], r.keys[b][j]) == keys[BitXor(a, b)][j] {
      KeysAddUp(l.keys[0][j], r.keys[0][j], deltas[j]);
    }
    assert XorKeys(l.keys[a], r.keys[b]) == keys[BitXor(a, b)];
  }

  lemma KeysAddUp(l: Key, r: Key, d: Key)
    ensures Xor(Xor(l, d), r) == Xor(Xor(l, r), d) == Xor(l, Xor(r, d))
    ensures Xor(Xor(l, d), Xor(r, d)) == Xor(l, r)
  {
    hide Xor;
    XorAssoc(l, d, r);
    XorComm(d, r);
    XorAssoc(l, r, d);
    XorSwap(l, d, r, d);
    XorSelf(d);
    XorSelf(Xor(l, r));
  }

  // ----- the phases -----

  ghost predicate Dealt(r: Register, w: Wire)
    reads r
  {
    r.mask == Signal(w.mask) && r.keys == w.keys
  }

  /** The dealer's wire for an instruction other than `Output`. */
  method RandomStep(ghost s: Setup, k: nat, i: Instr, n: nat, deltas: Keys, coin: Coin, regs: seq<Register>) returns (r: Register)
    requires Valid(s) && k < |s.c| && i == s.c[k] && !i.Output? && n == s.n && deltas == s.deltas && coin == s.coins[k]
    requires |regs| == k && forall l: nat :: l < k ==> Dealt(regs[l], WireOf(s, l))
    ensures fresh(r) && Dealt(r, WireOf(s, k))
  {
    hide FreeXor, FreshKeys, PublicKeys;
    assert InstrOk(i, k, n);
    r := new Register(n);
    if i.XorGate? {
      r.RandomXOR(regs[i.left], regs[i.right], deltas);
    } else if i.Public? {
      r.RandomPublicInput(i.value, deltas);
    } else {
      r.Randomize(coin, deltas);
    }
  }

  /** Phase one, at the dealer: BMR/Register.cpp:692-773. */
  method RandomPhase(ghost s: Setup, c: seq<Instr>, n: nat, deltas: Keys, coins: seq<Coin>)
    returns (stored: seq<Wire>, keys: seq<seq<Key>>, inputMasks: seq<seq<Bit>>, outputMasks: seq<Bit>)
    requires Valid(s) && c == s.c && n == s.n && deltas == s.deltas && coins == s.coins
    ensures stored == Upto(Stored(s), |c|) && outputMasks == Upto(OutputMasks(s), |c|) && |keys| == |inputMasks| == n
    ensures forall p: nat :: p < n ==> keys[p] == Upto(KeysFor(s, p), |c|) && inputMasks[p] == Upto(InputMasks(s, p), |c|)
  {
    hide *;
    stored, keys, inputMasks, outputMasks := [], seq(n, _ => []), seq(n, _ => []), [];
    var regs: seq<Register> := [];
    NothingSent(s);
    Sizes(s);
    for k := 0 to |c|
      invariant |regs| == k && forall l: nat :: l < k ==> fresh(regs[l]) && Dealt(regs[l], WireOf(s, l))
      invariant stored == Upto(Stored(s), k) && outputMasks == Upto(OutputMasks(s), k) && |keys| == |inputMasks| == n
      invariant forall p: nat :: p < n ==> keys[p] == Upto(KeysFor(s, p), k) && inputMasks[p] == Upto(InputMasks(s, p), k)
    {
      var r: Register;
      if c[k].Output? {
        OutputIsWire(s, k);
        r := regs[c[k].wire];
      } else {
        r := RandomStep(s, k, c[k], n, deltas, coins[k], regs);
      }
      regs := regs + [r];
      DealtWire(r, WireOf(s, k));
      var w := Wire(r.mask.bit, r.keys);
      DealerSends(s, k, w);
      stored := stored + StoredOf(c[k], w);
      outputMasks := outputMasks + OutputMaskOf(c[k], w);
      keys := SendEach(n, keys, p requires 0 <= p < n && |w.keys| == 2 && p < |w.keys[0]| && p < |w.keys[1]| => KeysOf(c[k], w, p));
      inputMasks := SendEach(n, inputMasks, p requires 0 <= p < n => InputMaskOf(c[k], w, p));
    }
  }

  /** Appends one message for every party. */
  function SendEach<T>(n: nat, queues: seq<seq<T>>, message: nat --> seq<T>): (r: seq<seq<T>>)
    requires |queues| == n && forall p: nat :: p < n ==> message.requires(p)
    ensures |r| == n && forall p: nat :: p < n ==> r[p] == queues[p] + message(p)
  {
    seq(n, p requires 0 <= p < n && message.requires(p) => queues[p] + message(p))
  }

  lemma Sizes(s: Setup)
    requires Valid(s)
    ensures |s.deltas| == s.n && |s.coins| == |s.inputs| == |s.c|
  {
  }

  lemma DealtWire(r: Register, w: Wire)
    requires Dealt(r, w)
    ensures r.mask.Signal? && Wire(r.mask.bit, r.keys) == w
  {
  }

  lemma NothingSent(s: Setup)
    requires Valid(s)
    ensures Upto(Stored(s), 0) == [] && Upto(OutputMasks(s), 0) == []
    ensures forall p: nat :: p < s.n ==> Upto(KeysFor(s, p), 0) == [] && Upto(InputMasks(s, p), 0) == []
  {
  }

  lemma DealerSends(s: Setup, k: nat, w: Wire)
    requires Valid(s) && k < |s.c| && w == WireOf(s, k)
    ensures |w.keys| == 2 && |w.keys[0]| == |w.keys[1]| == s.n
    ensures Upto(Stored(s), k + 1) == Upto(Stored(s), k) + StoredOf(s.c[k], w)
    ensures Upto(OutputMasks(s), k + 1) == Upto(OutputMasks(s), k) + OutputMaskOf(s.c[k], w)
    ensures forall p: nat :: p < s.n ==> Upto(KeysFor(s, p), k + 1) == Upto(KeysFor(s, p), k) + KeysOf(s.c[k], w, p)
    ensures forall p: nat :: p < s.n ==> Upto(InputMasks(s, p), k + 1) == Upto(InputMasks(s, p), k) + InputMaskOf(s.c[k], w, p)
  {
    hide StoredOf, OutputMaskOf, KeysOf, InputMaskOf, WireOf, Valid;
  }

  lemma OutputIsWire(s: Setup, k: nat)
    requires Valid(s) && k < |s.c| && s.c[k].Output?
    ensures s.c[k].wire < k && WireOf(s, k) == WireOf(s, s.c[k].wire) && Value(s, k) == Value(s, s.c[k].wire)
  {
    assert InstrOk(s.c[k], k, s.n);
  }

  /** Party `p` knows its own two keys of the wire. */
  ghost predicate Held(r: Register, w: Wire, p: nat, n: nat)
    reads r
  {
    && Square(r.keys, 2, n) && Square(w.keys, 2, n) && p < n
    && r.keys[0][p] == w.keys[0][p] && r.keys[1][p] == w.keys[1][p]
  }

  lemma ExactTuples(s: Setup, k: nat, p: nat, left: seq<Keys>, right: seq<Keys>, tuples: seq<PRFTuple>)
    requires Valid(s) && k < |s.c| && s.c[k].And? && p < s.n && InstrOk(s.c[k], k, s.n) && |tuples| == s.n
    requires Square(left, 2, s.n) && Square(right, 2, s.n)
    requires forall b: Bit :: left[b][p] == WireOf(s, s.c[k].left).keys[b][p] && right[b][p] == WireOf(s, s.c[k].right).keys[b][p]
    requires forall j: nat :: j < s.n ==> TupleOf(tuples[j], s.prf, left, right, GateNumber(s, k) + 1, p, j)
    ensures tuples == GateTuples(s, k, p)
  {
    hide WireOf, GateNumber, Valid;
    forall j: nat | j < s.n ensures tuples[j] == GateTuples(s, k, p)[j] {
      var t := tuples[j];
      var l, r, g := WireOf(s, s.c[k].left), WireOf(s, s.c[k].right), GateNumber(s, k) + 1;
      assert TupleOf(t, s.prf, left, right, g, p, j);
      ExactTuple(t, s, l, r, left, right, g, p, j);
    }
  }

  lemma ExactTuple(t: PRFTuple, s: Setup, l: Wire, r: Wire, left: seq<Keys>, right: seq<Keys>, g: nat, p: nat, j: nat)
    requires Square(left, 2, s.n) && Square(right, 2, s.n) && Square(l.keys, 2, s.n) && Square(r.keys, 2, s.n) && p < s.n
    requires forall b: Bit :: left[b][p] == l.keys[b][p] && right[b][p] == r.keys[b][p]
    requires TupleOf(t, s.prf, left, right, g, p, j)
    ensures t == TupleFor(s, l, r, g, p, j)
  {
    hide TupleOf;
    forall i: nat | i < 8 ensures t[i] == Encrypted(s.prf, l.keys, r.keys, g, p, i, j) {
      TupleEntries(t, s.prf, left, right, g, p, j, i);
    }
  }

  /** One instruction of the second phase at party `p`, with the messages it consumes: BMR/Register.cpp:437-491, 799-804. */
  method PRFStep(ghost s: Setup, k: nat, i: Instr, n: nat, prf: Prf, p: nat, delta: Key, keys: seq<Key>, gate: nat, regs: seq<Register>)
    returns (r: Register, used: nat, tuples: seq<PRFTuple>)
    requires Valid(s) && k < |s.c| && i == s.c[k] && !i.Output? && n == s.n && prf == s.prf && p < n && delta == s.deltas[p]
    requires i.And? ==> gate == GateNumber(s, k) + 1
    requires KeysOf(i, WireOf(s, k), p) <= keys
    requires |regs| == k && forall l: nat :: l < k ==> Held(regs[l], WireOf(s, l), p, n)
    ensures fresh(r) && Held(r, WireOf(s, k), p, n) && used == |KeysOf(i, WireOf(s, k), p)|
    ensures i.RandomBit? ==> r.keys[0] == WireOf(s, k).keys[0]
    ensures tuples == if i.And? then GateTuples(s, k, p) else []
  {
    hide Xor, ZeroSignal, GetSignal, FreshKeys, GateTuples, GateNumber, TupleOf;
    assert InstrOk(i, k, n);
    ghost var w := WireOf(s, k);
    r := new Register(n);
    used, tuples := 0, [];
    if i.XorGate? {
      r.PRFXOR(regs[i.left], regs[i.right], p, delta);
    } else if i.Public? {
      if i.value == 0 {
        r.SetOwnKeys(p, ZeroKey(), delta);
      } else {
        r.SetOwnKeys(p, delta, ZeroKey());
      }
    } else {
      hide WireOf;
      assert keys[0] == w.keys[0][p] && keys[1] == w.keys[1][p];
      r.SetOwnKeys(p, keys[0], keys[1]);
      used := 2;
      if i.RandomBit? {
        assert keys[2..2 + n] == w.keys[0];
        r.ReceiveAllKeys(keys[2..2 + n]);
        used := 2 + n;
      } else if i.And? {
        tuples := ComputePrfsOutputs(prf, regs[i.left], regs[i.right], p, n, gate);
        ExactTuples(s, k, p, regs[i.left].keys, regs[i.right].keys, tuples);
      }
    }
  }

  lemma HeldKey(r: Register, w: Wire, p: nat, n: nat)
    requires Held(r, w, p, n)
    ensures |r.keys| == 2 && |w.keys| == 2 && p < |r.keys[0]| && p < |w.keys[0]| && r.keys[0][p] == w.keys[0][p]
  {
  }

  lemma MoreKeys(s: Setup, k: nat, p: nat)
    requires Valid(s) && k < |s.c| && p < s.n
    ensures var w := WireOf(s, k);
      |w.keys| == 2 && |w.keys[0]| == |w.keys[1]| == s.n && From(KeysFor(s, p), k, |s.c|) == KeysOf(s.c[k], w, p) + From(KeysFor(s, p), k + 1, |s.c|)
  {
    hide KeysOf, WireOf;
  }

  lemma PartySends(s: Setup, k: nat, p: nat, own: Key, all: Keys, tuples: seq<PRFTuple>)
    requires Valid(s) && k < |s.c| && p < s.n && own == WireOf(s, k).keys[0][p] && (s.c[k].RandomBit? ==> all == WireOf(s, k).keys[0])
    requires tuples == if s.c[k].And? then GateTuples(s, k, p) else []
    ensures Upto(Tuples(s, p), k + 1) == Upto(Tuples(s, p), k) + tuples
    ensures Upto(OwnKeys(s, p), k + 1) == Upto(OwnKeys(s, p), k) + OwnKeysOf(s.c[k], own, all)
  {
    hide WireOf, GateTuples;
  }

  lemma QueueEnds(s: Setup, p: nat)
    requires Valid(s) && p < s.n
    ensures Upto(Tuples(s, p), 0) == [] && Upto(OwnKeys(s, p), 0) == []
    ensures GateNumber(s, 0) == 0 && forall k: nat :: k < |s.c| ==> InstrOk(s.c[k], k, s.n)
    ensures forall k: nat :: k < |s.c| ==> GateNumber(s, k + 1) == GateNumber(s, k) + if s.c[k].And? then 1 else 0
  {
  }

  /** Phase two, at party `p`, from the keys it received to the values it sends and the keys it keeps. */
  method PRFPhase(ghost s: Setup, c: seq<Instr>, n: nat, prf: Prf, p: nat, delta: Key, keys: seq<Key>)
    returns (tuples: seq<PRFTuple>, own: seq<Key>)
    requires Valid(s) && c == s.c && n == s.n && prf == s.prf && p < n && delta == s.deltas[p]
    requires keys == From(KeysFor(s, p), 0, |c|)
    ensures tuples == Upto(Tuples(s, p), |c|) && own == Upto(OwnKeys(s, p), |c|)
  {
    hide *;
    tuples, own := [], [];
    var queue := keys;
    var gate := 0;
    var regs: seq<Register> := [];
    QueueEnds(s, p);
    for k := 0 to |c|
      invariant |regs| == k && forall l: nat :: l < k ==> fresh(regs[l]) && Held(regs[l], WireOf(s, l), p, n)
      invariant gate == GateNumber(s, k) && queue == From(KeysFor(s, p), k, |c|)
      invariant tuples == Upto(Tuples(s, p), k) && own == Upto(OwnKeys(s, p), k)
    {
      MoreKeys(s, k, p);
      var r: Register;
      var more: seq<PRFTuple> := [];
      if c[k].Output? {
        OutputIsWire(s, k);
        NoKeys(c[k], WireOf(s, k), p);
        r := regs[c[k].wire];
      } else {
        if c[k].And? {
          gate := gate + 1;
        }
        var used: nat;
        r, used, more := PRFStep(s, k, c[k], n, prf, p, delta, queue, gate, regs);
        queue := queue[used..];
      }
      regs := regs + [r];
      HeldKey(r, WireOf(s, k), p, n);
      PartySends(s, k, p, r.keys[0][p], r.keys[0], more);
      tuples := tuples + more;
      own := own + OwnKeysOf(c[k], r.keys[0][p], r.keys[0]);
    }
  }

  lemma NoKeys(i: Instr, w: Wire, p: nat)
    requires i.Output? && |w.keys| == 2 && p < |w.keys[0]| && p < |w.keys[1]|
    ensures KeysOf(i, w, p) == []
  {
  }

  // ----- the dealer's tables -----

  ghost predicate Masked(r: Register, w: Wire)
    reads r
  {
    r.mask == Signal(w.mask)
  }

  /** One instruction of the third phase: BMR/Register.cpp:298-305, 740-768, 794-797. */
  method GarbleStep(ghost s: Setup, k: nat, i: Instr, n: nat, stored: seq<Wire>, prfOutputs: array<seq<PRFTuple>>, regs: seq<Register>)
    returns (r: Register, used: nat, tables: seq<Table>)
    requires Valid(s) && k < |s.c| && i == s.c[k] && !i.Output? && n == s.n
    requires StoredOf(i, WireOf(s, k)) <= stored
    requires |regs| == k && forall l: nat :: l < k ==> Masked(regs[l], WireOf(s, l))
    requires prfOutputs.Length == n && (i.And? ==> forall p: nat :: p < n ==> |prfOutputs[p]| >= n && GateTuples(s, k, p) <= prfOutputs[p])
    modifies prfOutputs
    ensures fresh(r) && Masked(r, WireOf(s, k)) && used == |StoredOf(i, WireOf(s, k))|
    ensures forall p: nat :: p < n ==> prfOutputs[p] == if i.And? then old(prfOutputs[p])[n..] else old(prfOutputs[p])
    ensures tables == if i.And? then [GateTable(s, k)] else []
  {
    hide Xor, FreshKeys, FreeXor, PublicKeys;
    assert InstrOk(i, k, n);
    r := new Register(n);
    used, tables := 0, [];
    if i.XorGate? {
      r.GarbleXOR(regs[i.left], regs[i.right]);
      return;
    }
    assert stored[0] == WireOf(s, k);
    r.LoadWire(stored[0]);
    used := 1;
    if i.And? {
      ghost var before := prfOutputs[..];
      var table := r.Garble(regs[i.left], regs[i.right], i.func, n, prfOutputs);
      ExactTable(s, k, before, table);
      tables := [table];
    }
  }

  lemma ExactTable(s: Setup, k: nat, prfs: seq<seq<PRFTuple>>, table: Table)
    requires Valid(s) && k < |s.c| && s.c[k].And? && InstrOk(s.c[k], k, s.n) && Square(table, 4, s.n)
    requires |prfs| == s.n && forall p: nat :: p < s.n ==> |prfs[p]| >= s.n && GateTuples(s, k, p) <= prfs[p]
    requires var tuples := Heads(prfs, s.n);
      Garbles(table, tuples, s.c[k].func, WireOf(s, s.c[k].left), WireOf(s, s.c[k].right), WireOf(s, k), s.n)
    ensures table == GateTable(s, k)
  {
    hide Garbles, WireOf, GateTuples;
    forall p: nat | p < s.n ensures prfs[p][..s.n] == GateTuples(s, k, p) {
      assert |GateTuples(s, k, p)| == s.n;
    }
    assert Heads(prfs, s.n) == AllTuples(s, k);
    OneTable(table, AllTuples(s, k), s.c[k].func, WireOf(s, s.c[k].left), WireOf(s, s.c[k].right), WireOf(s, k), s.n);
  }

  lemma MoreForGarbling(s: Setup, k: nat)
    requires Valid(s) && k < |s.c|
    ensures From(Stored(s), k, |s.c|) == StoredOf(s.c[k], WireOf(s, k)) + From(Stored(s), k + 1, |s.c|)
    ensures forall p: nat :: p < s.n ==>
      From(Tuples(s, p), k, |s.c|) == (if s.c[k].And? then GateTuples(s, k, p) else []) + From(Tuples(s, p), k + 1, |s.c|)
    ensures Upto(Tables(s), k + 1) == Upto(Tables(s), k) + if s.c[k].And? then [GateTable(s, k)] else []
    ensures s.c[k].Output? ==> StoredOf(s.c[k], WireOf(s, k)) == []
    ensures s.c[k].And? ==> forall p: nat :: p < s.n ==> |GateTuples(s, k, p)| == s.n
  {
    hide WireOf, GateTuples, GateTable;
  }

  /** Phase three, at the dealer, from the stored wires and everybody's values to the tables. */
  method GarblePhase(ghost s: Setup, c: seq<Instr>, n: nat, stored: seq<Wire>, prfs: seq<seq<PRFTuple>>) returns (tables: seq<Table>)
    requires Valid(s) && c == s.c && n == s.n && stored == From(Stored(s), 0, |c|)
    requires |prfs| == n && forall p: nat :: p < n ==> prfs[p] == From(Tuples(s, p), 0, |c|)
    ensures tables == Upto(Tables(s), |c|)
  {
    hide *;
    tables := [];
    NoTables(s);
    var prfOutputs := new seq<PRFTuple>[n](p requires 0 <= p < n && |prfs| == n => prfs[p]);
    var queue := stored;
    var regs: seq<Register> := [];
    for k := 0 to |c|
      invariant |regs| == k && forall l: nat :: l < k ==> fresh(regs[l]) && Masked(regs[l], WireOf(s, l))
      invariant queue == From(Stored(s), k, |c|) && tables == Upto(Tables(s), k)
      invariant forall p: nat :: p < n ==> prfOutputs[p] == From(Tuples(s, p), k, |c|)
    {
      MoreForGarbling(s, k);
      var r: Register;
      if c[k].Output? {
        OutputIsWire(s, k);
        r := regs[c[k].wire];
      } else {
        var used: nat;
        var more: seq<Table>;
        r, used, more := GarbleStep(s, k, c[k], n, queue, prfOutputs, regs);
        queue := queue[used..];
        tables := tables + more;
      }
      regs := regs + [r];
    }
  }

  lemma NoTables(s: Setup)
    requires Valid(s)
    ensures Upto(Tables(s), 0) == []
  {
  }

  // ----- evaluation -----

  /** The right external value and the right key of every party. */
  ghost predicate Evaluated(r: Register, s: Setup, k: nat)
    requires Valid(s) && k < |s.c|
    reads r
  {
    Square(r.keys, 2, s.n) && Carries(r.external, r.garbledEntry, WireOf(s, k), Value(s, k))
  }

  /** A party that loaded its own keys answers an external value with the key for it. */
  function Label(zero: Key, delta: Key, ext: Bit): Key {
    if ext == 0 then zero else Xor(zero, delta)
  }

  /** A gate at evaluator `me`: BMR/Register.cpp:205-219. */
  method EvalGate(ghost s: Setup, k: nat, i: Instr, n: nat, prf: Prf, me: nat, table: Table, gate: nat, regs: seq<Register>)
    returns (r: Register)
    requires Valid(s) && k < |s.c| && i == s.c[k] && i.And? && n == s.n && prf == s.prf && me < n
    requires gate == GateNumber(s, k) + 1 && table == GateTable(s, k)
    requires |regs| == k && forall l: nat :: l < k ==> Evaluated(regs[l], s, l)
    ensures fresh(r) && Evaluated(r, s, k)
  {
    hide Xor, GetSignal, GateTable, Garbles, TuplesOf, GateNumber;
    assert InstrOk(i, k, n);
    r := new Register(n);
    assert Square(table, 4, n) && Garbles(table, AllTuples(s, k), i.func, WireOf(s, i.left), WireOf(s, i.right), WireOf(s, k), n) by {
      TableOfGate(s, k);
    }
    var left, right := regs[i.left], regs[i.right];
    assert Evaluated(left, s, i.left) && Evaluated(right, s, i.right);
    r.Eval(left, right, table, prf, gate, n, me);
    SignalledWires(s, k);
    TuplesAreOfWires(s, k);
    GateIsCorrect(prf, gate, n, me, i.func, WireOf(s, i.left), WireOf(s, i.right), WireOf(s, k),
                  AllTuples(s, k), table, Value(s, i.left), Value(s, i.right), r.garbledEntry);
  }

  lemma TableOfGate(s: Setup, k: nat)
    requires Valid(s) && k < |s.c| && s.c[k].And?
    ensures InstrOk(s.c[k], k, s.n) && Square(GateTable(s, k), 4, s.n)
    ensures Garbles(GateTable(s, k), AllTuples(s, k), s.c[k].func, WireOf(s, s.c[k].left), WireOf(s, s.c[k].right), WireOf(s, k), s.n)
  {
    hide Garbles, WireOf;
  }

  lemma TuplesAreOfWires(s: Setup, k: nat)
    requires Valid(s) && k < |s.c| && s.c[k].And?
    ensures InstrOk(s.c[k], k, s.n)
    ensures TuplesOf(AllTuples(s, k), s.prf, WireOf(s, s.c[k].left).keys, WireOf(s, s.c[k].right).keys, GateNumber(s, k) + 1, s.n)
  {
    hide WireOf, GateNumber, TupleOf, Encrypted;
    var l, r, g := WireOf(s, s.c[k].left), WireOf(s, s.c[k].right), GateNumber(s, k) + 1;
    var tuples := AllTuples(s, k);
    forall p: nat, j: nat | p < s.n && j < s.n ensures TupleOf(tuples[p][j], s.prf, l.keys, r.keys, g, p, j) {
      assert tuples[p][j] == TupleFor(s, l, r, g, p, j);
      EncryptedTuple(tuples[p][j], s.prf, l.keys, r.keys, g, p, j);
    }
  }

  /** BMR/Register.cpp:826-829 */
  method EvalXorGate(ghost s: Setup, k: nat, i: Instr, n: nat, regs: seq<Register>) returns (r: Register)
    requires Valid(s) && k < |s.c| && i == s.c[k] && i.XorGate? && n == s.n
    requires |regs| == k && forall l: nat :: l < k ==> Evaluated(regs[l], s, l)
    ensures fresh(r) && Evaluated(r, s, k)
  {
    hide Xor, FreeXor, GetSignal;
    assert InstrOk(i, k, n);
    r := new Register(n);
    var left, right := regs[i.left], regs[i.right];
    assert Evaluated(left, s, i.left) && Evaluated(right, s, i.right);
    r.EvalXOR(left, right);
    KeysDifferByDelta(s, i.left);
    KeysDifferByDelta(s, i.right);
    XorCarries(WireOf(s, i.left), WireOf(s, i.right), s.deltas, Value(s, i.left), Value(s, i.right), n);
  }

  /** BMR/Register.cpp:675-682 */
  method EvalPublic(ghost s: Setup, k: nat, i: Instr, n: nat) returns (r: Register)
    requires Valid(s) && k < |s.c| && i == s.c[k] && i.Public? && n == s.n
    ensures fresh(r) && Evaluated(r, s, k)
  {
    r := new Register(n);
    r.EvalPublicInput(i.value, n);
    assert r.garbledEntry == PublicKeys(i.value, s.deltas)[i.value];
  }

  /** BMR/Register.cpp:684-690: everybody knows the first keys, and only the mask is random. */
  method EvalRandom(ghost s: Setup, k: nat, i: Instr, n: nat, me: nat, delta: Key, own: seq<Key>) returns (r: Register)
    requires Valid(s) && k < |s.c| && i == s.c[k] && i.RandomBit? && n == s.n && me < n
    requires delta == s.deltas[me] && |WireOf(s, k).keys[0]| == n
    requires [WireOf(s, k).keys[0][me]] + WireOf(s, k).keys[0] <= own
    ensures fresh(r) && Evaluated(r, s, k)
  {
    hide Xor, FreshKeys, GetSignal;
    r := new Register(n);
    ghost var w := WireOf(s, k);
    assert own[0] == w.keys[0][me] && own[1..1 + n] == w.keys[0];
    r.LoadOwnKeys(me, own[0], delta);
    r.ReceiveAllKeys(own[1..1 + n]);
    r.SetExternal(0);
  }

  /** An input at evaluator `me`, with the external value from its owner and the labels from everybody:
      BMR/Register.cpp:600-667. */
  method EvalInput(ghost s: Setup, k: nat, i: Instr, n: nat, me: nat, deltas: Keys, zeros: Keys, inputMask: Bit, value: Bit)
    returns (r: Register)
    requires Valid(s) && k < |s.c| && i == s.c[k] && i.Input? && n == s.n && me < n && deltas == s.deltas
    requires zeros == WireOf(s, k).keys[0] && inputMask == WireOf(s, k).mask && value == s.inputs[k]
    ensures fresh(r) && Evaluated(r, s, k)
  {
    hide Xor, FreshKeys, GetSignal;
    r := new Register(n);
    r.LoadOwnKeys(me, zeros[me], deltas[me]);
    var ext := BitXor(inputMask, value);
    if me == i.from {
      r.SetMask(inputMask);
    }
    r.SetExternal(ext);
    var labels: Keys := seq<Key>(n, j requires 0 <= j < n && |zeros| == |deltas| == n => Label(zeros[j], deltas[j], ext));
    r.FinalizeInput(labels, me);
    KeysDifferByDelta(s, k);
    assert labels == WireOf(s, k).keys[ext];
  }

  /** An output at evaluator `me`: BMR/Register.cpp:775-785. It never throws. */
  method EvalOutput(ghost s: Setup, k: nat, wire: nat, n: nat, me: nat, delta: Key, zero: Key, outputMask: Bit, regs: seq<Register>)
    returns (ok: bool, value: Bit)
    requires Valid(s) && k < |s.c| && s.c[k] == Output(wire) && n == s.n && me < n && delta == s.deltas[me]
    requires |regs| == k && wire < k && forall l: nat :: l < k ==> Evaluated(regs[l], s, l)
    requires zero == WireOf(s, k).keys[0][me] && outputMask == WireOf(s, k).mask
    modifies regs[wire]
    ensures ok && value == Value(s, k)
    ensures forall l: nat :: l < k ==> Evaluated(regs[l], s, l)
    ensures Evaluated(regs[wire], s, k)
  {
    hide Xor, WireOf, Value;
    OutputIsWire(s, k);
    var r := regs[wire];
    assert Evaluated(r, s, wire);
    KeysDifferByDelta(s, k);
    r.LoadOwnKeys(me, zero, delta);
    r.SetMask(outputMask);
    ok := r.CheckSignalKey(me);
    value := BitXor(r.mask.bit, r.external.bit);
    forall l: nat | l < k ensures Evaluated(regs[l], s, l) {
      assert old(Evaluated(regs[l], s, l));
    }
  }

  /** What the evaluators take from their queues for one instruction. */
  lemma MoreForEval(s: Setup, k: nat)
    requires Valid(s) && k < |s.c|
    ensures |WireOf(s, k).keys| == 2 && |WireOf(s, k).keys[0]| == s.n
    ensures forall p: nat :: p < s.n ==> (From(OwnKeys(s, p), k, |s.c|) ==
      OwnKeysOf(s.c[k], WireOf(s, k).keys[0][p], WireOf(s, k).keys[0]) + From(OwnKeys(s, p), k + 1, |s.c|))
    ensures forall p: nat :: p < s.n ==> (From(InputMasks(s, p), k, |s.c|) ==
      InputMaskOf(s.c[k], WireOf(s, k), p) + From(InputMasks(s, p), k + 1, |s.c|))
    ensures From(OutputMasks(s), k, |s.c|) == OutputMaskOf(s.c[k], WireOf(s, k)) + From(OutputMasks(s), k + 1, |s.c|)
    ensures From(Tables(s), k, |s.c|) == (if s.c[k].And? then [GateTable(s, k)] else []) + From(Tables(s), k + 1, |s.c|)
    ensures Upto(Outputs(s), k + 1) == Upto(Outputs(s), k) + if s.c[k].Output? then [Value(s, k)] else []
  {
    hide WireOf, GateTable, OwnKeysOf, InputMaskOf, OutputMaskOf, Value;
  }

  function Advance<T>(queues: seq<seq<T>>, m: nat): (r: seq<seq<T>>)
    requires forall p: nat :: p < |queues| ==> m <= |queues[p]|
    ensures |r| == |queues| && forall p: nat :: p < |r| ==> r[p] == queues[p][m..]
  {
    seq(|queues|, p requires 0 <= p < |queues| && m <= |queues[p]| => queues[p][m..])
  }

  function Fronts<T>(queues: seq<seq<T>>): (r: seq<T>)
    requires forall p: nat :: p < |queues| ==> 0 < |queues[p]|
    ensures |r| == |queues| && forall p: nat :: p < |r| ==> r[p] == queues[p][0]
  {
    seq(|queues|, p requires 0 <= p < |queues| && 0 < |queues[p]| => queues[p][0])
  }

  /** Everything the evaluators still have to read when instruction `k` is next. */
  ghost predicate Queued(s: Setup, k: nat, tables: seq<Table>, own: seq<seq<Key>>, inputMasks: seq<seq<Bit>>, outputMasks: seq<Bit>)
    requires Valid(s) && k <= |s.c|
  {
    && tables == From(Tables(s), k, |s.c|) && outputMasks == From(OutputMasks(s), k, |s.c|)
    && |own| == |inputMasks| == s.n
    && (forall p: nat :: p < s.n ==> own[p] == From(OwnKeys(s, p), k, |s.c|))
    && (forall p: nat :: p < s.n ==> inputMasks[p] == From(InputMasks(s, p), k, |s.c|))
  }

  /** The readings of one instruction, by kind. */
  lemma Reads(s: Setup, k: nat, tables: seq<Table>, own: seq<seq<Key>>, inputMasks: seq<seq<Bit>>, outputMasks: seq<Bit>)
    requires Valid(s) && k < |s.c| && Queued(s, k, tables, own, inputMasks, outputMasks)
    ensures |own| == |inputMasks| == s.n
    ensures |WireOf(s, k).keys| == 2 && |WireOf(s, k).keys[0]| == s.n
    ensures s.c[k].And? ==>
      tables != [] && tables[0] == GateTable(s, k) && Queued(s, k + 1, tables[1..], own, inputMasks, outputMasks)
    ensures s.c[k].XorGate? || s.c[k].Public? ==> Queued(s, k + 1, tables, own, inputMasks, outputMasks)
    ensures s.c[k].Input? || s.c[k].Output? ==> forall p: nat :: p < s.n ==> own[p] != [] && own[p][0] == WireOf(s, k).keys[0][p]
    ensures s.c[k].Input? ==> (
      && s.c[k].from < s.n && inputMasks[s.c[k].from] != [] && inputMasks[s.c[k].from][0] == WireOf(s, k).mask
      && Fronts(own) == WireOf(s, k).keys[0]
      && Queued(s, k + 1, tables, Advance(own, 1), inputMasks[s.c[k].from := inputMasks[s.c[k].from][1..]], outputMasks))
    ensures s.c[k].RandomBit? ==> (
      && (forall p: nat :: p < s.n ==> |own[p]| >= 1 + s.n && [WireOf(s, k).keys[0][p]] + WireOf(s, k).keys[0] <= own[p])
      && Queued(s, k + 1, tables, Advance(own, 1 + s.n), inputMasks, outputMasks))
    ensures s.c[k].Output? ==> (
      && outputMasks != [] && outputMasks[0] == WireOf(s, k).mask
      && Queued(s, k + 1, tables, Advance(own, 1), inputMasks, outputMasks[1..]))
  {
    hide WireOf, GateTable, Value, From, Upto;
    MoreForEval(s, k);
    assert InstrOk(s.c[k], k, s.n);
  }

  /** Phase four, at evaluator `me`: every output is the plain value, and no check ever throws. */
  method EvalPhase(ghost s: Setup, c: seq<Instr>, n: nat, prf: Prf, deltas: Keys, me: nat, inputs: seq<Bit>,
                   tables: seq<Table>, own: seq<seq<Key>>, inputMasks: seq<seq<Bit>>, outputMasks: seq<Bit>)
    returns (ok: bool, outputs: seq<Bit>)
    requires Valid(s) && c == s.c && n == s.n && prf == s.prf && deltas == s.deltas && inputs == s.inputs && me < n
    requires Queued(s, 0, tables, own, inputMasks, outputMasks)
    ensures ok && outputs == Upto(Outputs(s), |c|)
  {
    hide *;
    ok, outputs := true, [];
    var (tables', own', inputMasks', outputMasks') := (tables, own, inputMasks, outputMasks);
    var regs: seq<Register> := [];
    var gate := 0;
    QueueEnds(s, me);
    Sizes(s);
    NoOutputs(s);
    for k := 0 to |c|
      invariant |regs| == k && forall l: nat :: l < k ==> fresh(regs[l]) && Evaluated(regs[l], s, l)
      invariant gate == GateNumber(s, k) && ok && outputs == Upto(Outputs(s), k)
      invariant Queued(s, k, tables', own', inputMasks', outputMasks')
    {
      Reads(s, k, tables', own', inputMasks', outputMasks');
      MoreForEval(s, k);
      var r: Register;
      if c[k].And? {
        gate := gate + 1;
        r := EvalGate(s, k, c[k], n, prf, me, tables'[0], gate, regs);
        tables' := tables'[1..];
      } else if c[k].XorGate? {
        r := EvalXorGate(s, k, c[k], n, regs);
      } else if c[k].Public? {
        r := EvalPublic(s, k, c[k], n);
      } else if c[k].RandomBit? {
        r := EvalRandom(s, k, c[k], n, me, deltas[me], own'[me]);
        own' := Advance(own', 1 + n);
      } else if c[k].Input? {
        var from := c[k].from;
        r := EvalInput(s, k, c[k], n, me, deltas, Fronts(own'), inputMasks'[from][0], inputs[k]);
        own', inputMasks' := Advance(own', 1), inputMasks'[from := inputMasks'[from][1..]];
      } else {
        OutputIsWire(s, k);
        IsOutput(c[k]);
        var value: Bit;
        var good: bool;
        good, value := EvalOutput(s, k, c[k].wire, n, me, deltas[me], own'[me][0], outputMasks'[0], regs);
        r := regs[c[k].wire];
        ok := ok && good;
        outputs := outputs + [value];
        own', outputMasks' := Advance(own', 1), outputMasks'[1..];
      }
      regs := regs + [r];
    }
  }

  lemma NoOutputs(s: Setup)
    requires Valid(s)
    ensures Upto(Outputs(s), 0) == []
  {
  }

  lemma IsOutput(i: Instr)
    requires i.Output?
    ensures i == Output(i.wire)
  {
  }

  /** All four phases: whatever the circuit, the number of parties, the pseudo-random function, the keys, the
      deltas, the masks and the inputs, evaluator `me` opens exactly the outputs of the circuit in the clear. */
  method Run(s: Setup, me: nat) returns (ok: bool, outputs: seq<Bit>)
    requires Valid(s) && me < s.n
    ensures ok && outputs == Upto(Outputs(s), |s.c|)
  {
    hide *;
    var n := |s.c|;
    Sizes(s);
    var stored, keys, inputMasks, outputMasks := RandomPhase(s, s.c, s.n, s.deltas, s.coins);
    SentIsReceived(Stored(s), 0, n);
    var tuples: seq<seq<PRFTuple>>, own: seq<seq<Key>> := [], [];
    for p := 0 to s.n
      invariant |tuples| == |own| == p
      invariant forall q: nat :: q < p ==> tuples[q] == Upto(Tuples(s, q), n) && own[q] == Upto(OwnKeys(s, q), n)
    {
      Delivered(KeysFor(s, p), n);
      var t, o := PRFPhase(s, s.c, s.n, s.prf, p, s.deltas[p], keys[p]);
      tuples, own := tuples + [t], own + [o];
    }
    Delivered(Stored(s), n);
    forall p: nat | p < s.n
      ensures Upto(Tuples(s, p), n) == From(Tuples(s, p), 0, n) && Upto(OwnKeys(s, p), n) == From(OwnKeys(s, p), 0, n)
      ensures Upto(InputMasks(s, p), n) == From(InputMasks(s, p), 0, n) {
      Delivered(Tuples(s, p), n);
      Delivered(OwnKeys(s, p), n);
      Delivered(InputMasks(s, p), n);
    }
    Delivered(OutputMasks(s), n);
    var tables := GarblePhase(s, s.c, s.n, stored, tuples);
    Delivered(Tables(s), n);
    StartQueued(s, tables, own, inputMasks, outputMasks);
    ok, outputs := EvalPhase(s, s.c, s.n, s.prf, s.deltas, me, s.inputs, tables, own, inputMasks, outputMasks);
  }

  lemma StartQueued(s: Setup, tables: seq<Table>, own: seq<seq<Key>>, inputMasks: seq<seq<Bit>>, outputMasks: seq<Bit>)
    requires Valid(s) && tables == From(Tables(s), 0, |s.c|) && outputMasks == From(OutputMasks(s), 0, |s.c|)
    requires |own| == |inputMasks| == s.n
    requires forall p: nat :: p < s.n ==> own[p] == From(OwnKeys(s, p), 0, |s.c|) && inputMasks[p] == From(InputMasks(s, p), 0, |s.c|)
    ensures Queued(s, 0, tables, own, inputMasks, outputMasks)
  {
  }
}
