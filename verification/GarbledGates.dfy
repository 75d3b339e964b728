/** BMR/Register.cpp and BMR/GarbledGate.*: garbling and evaluating one gate with `n` parties. */
module GarbledGates {
  import opened Bits
  import opened GarblingKeys

  /** The block a key encrypts: extension bit, gate number, party number (BMR/GarbledGate.cpp:16-36). */
  datatype Block = Block(extension: Bit, gate: nat, party: nat)

  /** AES under a key. Any function at all. */
  type Prf = (Key, Block) -> Key

  /** outputs[w][b][e] of the source at 4 * w + 2 * b + e: input wire, key index, extension. */
  type PRFTuple = t: seq<Key> | |t| == 8 witness seq(8, _ => ZeroKey())

  /** The four outputs of a gate, at 2 * left + right. */
  type Function = f: seq<Bit> | |f| == 4 witness [0, 0, 0, 1]

  /** Four rows of one key per party. */
  type Table = seq<Keys>

  datatype Signal = NoSignal | Signal(bit: Bit)

  function AtOutput(w: Bit, b: Bit, e: Bit): (i: nat)
    ensures i < 8 && (i < 4 <==> w == 0) && i / 2 % 2 == b && i % 2 == e
  {
    4 * w + 2 * b + e
  }

  function Row(a: Bit, b: Bit): (k: nat)
    ensures k < 4 && k / 2 == a && k % 2 == b
  {
    2 * a + b
  }

  /** BMR/GarbledGate.h:15-20 */
  function ForGarbling(t: PRFTuple, i: nat): Key
    requires i < 4
  {
    var a, b := i / 2, i % 2;
    Xor(t[AtOutput(0, a, b)], t[AtOutput(1, b, a)])
  }

  ghost predicate Square(keys: seq<Keys>, rows: nat, n: nat) {
    |keys| == rows && forall k: nat :: k < rows ==> |keys[k]| == n
  }

  /** The tuples of every party for one gate. */
  ghost predicate TuplesFor(tuples: seq<seq<PRFTuple>>, n: nat) {
    |tuples| == n && forall i: nat :: i < n ==> |tuples[i]| == n
  }

  /** What the first `i` parties add to entry `k` of the table for party `j`. */
  ghost function PrfSum(tuples: seq<seq<PRFTuple>>, n: nat, i: nat, k: nat, j: nat): Key
    requires TuplesFor(tuples, n) && i <= n && k < 4 && j < n
  {
    if i == 0 then ZeroKey() else Xor(PrfSum(tuples, n, i - 1, k, j), ForGarbling(tuples[i - 1][j], k))
  }

  /** What an evaluator computes from the keys it holds: `a` and `b` are the signals of the inputs. */
  ghost function Unmask(prf: Prf, left: Keys, right: Keys, a: Bit, b: Bit, g: nat, i: nat, j: nat): Key
    requires |left| == |right| && i <= |left|
  {
    if i == 0 then ZeroKey()
    else Xor(Unmask(prf, left, right, a, b, g, i - 1, j),
             Xor(prf(left[i - 1], Block(b, g, j + 1)), prf(right[i - 1], Block(a, g, j + 1))))
  }

  /** Which output key entry `k` hides: the truth table on unmasked inputs, masked again. */
  function OutIndex(func: Function, maskL: Bit, maskR: Bit, maskO: Bit, k: nat): Bit
    requires k < 4
  {
    BitXor(func[Row(BitXor(maskL, k / 2), BitXor(maskR, k % 2))], maskO)
  }

  /** The tuples really are the pseudo-random values under the keys of the input wires. */
  ghost predicate TuplesOf(tuples: seq<seq<PRFTuple>>, prf: Prf, left: seq<Keys>, right: seq<Keys>, g: nat, n: nat)
    requires TuplesFor(tuples, n) && Square(left, 2, n) && Square(right, 2, n)
  {
    forall i: nat, j: nat {:trigger tuples[i][j]} :: i < n && j < n ==> TupleOf(tuples[i][j], prf, left, right, g, i, j)
  }

  ghost predicate TupleOf(t: PRFTuple, prf: Prf, left: seq<Keys>, right: seq<Keys>, g: nat, i: nat, j: nat)
    requires |left| == |right| == 2 && i < |left[0]| && i < |left[1]| && i < |right[0]| && i < |right[1]|
  {
    forall b: Bit, e: Bit ::
      && t[AtOutput(0, b, e)] == prf(left[b][i], Block(e, g, j + 1))
      && t[AtOutput(1, b, e)] == prf(right[b][i], Block(e, g, j + 1))
  }

  /** An evaluator holding the keys with signals `a` and `b` removes exactly what was added to entry 2a + b. */
  lemma {:induction false} UnmaskIsPrfSum(tuples: seq<seq<PRFTuple>>, prf: Prf, left: seq<Keys>, right: seq<Keys>,
                                          a: Bit, b: Bit, g: nat, n: nat, i: nat, j: nat)
    requires TuplesFor(tuples, n) && Square(left, 2, n) && Square(right, 2, n) && TuplesOf(tuples, prf, left, right, g, n)
    requires i <= n && j < n
    ensures Unmask(prf, left[a], right[b], a, b, g, i, j) == PrfSum(tuples, n, i, Row(a, b), j)
  {
    hide Xor;
    if i > 0 {
      UnmaskIsPrfSum(tuples, prf, left, right, a, b, g, n, i - 1, j);
      assert TupleOf(tuples[i - 1][j], prf, left, right, g, i - 1, j);
      var block0, block1 := Block(b, g, j + 1), Block(a, g, j + 1);
      assert tuples[i - 1][j][AtOutput(0, a, b)] == prf(left[a][i - 1], block0);
      assert tuples[i - 1][j][AtOutput(1, b, a)] == prf(right[b][i - 1], block1);
    }
  }

  /** The dealer's randomness for one wire. */
  datatype Coin = Coin(mask: Bit, zero: Keys)

  function ZeroSignal(k: Key): (r: Key)
    ensures GetSignal(r) == 0 && r[1..] == k[1..]
  {
    if GetSignal(k) != 0 then Xor(k, OneKey()) else k
  }

  function WithZeroSignal(zero: Keys): (r: Keys)
    ensures |r| == |zero| && forall j: nat :: j < |r| ==> r[j] == ZeroSignal(zero[j])
  {
    seq(|zero|, j requires 0 <= j < |zero| => ZeroSignal(zero[j]))
  }

  function FreshKeys(zero: Keys, deltas: Keys): (keys: seq<Keys>)
    requires |zero| == |deltas|
    ensures Square(keys, 2, |deltas|)
  {
    [WithZeroSignal(zero), XorKeys(WithZeroSignal(zero), deltas)]
  }

  function FreeXor(left: Keys, right: Keys, deltas: Keys): (keys: seq<Keys>)
    requires |left| == |right| == |deltas|
    ensures Square(keys, 2, |deltas|)
  {
    [XorKeys(left, right), XorKeys(XorKeys(left, right), deltas)]
  }

  function PublicKeys(value: Bit, deltas: Keys): (keys: seq<Keys>)
    ensures Square(keys, 2, |deltas|)
  {
    var zero: Keys := seq(|deltas|, _ => ZeroKey());
    if value == 0 then [zero, deltas] else [deltas, zero]
  }

  class Register {
    var garbledEntry: Keys
    var external: Signal
    var mask: Signal
    var keys: seq<Keys>

    constructor (n: nat)
      ensures external == mask == NoSignal && Square(keys, 2, n)
    {
      garbledEntry := [];
      external, mask := NoSignal, NoSignal;
      keys := seq(2, _ => seq(n, _ => ZeroKey()));
    }

    /** BMR/Register.cpp:36-53, 692-700: fresh keys, the index of a key in its signal bit, then free-XOR keys. */
    method Randomize(coin: Coin, deltas: Keys)
      requires |coin.zero| == |deltas|
      modifies this
      ensures mask == Signal(coin.mask) && keys == FreshKeys(coin.zero, deltas)
      ensures forall j: nat :: j < |deltas| ==> keys[0][j] == coin.zero[j][0 := false] && keys[1][j] == Xor(keys[0][j], deltas[j])
    {
      mask := Signal(coin.mask);
      var zero := coin.zero;
      for j := 0 to |zero|
        invariant |zero| == |deltas|
        invariant forall l: nat :: l < |zero| ==> zero[l] == if l < j then ZeroSignal(coin.zero[l]) else coin.zero[l]
      {
        if GetSignal(zero[j]) != 0 {
          zero := zero[j := Xor(zero[j], OneKey())];
        }
      }
      assert zero == WithZeroSignal(coin.zero);
      keys := [zero, XorKeys(zero, deltas)];
    }

    /** BMR/Register.cpp:787-792 */
    method RandomXOR(left: Register, right: Register, deltas: Keys)
      requires left.mask.Signal? && right.mask.Signal? && Square(left.keys, 2, |deltas|) && Square(right.keys, 2, |deltas|)
      modifies this
      ensures mask == Signal(BitXor(old(left.mask.bit), old(right.mask.bit)))
      ensures keys == FreeXor(old(left.keys[0]), old(right.keys[0]), deltas)
    {
      mask := Signal(BitXor(left.mask.bit, right.mask.bit));
      var zero := XorKeys(left.keys[0], right.keys[0]);
      keys := [zero, XorKeys(zero, deltas)];
    }

    /** BMR/Register.cpp:727-738: the key for the value is zero on every party. */
    method RandomPublicInput(value: Bit, deltas: Keys)
      modifies this
      ensures mask == Signal(0) && keys == PublicKeys(value, deltas)
    {
      var zero: Keys := seq(|deltas|, _ => ZeroKey());
      keys := [zero, zero];
      for i := 0 to |deltas|
        invariant Square(keys, 2, |deltas|)
        invariant keys[value] == zero && keys[1 - value][..i] == deltas[..i] && keys[1 - value][i..] == zero[i..]
      {
        var own: Keys, other: Keys := keys[value][i := ZeroKey()], keys[1 - value][i := deltas[i]];
        keys := keys[value := own][1 - value := other];
      }
      mask := Signal(0);
      assert keys[1 - value] == deltas;
    }

    /** BMR/Register.cpp:799-804: party `i` only knows its own keys. */
    method PRFXOR(left: Register, right: Register, i: nat, delta: Key)
      requires |keys| == |left.keys| == |right.keys| == 2
      requires i < |keys[0]| && i < |keys[1]| && i < |left.keys[0]| && i < |right.keys[0]|
      modifies this
      ensures keys == [old(keys[0][i := Xor(left.keys[0][i], right.keys[0][i])]),
                       old(keys[1][i := Xor(Xor(left.keys[0][i], right.keys[0][i]), delta)])]
    {
      var zero := Xor(left.keys[0][i], right.keys[0][i]);
      keys := [keys[0][i := zero], keys[1][i := Xor(zero, delta)]];
    }

    /** BMR/Register.cpp:476-483 and BMR/Party.cpp:333-339: sets the own keys, as received or of a public input. */
    method SetOwnKeys(i: nat, zero: Key, one: Key)
      requires |keys| == 2 && i < |keys[0]| && i < |keys[1]|
      modifies `keys
      ensures keys == [old(keys)[0][i := zero], old(keys)[1][i := one]]
    {
      keys := [keys[0][i := zero], keys[1][i := one]];
    }

    /** BMR/Party.cpp:345-350 */
    method ReceiveAllKeys(all: Keys)
      requires |keys| == 2
      modifies `keys
      ensures keys == old(keys)[0 := all]
    {
      keys := keys[0 := all];
    }

    /** BMR/TrustedParty.cpp:327-330: the wire that the first phase stored. */
    method LoadWire(w: Wire)
      modifies this
      ensures mask == Signal(w.mask) && keys == w.keys
    {
      mask, keys := Signal(w.mask), w.keys;
    }

    /** BMR/Register.cpp:794-797 */
    method GarbleXOR(left: Register, right: Register)
      requires left.mask.Signal? && right.mask.Signal?
      modifies this
      ensures mask == Signal(BitXor(old(left.mask.bit), old(right.mask.bit)))
    {
      mask := Signal(BitXor(left.mask.bit, right.mask.bit));
    }

    /** BMR/Party.cpp:393-397: an evaluator's own keys of a wire. */
    method LoadOwnKeys(me: nat, zero: Key, delta: Key)
      requires |keys| == 2 && me < |keys[0]| && me < |keys[1]|
      modifies `keys
      ensures keys == [old(keys)[0][me := zero], old(keys)[1][me := Xor(zero, delta)]]
    {
      keys := [keys[0][me := zero], keys[1][me := Xor(zero, delta)]];
    }

    method SetMask(m: Bit)
      modifies `mask
      ensures mask == Signal(m)
    {
      mask := Signal(m);
    }

    /** BMR/Register.cpp:82-87 */
    method SetExternal(ext: Bit)
      requires |keys| == 2
      modifies `external, `garbledEntry
      ensures external == Signal(ext) && garbledEntry == keys[ext]
    {
      external := Signal(ext);
      garbledEntry := keys[ext];
    }

    /** BMR/Register.cpp:657-667: the labels of the other parties. */
    method FinalizeInput(labels: Keys, me: nat)
      requires external.Signal? && |garbledEntry| == |labels| && |keys| == 2
      requires me < |labels| ==> garbledEntry[me] == labels[me]
      modifies `garbledEntry, `keys
      ensures garbledEntry == labels && keys == old(keys)[external.bit := labels]
    {
      for i := 0 to |labels|
        invariant keys == old(keys) && |garbledEntry| == |labels| && garbledEntry[..i] == labels[..i]
        invariant forall l: nat :: i <= l < |labels| ==> garbledEntry[l] == old(garbledEntry)[l]
      {
        if i != me {
          garbledEntry := garbledEntry[i := labels[i]];
        }
      }
      keys := keys[external.bit := garbledEntry];
    }

    /** BMR/Register.cpp:675-682 */
    method EvalPublicInput(value: Bit, n: nat)
      requires Square(keys, 2, n)
      modifies this
      ensures mask == Signal(0) && external == Signal(value) && garbledEntry == seq(n, _ => ZeroKey()) && Square(keys, 2, n)
    {
      mask := Signal(0);
      SetExternal(value);
      for i := 0 to n
        invariant mask == Signal(0) && external == Signal(value) && Square(keys, 2, n) && |garbledEntry| == n
        invariant forall l: nat :: l < i ==> garbledEntry[l] == ZeroKey()
      {
        garbledEntry := garbledEntry[i := ZeroKey()];
        var row: Keys := keys[value][i := ZeroKey()];
        keys := keys[value := row];
      }
    }

    /** BMR/Register.cpp:826-829 */
    method EvalXOR(left: Register, right: Register)
      requires left.external.Signal? && right.external.Signal? && |left.garbledEntry| == |right.garbledEntry|
      modifies this
      ensures external == Signal(BitXor(old(left.external.bit), old(right.external.bit)))
      ensures garbledEntry == XorKeys(old(left.garbledEntry), old(right.garbledEntry)) && keys == old(keys)
    {
      external := Signal(BitXor(left.external.bit, right.external.bit));
      garbledEntry := XorKeys(left.garbledEntry, right.garbledEntry);
    }

    /** BMR/Register.cpp:124-140: false where the source throws. */
    predicate CheckSignalKey(me: nat)
      requires external.Signal? && |keys| == 2 && me < |garbledEntry| && me < |keys[external.bit]|
      reads this
    {
      garbledEntry[me] == keys[external.bit][me]
    }

    /** BMR/Register.cpp:307-429. The parties' tuples are consumed from their messages. */
    method Garble(left: Register, right: Register, func: Function, n: nat, prfOutputs: array<seq<PRFTuple>>)
      returns (table: Table)
      requires left.mask.Signal? && right.mask.Signal? && mask.Signal? && Square(keys, 2, n)
      requires prfOutputs.Length == n && forall i: nat :: i < n ==> |prfOutputs[i]| >= n
      modifies prfOutputs
      ensures forall i: nat :: i < n ==> prfOutputs[i] == old(prfOutputs[i])[n..]
      ensures Square(table, 4, n)
      ensures var tuples := Heads(old(prfOutputs[..]), n);
              forall k: nat, j: nat {:trigger table[k][j]} :: k < 4 && j < n ==>
                table[k][j] == Xor(PrfSum(tuples, n, n, k, j), keys[OutIndex(func, left.mask.bit, right.mask.bit, mask.bit, k)][j])
    {
      hide Xor, ForGarbling, OutIndex;
      ghost var tuples := Heads(prfOutputs[..], n);
      var zero: Keys := seq(n, _ => ZeroKey());
      var gg: Table := [zero, zero, zero, zero];
      for i := 0 to n
        invariant forall l: nat :: l < i ==> prfOutputs[l] == old(prfOutputs[l])[n..]
        invariant forall l: nat :: i <= l < n ==> prfOutputs[l] == old(prfOutputs[l])
        invariant Square(gg, 4, n) && Summed(gg, tuples, n, i, 0)
      {
        for j := 0 to n
          invariant forall l: nat :: l < n && l != i ==> prfOutputs[l] == if l < i then old(prfOutputs[l])[n..] else old(prfOutputs[l])
          invariant prfOutputs[i] == old(prfOutputs[i])[j..]
          invariant Square(gg, 4, n) && Summed(gg, tuples, n, i, j)
        {
          var partyPrfs := prfOutputs[i][0];
          prfOutputs[i] := prfOutputs[i][1..];
          assert partyPrfs == tuples[i][j];
          ghost var before := gg;
          gg := AddPrfs(gg, n, j, partyPrfs);
          SummedNext(before, gg, tuples, n, i, j);
        }
        SummedRow(gg, tuples, n, i);
      }
      var xa := OutIndex(func, left.mask.bit, right.mask.bit, mask.bit, 0);
      var xb := OutIndex(func, left.mask.bit, right.mask.bit, mask.bit, 1);
      var xc := OutIndex(func, left.mask.bit, right.mask.bit, mask.bit, 2);
      var xd := OutIndex(func, left.mask.bit, right.mask.bit, mask.bit, 3);
      table := [XorKeys(gg[0], keys[xa]), XorKeys(gg[1], keys[xb]), XorKeys(gg[2], keys[xc]), XorKeys(gg[3], keys[xd])];
    }

    /** BMR/Register.cpp:221-287, for the evaluating party `me`; the result must not overwrite an input. */
    method Eval(left: Register, right: Register, gate: Table, prf: Prf, g: nat, n: nat, me: nat)
      requires left != this && right != this && left.external.Signal? && right.external.Signal?
      requires |left.garbledEntry| == |right.garbledEntry| == n && Square(gate, 4, n) && me < n
      modifies this
      ensures mask == old(mask) && keys == old(keys) && |garbledEntry| == n
      ensures var (a, b) := (left.external.bit, right.external.bit);
              forall j: nat :: j < n ==>
                garbledEntry[j] == Xor(gate[Row(a, b)][j], Unmask(prf, left.garbledEntry, right.garbledEntry, a, b, g, n, j))
      ensures external == Signal(GetSignal(garbledEntry[me]))
    {
      hide Xor;
      var sigL, sigR := left.external.bit, right.external.bit;
      var entry := Row(sigL, sigR);
      garbledEntry := gate[entry];
      var extL := if entry % 2 != 0 then 1 else 0;
      var extR := if entry < 2 then 0 else 1;
      forall j: nat | j < n ensures Xor(gate[entry][j], ZeroKey()) == gate[entry][j] {
        XorSelf(gate[entry][j]);
      }
      for i := 0 to n
        invariant external == old(external) && mask == old(mask) && keys == old(keys) && |garbledEntry| == n
        invariant forall j: nat :: j < n ==>
          garbledEntry[j] == Xor(gate[entry][j], Unmask(prf, left.garbledEntry, right.garbledEntry, sigL, sigR, g, i, j))
      {
        ghost var before := garbledEntry;
        Subtract(prf, left.garbledEntry[i], extL, g, n);
        Subtract(prf, right.garbledEntry[i], extR, g, n);
        forall j: nat | j < n
          ensures garbledEntry[j] == Xor(gate[entry][j], Unmask(prf, left.garbledEntry, right.garbledEntry, sigL, sigR, g, i + 1, j)) {
          var u := Unmask(prf, left.garbledEntry, right.garbledEntry, sigL, sigR, g, i, j);
          var p, q := prf(left.garbledEntry[i], Block(extL, g, j + 1)), prf(right.garbledEntry[i], Block(extR, g, j + 1));
          XorAssoc(Xor(gate[entry][j], u), p, q);
          XorAssoc(gate[entry][j], u, Xor(p, q));
        }
      }
      external := Signal(GetSignal(garbledEntry[me]));
    }

    /** Lines 254-280: takes away what one key encrypts. */
    method Subtract(prf: Prf, key: Key, ext: Bit, g: nat, n: nat)
      requires |garbledEntry| == n
      modifies `garbledEntry
      ensures |garbledEntry| == n
      ensures forall j: nat :: j < n ==> garbledEntry[j] == Xor(old(garbledEntry)[j], prf(key, Block(ext, g, j + 1)))
    {
      for j := 0 to n
        invariant |garbledEntry| == n
        invariant forall l: nat :: l < j ==> garbledEntry[l] == Xor(old(garbledEntry)[l], prf(key, Block(ext, g, l + 1)))
        invariant forall l: nat :: j <= l < n ==> garbledEntry[l] == old(garbledEntry)[l]
      {
        garbledEntry := garbledEntry[j := Xor(garbledEntry[j], prf(key, Block(ext, g, j + 1)))];
      }
    }
  }

  function Heads(prfs: seq<seq<PRFTuple>>, n: nat): (tuples: seq<seq<PRFTuple>>)
    requires |prfs| == n && forall i: nat :: i < n ==> |prfs[i]| >= n
    ensures TuplesFor(tuples, n) && forall i: nat :: i < n ==> tuples[i] == prfs[i][..n]
  {
    seq(n, i requires 0 <= i < n => prfs[i][..n])
  }

  function AddPrfs(gg: Table, n: nat, j: nat, t: PRFTuple): (r: Table)
    requires Square(gg, 4, n) && j < n
    ensures Square(r, 4, n)
    ensures forall k: nat, l: nat :: k < 4 && l < n ==>
      r[k][l] == if l == j then Xor(gg[k][j], ForGarbling(t, k)) else gg[k][l]
  {
    seq(4, k requires 0 <= k < 4 => var row: Keys := gg[k]; row[j := Xor(row[j], ForGarbling(t, k))])
  }

  /** The accumulators hold `i` parties' shares, and party `i` has been added for the first `j` receivers. */
  ghost predicate Summed(gg: Table, tuples: seq<seq<PRFTuple>>, n: nat, i: nat, j: nat)
    requires Square(gg, 4, n) && TuplesFor(tuples, n) && i <= n && (i < n || j == 0)
  {
    forall k: nat, l: nat {:trigger gg[k][l]} :: k < 4 && l < n ==>
      gg[k][l] == PrfSum(tuples, n, if l < j then i + 1 else i, k, l)
  }

  lemma SummedNext(before: Table, gg: Table, tuples: seq<seq<PRFTuple>>, n: nat, i: nat, j: nat)
    requires TuplesFor(tuples, n) && i < n && j < n && Square(before, 4, n) && Summed(before, tuples, n, i, j)
    requires gg == AddPrfs(before, n, j, tuples[i][j])
    ensures Summed(gg, tuples, n, i, j + 1)
  {
    hide Xor, ForGarbling, AddPrfs;
  }

  lemma SummedRow(gg: Table, tuples: seq<seq<PRFTuple>>, n: nat, i: nat)
    requires TuplesFor(tuples, n) && i < n && Square(gg, 4, n) && Summed(gg, tuples, n, i, n)
    ensures Summed(gg, tuples, n, i + 1, 0)
  {
    hide Xor, ForGarbling, PrfSum;
  }

  /** Lines 52-55: one key, one extension, all receivers. */
  method EncryptBlocks(prf: Prf, key: Key, prfOutput: array2<Key>, at: nat, e: Bit, g: nat)
    requires prfOutput.Length1 == 8 && at < 8
    modifies prfOutput
    ensures forall l: nat, i: nat :: l < prfOutput.Length0 && i < 8 ==>
      prfOutput[l, i] == if i == at then prf(key, Block(e, g, l + 1)) else old(prfOutput[l, i])
  {
    for j := 0 to prfOutput.Length0
      invariant forall l: nat, i: nat :: l < prfOutput.Length0 && i < 8 ==>
        prfOutput[l, i] == if i == at && l < j then prf(key, Block(e, g, l + 1)) else old(prfOutput[l, i])
    {
      prfOutput[j, at] := prf(key, Block(e, g, j + 1));
    }
  }

  /** Lines 45-56: one key, both extensions. */
  method EncryptUnder(prf: Prf, key: Key, prfOutput: array2<Key>, w: Bit, b: Bit, g: nat)
    requires prfOutput.Length1 == 8
    modifies prfOutput
    ensures forall l: nat, i: nat :: l < prfOutput.Length0 && i < 8 ==>
      prfOutput[l, i] == if i / 2 == 2 * w as int + b as int then prf(key, Block(i % 2, g, l + 1)) else old(prfOutput[l, i])
  {
    for e := 0 to 2
      invariant forall l: nat, i: nat :: l < prfOutput.Length0 && i < 8 ==>
        prfOutput[l, i] == if i / 2 == 2 * w as int + b as int && i % 2 < e then prf(key, Block(i % 2, g, l + 1)) else old(prfOutput[l, i])
    {
      EncryptBlocks(prf, key, prfOutput, AtOutput(w, b, e), e, g);
    }
  }

  /** BMR/GarbledGate.cpp:38-59: party `me` encrypts every block under its four input keys. */
  method ComputePrfsOutputs(prf: Prf, left: Register, right: Register, me: nat, n: nat, g: nat) returns (out: seq<PRFTuple>)
    requires Square(left.keys, 2, n) && Square(right.keys, 2, n) && me < n
    ensures |out| == n && forall j: nat :: j < n ==> TupleOf(out[j], prf, left.keys, right.keys, g, me, j)
  {
    var prfOutput := new Key[n, 8]((_, _) => ZeroKey());
    for w := 0 to 2
      invariant forall l: nat, i: nat :: l < n && i < 4 * w ==> prfOutput[l, i] == Encrypted(prf, left.keys, right.keys, g, me, i, l)
    {
      for b := 0 to 2
        invariant forall l: nat, i: nat :: l < n && i < 4 * w + 2 * b ==> prfOutput[l, i] == Encrypted(prf, left.keys, right.keys, g, me, i, l)
      {
        var key := (if w == 0 then left else right).keys[b][me];
        EncryptUnder(prf, key, prfOutput, w, b, g);
      }
    }
    out := seq(n, j requires 0 <= j < n reads prfOutput =>
      [prfOutput[j, 0], prfOutput[j, 1], prfOutput[j, 2], prfOutput[j, 3],
       prfOutput[j, 4], prfOutput[j, 5], prfOutput[j, 6], prfOutput[j, 7]]);
    forall j: nat | j < n ensures TupleOf(out[j], prf, left.keys, right.keys, g, me, j) {
      assert forall i: nat :: i < 8 ==> out[j][i] == prfOutput[j, i];
      EncryptedTuple(out[j], prf, left.keys, right.keys, g, me, j);
    }
  }

  /** Entry `i` of a tuple. */
  ghost function Encrypted(prf: Prf, left: seq<Keys>, right: seq<Keys>, g: nat, me: nat, i: nat, j: nat): Key
    requires |left| == |right| == 2 && me < |left[0]| && me < |left[1]| && me < |right[0]| && me < |right[1]|
  {
    prf((if i < 4 then left else right)[i / 2 % 2][me], Block(i % 2, g, j + 1))
  }

  lemma EncryptedTuple(t: PRFTuple, prf: Prf, left: seq<Keys>, right: seq<Keys>, g: nat, me: nat, j: nat)
    requires |left| == |right| == 2 && me < |left[0]| && me < |left[1]| && me < |right[0]| && me < |right[1]|
    requires forall i: nat :: i < 8 ==> t[i] == Encrypted(prf, left, right, g, me, i, j)
    ensures TupleOf(t, prf, left, right, g, me, j)
  {
    forall b: Bit, e: Bit
      ensures t[AtOutput(0, b, e)] == prf(left[b][me], Block(e, g, j + 1))
      ensures t[AtOutput(1, b, e)] == prf(right[b][me], Block(e, g, j + 1)) {
      var l, r := AtOutput(0, b, e), AtOutput(1, b, e);
      assert t[l] == Encrypted(prf, left, right, g, me, l, j) && t[r] == Encrypted(prf, left, right, g, me, r, j);
    }
  }

  lemma TupleEntries(t: PRFTuple, prf: Prf, left: seq<Keys>, right: seq<Keys>, g: nat, me: nat, j: nat, i: nat)
    requires |left| == |right| == 2 && me < |left[0]| && me < |left[1]| && me < |right[0]| && me < |right[1]|
    requires TupleOf(t, prf, left, right, g, me, j) && i < 8
    ensures t[i] == Encrypted(prf, left, right, g, me, i, j)
  {
    hide AtOutput;
    EveryIndex(i);
    var b: Bit, e: Bit := i / 2 % 2, i % 2;
    assert t[AtOutput(0, b, e)] == prf(left[b][me], Block(e, g, j + 1));
    assert t[AtOutput(1, b, e)] == prf(right[b][me], Block(e, g, j + 1));
  }

  lemma EveryIndex(i: nat)
    requires i < 8
    ensures i == AtOutput(if i < 4 then 0 else 1, i / 2 % 2, i % 2)
  {
    var q := i / 2;
    assert q == 0 || q == 1 || q == 2 || q == 3;
    assert i == 2 * q || i == 2 * q + 1;
  }

  // ----- one gate, garbled and evaluated -----

  /** A wire as the dealer knows it. */
  datatype Wire = Wire(mask: Bit, keys: seq<Keys>)

  /** What an evaluator must hold on a wire that carries `value`. */
  ghost predicate Carries(external: Signal, entry: Keys, w: Wire, value: Bit) {
    |w.keys| == 2 && external == Signal(BitXor(value, w.mask)) && entry == w.keys[BitXor(value, w.mask)]
  }

  /** The table that the dealer sends for a gate. */
  ghost predicate Garbles(table: Table, tuples: seq<seq<PRFTuple>>, func: Function, left: Wire, right: Wire, out: Wire, n: nat)
    requires Square(table, 4, n) && TuplesFor(tuples, n) && Square(out.keys, 2, n)
  {
    forall k: nat, j: nat {:trigger table[k][j]} :: k < 4 && j < n ==>
      table[k][j] == Xor(PrfSum(tuples, n, n, k, j), out.keys[OutIndex(func, left.mask, right.mask, out.mask, k)][j])
  }

  ghost function TableOf(tuples: seq<seq<PRFTuple>>, func: Function, left: Wire, right: Wire, out: Wire, n: nat): (t: Table)
    requires TuplesFor(tuples, n) && Square(out.keys, 2, n)
    ensures Square(t, 4, n) && Garbles(t, tuples, func, left, right, out, n)
  {
    seq(4, k requires 0 <= k < 4 => seq<Key>(n, j requires 0 <= j < n =>
      Xor(PrfSum(tuples, n, n, k, j), out.keys[OutIndex(func, left.mask, right.mask, out.mask, k)][j])))
  }

  lemma OneTable(t: Table, tuples: seq<seq<PRFTuple>>, func: Function, left: Wire, right: Wire, out: Wire, n: nat)
    requires Square(t, 4, n) && TuplesFor(tuples, n) && Square(out.keys, 2, n) && Garbles(t, tuples, func, left, right, out, n)
    ensures t == TableOf(tuples, func, left, right, out, n)
  {
    hide Xor, PrfSum, OutIndex;
    var u := TableOf(tuples, func, left, right, out, n);
    forall k: nat | k < 4 ensures t[k] == u[k] {
      assert forall j: nat :: j < n ==> t[k][j] == u[k][j];
    }
  }

  /** The signal bit of a key tells its index; only output wires of gates promise this. */
  ghost predicate Signalled(w: Wire, n: nat) {
    Square(w.keys, 2, n) && forall b: Bit, j: nat {:trigger w.keys[b][j]} :: j < n ==> GetSignal(w.keys[b][j]) == b
  }

  /** Evaluating the garbled table of a gate gives the key and external value of the gate's output. */
  lemma GateIsCorrect(prf: Prf, g: nat, n: nat, me: nat, func: Function, left: Wire, right: Wire, out: Wire,
                      tuples: seq<seq<PRFTuple>>, table: Table, l: Bit, r: Bit, entry: Keys)
    requires Square(left.keys, 2, n) && Square(right.keys, 2, n) && Signalled(out, n) && me < n
    requires Square(table, 4, n) && TuplesFor(tuples, n)
    requires TuplesOf(tuples, prf, left.keys, right.keys, g, n) && Garbles(table, tuples, func, left, right, out, n)
    requires |entry| == n
    requires var (a, b) := (BitXor(l, left.mask), BitXor(r, right.mask));
             forall j: nat :: j < n ==>
               entry[j] == Xor(table[Row(a, b)][j], Unmask(prf, left.keys[a], right.keys[b], a, b, g, n, j))
    ensures Carries(Signal(GetSignal(entry[me])), entry, out, func[Row(l, r)])
  {
    hide Xor, GetSignal, TuplesOf;
    var a, b := BitXor(l, left.mask), BitXor(r, right.mask);
    var k := Row(a, b);
    assert OutIndex(func, left.mask, right.mask, out.mask, k) == BitXor(func[Row(l, r)], out.mask);
    var x := BitXor(func[Row(l, r)], out.mask);
    forall j: nat | j < n ensures entry[j] == out.keys[x][j] {
      UnmaskIsPrfSum(tuples, prf, left.keys, right.keys, a, b, g, n, n, j);
      XorCancels(PrfSum(tuples, n, n, k, j), out.keys[x][j]);
      assert table[k][j] == Xor(PrfSum(tuples, n, n, k, j), out.keys[x][j]);
    }
    assert entry == out.keys[x];
  }
}
