/** Alpha/alpha-pre.h:102-176: vector oblivious linear evaluation over the ring of `p` elements. The sender holds a vector `x`,
    the receiver a number `alpha` of `S` bits; their outputs differ by `alpha` times `x`. */
module VectorOle {
  import opened Powers
  import opened Bits
  import opened Congruences

  const K := 1
  const S: nat := 63

  /** Alpha/alpha-pre.h:17-20: the sizes of the two rings. */
  function InputRing(): (p: nat)
    ensures p > 0
  {
    Pow2(K + S)
  }

  function CheckRing(): (p: nat)
    ensures p > 0
  {
    Pow2(K + S + S)
  }

  type Vector = seq<nat>

  // ----- streams -----

  /** OT/Row.hpp: the length, then the entries. */
  function Pack(row: Vector): Vector {
    [|row|] + row
  }

  function PackAll(rows: seq<Vector>): Vector {
    if rows == [] then [] else Pack(rows[0]) + PackAll(rows[1..])
  }

  lemma {:induction false} PackMore(rows: seq<Vector>, row: Vector)
    ensures PackAll(rows + [row]) == PackAll(rows) + Pack(row)
  {
    if rows == [] {
      assert [row][1..] == [];
      assert rows + [row] == [row];
    } else {
      assert (rows + [row])[1..] == rows[1..] + [row];
      PackMore(rows[1..], row);
    }
  }

  datatype Unpacked = Unpacked(row: Vector, rest: Vector) | TooShort

  function Unpack(os: Vector): Unpacked {
    if os == [] || |os| - 1 < os[0] then TooShort else Unpacked(os[1..1 + os[0]], os[1 + os[0]..])
  }

  /** The messages for rows sent `merged` at a time. */
  function Batches(rows: seq<Vector>, merged: nat): seq<Vector>
    requires merged > 0
  {
    if rows == [] then []
    else if |rows| <= merged then [PackAll(rows)]
    else [PackAll(rows[..merged])] + Batches(rows[merged..], merged)
  }

  // ----- arithmetic on rows -----

  function Add(a: Vector, b: Vector, p: nat): (c: Vector)
    requires |a| == |b| && p > 0
    ensures |c| == |a| && forall r: nat :: r < |c| ==> c[r] == (a[r] + b[r]) % p
  {
    seq(|a|, r requires 0 <= r < |a| => (a[r] + b[r]) % p)
  }

  function Sub(a: Vector, b: Vector, p: nat): (c: Vector)
    requires |a| == |b| && p > 0
    ensures |c| == |a| && forall r: nat :: r < |c| ==> c[r] == (a[r] - b[r]) % p
  {
    seq(|a|, r requires 0 <= r < |a| => (a[r] - b[r]) % p)
  }

  function Shift(a: Vector, i: nat, p: nat): (c: Vector)
    requires p > 0
    ensures |c| == |a| && forall r: nat :: r < |c| ==> c[r] == (Pow2(i) * a[r]) % p
  {
    seq(|a|, r requires 0 <= r < |a| => (Pow2(i) * a[r]) % p)
  }

  function Zeros(n: nat): (z: Vector)
    ensures |z| == n && forall r: nat :: r < n ==> z[r] == 0
  {
    seq(n, _ => 0)
  }

  // ----- the two sides -----

  /** The common randomness: for every bit and choice a row of `n` numbers. */
  ghost predicate Seeds(t: seq<Vector>, n: nat) {
    |t| == S && forall i: nat :: i < S ==> |t[i]| == n
  }

  /** Line 119: what is sent for bit `i`. */
  function Message(x: Vector, t0: Vector, t1: Vector, p: nat): (u: Vector)
    requires |x| == |t0| == |t1| && p > 0
    ensures |u| == |x|
  {
    Add(Add(x, t1, p), t0, p)
  }

  function Messages(x: Vector, t0: seq<Vector>, t1: seq<Vector>, p: nat): (u: seq<Vector>)
    requires |t0| == |t1| && p > 0 && forall i: nat :: i < |t0| ==> |t0[i]| == |t1[i]| == |x|
    ensures |u| == |t0| && forall i: nat :: i < |u| ==> u[i] == Message(x, t0[i], t1[i], p)
  {
    seq(|t0|, i requires 0 <= i < |t0| => Message(x, t0[i], t1[i], p))
  }

  /** Every row is the vector with both masks of its bit. */
  ghost predicate Masked(rows: seq<Vector>, x: Vector, t0: seq<Vector>, t1: seq<Vector>, p: nat)
    requires p > 0 && |t0| == |t1| && forall i: nat :: i < |t0| ==> |t0[i]| == |t1[i]| == |x|
  {
    && |rows| == |t0|
    && forall i: nat :: i < |rows| ==> |rows[i]| == |x| && forall r: nat :: r < |x| ==> rows[i][r] == (x[r] + t0[i][r] + t1[i][r]) % p
  }

  lemma MessagesAreMasked(x: Vector, t0: seq<Vector>, t1: seq<Vector>, p: nat)
    requires p > 0 && |t0| == |t1| && forall i: nat :: i < |t0| ==> |t0[i]| == |t1[i]| == |x|
    ensures Masked(Messages(x, t0, t1, p), x, t0, t1, p)
  {
    hide Message;
    forall i: nat, r: nat | i < |t0| && r < |x| ensures Message(x, t0[i], t1[i], p)[r] == (x[r] + t0[i][r] + t1[i][r]) % p {
      MessageAt(x, t0[i], t1[i], p, r);
    }
  }

  lemma MessageAt(x: Vector, t0: Vector, t1: Vector, p: nat, r: nat)
    requires |x| == |t0| == |t1| && p > 0 && r < |x|
    ensures Message(x, t0, t1, p)[r] == (x[r] + t0[r] + t1[r]) % p
  {
    SumReduced(x[r] + t1[r], t0[r], p);
    assert x[r] + t1[r] + t0[r] == x[r] + t0[r] + t1[r];
  }

  lemma SumReduced(a: nat, b: nat, p: nat)
    requires p > 0
    ensures (a % p + b) % p == (a + b) % p
  {
    hide Cong;
    Reduced(a, p);
    ReflCong(b, p);
    CongAdd(a % p, a, b, b, p);
    CongMod(a % p + b, a + b, p);
  }

  /** Entry `r` of rows 0 to `n`, weighted by powers of two. */
  ghost function Weighted(rows: seq<Vector>, r: nat, n: nat): int
    requires n <= |rows| && forall i: nat :: i < |rows| ==> r < |rows[i]|
  {
    if n == 0 then 0 else Weighted(rows, r, n - 1) + Pow2(n - 1) * rows[n - 1][r]
  }

  ghost predicate Sums(res: Vector, rows: seq<Vector>, n: nat, p: nat)
    requires p > 0 && n <= |rows| && forall i: nat :: i < |rows| ==> |rows[i]| == |res|
  {
    forall r: nat :: r < |res| ==> Cong(res[r], Weighted(rows, r, n), p)
  }

  lemma SumsMore(res: Vector, rows: seq<Vector>, n: nat, p: nat)
    requires p > 0 && n < |rows| && (forall i: nat :: i < |rows| ==> |rows[i]| == |res|) && Sums(res, rows, n, p)
    ensures Sums(Add(res, Shift(rows[n], n, p), p), rows, n + 1, p)
  {
    hide Cong;
    var next := Add(res, Shift(rows[n], n, p), p);
    forall r: nat | r < |next| ensures Cong(next[r], Weighted(rows, r, n + 1), p) {
      var step := Pow2(n) * rows[n][r];
      Reduced(step, p);
      ReducedSum(step % p, step, res[r], p);
      CongAdd(res[r], Weighted(rows, r, n), step, step, p) by {
        ReflCong(step, p);
      }
      assert next[r] == (step % p + res[r]) % p;
      CongTrans(next[r], step + res[r], Weighted(rows, r, n) + step, p);
    }
  }

  lemma ReflCong(a: int, p: nat)
    requires p > 0
    ensures Cong(a, a, p)
  {
    FromQuotient(a, a, 0, p);
  }

  lemma BatchEnds(start: nat, i: nat, merged: nat)
    requires merged > 0 && start % merged == 0 && start <= i < start + merged
    ensures i % merged == merged - 1 <==> i + 1 == start + merged
    ensures (start + merged) % merged == 0
  {
    DivUnique(i, merged, start / merged, i - start);
    DivUnique(start + merged, merged, start / merged + 1, 0);
  }

  /** What is in the stream for the rows from `start` to `i`. */
  lemma NextInBatch(rows: seq<Vector>, start: nat, i: nat)
    requires start <= i < |rows|
    ensures PackAll(rows[start..i + 1]) == PackAll(rows[start..i]) + Pack(rows[i])
  {
    assert rows[start..i + 1] == rows[start..i] + [rows[i]];
    PackMore(rows[start..i], rows[i]);
  }

  /** A full batch, or the last one, is one message. */
  lemma BatchDone(rows: seq<Vector>, start: nat, e: nat, merged: nat)
    requires merged > 0 && start < e <= |rows| && (e == start + merged || (e == |rows| && e <= start + merged))
    ensures Batches(rows[start..], merged) == [PackAll(rows[start..e])] + Batches(rows[e..], merged)
  {
    assert rows[start..e] == rows[start..][..e - start];
    assert rows[e..] == rows[start..][e - start..];
    if e == |rows| {
      assert rows[e..] == [];
      assert rows[start..e] == rows[start..];
    }
  }

  /** Lines 102-133 */
  method VoleSend(x: Vector, t0: seq<Vector>, t1: seq<Vector>, merged: nat) returns (output: Vector, sent: seq<Vector>)
    requires Seeds(t0, |x|) && Seeds(t1, |x|) && merged > 0
    ensures sent == Batches(Messages(x, t0, t1, CheckRing()), merged) && Masked(Messages(x, t0, t1, CheckRing()), x, t0, t1, CheckRing())
    ensures |output| == |x| && Sums(output, t0, S, CheckRing())
  {
    hide Batches, PackAll, Sums, CheckRing, Message, Masked;
    var p := CheckRing();
    MessagesAreMasked(x, t0, t1, p);
    ghost var rows := Messages(x, t0, t1, p);
    ghost var start := 0;
    output, sent := Zeros(|x|), [];
    var os: Vector := [];
    NothingSummed(|x|, t0, p);
    assert rows[0..] == rows;
    assert rows[0..0] == [];
    NothingPacked();
    for i := 0 to S
      invariant |output| == |x| && Sums(output, t0, i, p)
      invariant start % merged == 0 && start <= i && (i < S ==> i < start + merged)
      invariant i < S ==> os == PackAll(rows[start..i]) && sent + Batches(rows[start..], merged) == Batches(rows, merged)
      invariant i == S ==> sent == Batches(rows, merged)
    {
      BatchEnds(start, i, merged);
      NextInBatch(rows, start, i);
      SumsMore(output, t0, i, p);
      os := os + Pack(Message(x, t0[i], t1[i], p));
      output := Add(output, Shift(t0[i], i, p), p);
      if i % merged == merged - 1 || i == S - 1 {
        BatchDone(rows, start, i + 1, merged);
        LastBatch(rows, i + 1, merged);
        sent := sent + [os];
        os := [];
        start := if i % merged == merged - 1 then i + 1 else start;
        assert rows[i + 1..i + 1] == [];
        NothingPacked();
      }
    }
  }

  lemma NothingSummed(n: nat, rows: seq<Vector>, p: nat)
    requires p > 0 && forall i: nat :: i < |rows| ==> |rows[i]| == n
    ensures Sums(Zeros(n), rows, 0, p)
  {
  }

  lemma NothingPacked()
    ensures PackAll([]) == []
  {
  }

  lemma LastBatch(rows: seq<Vector>, e: nat, merged: nat)
    requires merged > 0 && e <= |rows|
    ensures e == |rows| ==> Batches(rows[e..], merged) == []
  {
  }

  /** The rows that the receiver adds up: the first random row plus `x` where the bit of `alpha` is set. */
  ghost function Corrected(x: Vector, t0: seq<Vector>, alpha: seq<Bit>): (rows: seq<Vector>)
    requires |alpha| == |t0| && forall i: nat :: i < |t0| ==> |t0[i]| == |x|
    ensures |rows| == |t0| && forall i: nat :: i < |rows| ==> |rows[i]| == |x|
  {
    seq(|t0|, i requires 0 <= i < |t0| => seq(|x|, r requires 0 <= r < |x| => t0[i][r] + if alpha[i] == 1 then x[r] else 0))
  }

  /** What the receiver gets from the row of its own bit. */
  function Received(u: Vector, t: Vector, choice: Bit, p: nat): (a: Vector)
    requires (choice == 1 ==> |u| == |t|) && p > 0
    ensures |a| == |t|
  {
    if choice == 1 then Sub(u, t, p) else t
  }

  lemma ReceivedIs(x: Vector, t0: Vector, t1: Vector, choice: Bit, p: nat, r: nat)
    requires |x| == |t0| == |t1| && p > 0 && r < |x|
    ensures Cong(Received(Message(x, t0, t1, p), if choice == 1 then t1 else t0, choice, p)[r],
                 t0[r] + if choice == 1 then x[r] else 0, p)
  {
    hide Cong;
    if choice == 1 {
      var s := (x[r] + t1[r]) % p;
      Reduced(x[r] + t1[r], p);
      ReducedSum(s, x[r] + t1[r], t0[r], p);
      ReducedSum((s + t0[r]) % p, x[r] + t1[r] + t0[r], t1[r], p);
    } else {
      ReflCong(t0[r], p);
    }
  }

  /** Rows in batches, every message long enough for its batch; what comes after the batch is not looked at. */
  ghost predicate Carries(sent: seq<Vector>, rows: seq<Vector>, merged: nat)
    requires merged > 0
  {
    if rows == [] then true
    else
      var e := if merged <= |rows| then merged else |rows|;
      sent != [] && PackAll(rows[..e]) <= sent[0] && Carries(sent[1..], rows[e..], merged)
  }

  /** One row for every bit, of `n` numbers where the bit is set; the code does not look at the others. */
  ghost predicate RowsFit(rows: seq<Vector>, alpha: seq<Bit>, n: nat) {
    |rows| == S == |alpha| && forall i: nat :: i < S && alpha[i] == 1 ==> |rows[i]| == n
  }

  /** The messages carry such rows. */
  ghost predicate Shaped(sent: seq<Vector>, rows: seq<Vector>, alpha: seq<Bit>, n: nat, merged: nat)
    requires merged > 0
  {
    RowsFit(rows, alpha, n) && Carries(sent, rows, merged)
  }

  lemma {:induction false} BatchesCarry(rows: seq<Vector>, merged: nat)
    requires merged > 0
    ensures Carries(Batches(rows, merged), rows, merged)
    decreases |rows|
  {
    hide PackAll;
    if rows != [] {
      var e := if merged <= |rows| then merged else |rows|;
      BatchDone(rows, 0, e, merged);
      assert rows[0..] == rows && rows[0..e] == rows[..e];
      BatchesCarry(rows[e..], merged);
      var sent := Batches(rows, merged);
      assert sent[0] == PackAll(rows[..e]) && sent[1..] == Batches(rows[e..], merged);
    }
  }

  /** The first row of a message, whatever follows. */
  lemma UnpackPrefix(rows: seq<Vector>, os: Vector)
    requires rows != [] && PackAll(rows) <= os
    ensures Unpack(os).Unpacked? && Unpack(os).row == rows[0] && PackAll(rows[1..]) <= Unpack(os).rest
  {
    var tail := PackAll(rows[1..]);
    assert PackAll(rows) == Pack(rows[0]) + tail;
    hide PackAll;
    UnpackPacked(rows[0], tail + os[|Pack(rows[0]) + tail|..], os);
  }

  lemma UnpackPacked(row: Vector, rest: Vector, os: Vector)
    requires Pack(row) + rest == os
    ensures Unpack(os) == Unpacked(row, rest)
  {
    assert os[0] == |row|;
    assert os[1..1 + |row|] == row && os[1 + |row|..] == rest;
  }

  lemma {:induction false} SamePacked(a: seq<Vector>, b: seq<Vector>, os: Vector)
    requires |a| == |b| && PackAll(a) <= os && PackAll(b) <= os
    ensures a == b
  {
    if a != [] {
      UnpackPrefix(a, os);
      UnpackPrefix(b, os);
      SamePacked(a[1..], b[1..], Unpack(os).rest);
    }
  }

  /** The messages determine the rows. */
  lemma {:induction false} SameCarried(sent: seq<Vector>, a: seq<Vector>, b: seq<Vector>, merged: nat)
    requires merged > 0 && |a| == |b| && Carries(sent, a, merged) && Carries(sent, b, merged)
    ensures a == b
    decreases |a|
  {
    hide PackAll;
    if a != [] {
      var e := if merged <= |a| then merged else |a|;
      SamePacked(a[..e], b[..e], sent[0]);
      SameCarried(sent[1..], a[e..], b[e..], merged);
      assert a == a[..e] + a[e..] && b == b[..e] + b[e..];
    }
  }

  /** Full batches, one message each. */
  ghost predicate Full(sent: seq<Vector>, rows: seq<Vector>, merged: nat)
    requires merged > 0
  {
    if rows == [] then sent == []
    else merged <= |rows| && sent != [] && PackAll(rows[..merged]) <= sent[0] && Full(sent[1..], rows[merged..], merged)
  }

  /** Full batches before the rows of the other messages. */
  lemma {:induction false} FullThenRest(done: seq<Vector>, sent: seq<Vector>, got: seq<Vector>, rows: seq<Vector>, merged: nat)
    requires merged > 0 && Full(done, got, merged) && Carries(sent, rows, merged)
    ensures Carries(done + sent, got + rows, merged)
    decreases |got|
  {
    hide PackAll, Carries;
    if got == [] {
      assert done + sent == sent && got + rows == rows;
    } else {
      hide Full;
      FirstFull(done, got, merged);
      FullThenRest(done[1..], sent, got[merged..], rows, merged);
      assert (done + sent)[1..] == done[1..] + sent;
      assert (got + rows)[..merged] == got[..merged];
      assert (got + rows)[merged..] == got[merged..] + rows;
      CarriesBatch(done + sent, got + rows, merged);
    }
  }

  lemma FirstFull(sent: seq<Vector>, rows: seq<Vector>, merged: nat)
    requires merged > 0 && Full(sent, rows, merged) && rows != []
    ensures merged <= |rows| && sent != [] && PackAll(rows[..merged]) <= sent[0] && Full(sent[1..], rows[merged..], merged)
  {
  }

  lemma CarriesBatch(sent: seq<Vector>, rows: seq<Vector>, merged: nat)
    requires 0 < merged <= |rows| && sent != [] && PackAll(rows[..merged]) <= sent[0] && Carries(sent[1..], rows[merged..], merged)
    ensures Carries(sent, rows, merged)
  {
  }

  lemma {:induction false} OneMoreFull(done: seq<Vector>, got: seq<Vector>, batch: seq<Vector>, m: Vector, merged: nat)
    requires merged > 0 && Full(done, got, merged) && |batch| == merged && PackAll(batch) <= m
    ensures Full(done + [m], got + batch, merged)
    decreases |got|
  {
    hide PackAll;
    if got == [] {
      assert done + [m] == [m] && got + batch == batch && batch[..merged] == batch && batch[merged..] == [];
      assert [m][1..] == [];
    } else {
      OneMoreFull(done[1..], got[merged..], batch, m, merged);
      assert (done + [m])[1..] == done[1..] + [m];
      assert (got + batch)[..merged] == got[..merged];
      assert (got + batch)[merged..] == got[merged..] + batch;
    }
  }

  lemma LastCarried(sent: seq<Vector>, rows: seq<Vector>, merged: nat)
    requires merged > 0 && |rows| <= merged && rows != [] && sent != [] && PackAll(rows) <= sent[0]
    ensures Carries(sent, rows, merged)
  {
    assert rows[..|rows|] == rows && rows[|rows|..] == [];
  }

  /** The rest of message `next` - 1 and the messages after it still hold rows `i` on; the message ends with row `e` - 1. */
  ghost predicate Awaits(sent: seq<Vector>, u: seq<Vector>, alpha: seq<Bit>, n: nat, merged: nat, os: Vector, next: nat, i: nat, e: nat)
    requires merged > 0
  {
    RowsFit(u, alpha, n) && i <= e <= S && next <= |sent| && PackAll(u[i..e]) <= os && Carries(sent[next..], u[e..], merged)
  }

  lemma AwaitedRow(sent: seq<Vector>, u: seq<Vector>, alpha: seq<Bit>, n: nat, merged: nat, os: Vector, next: nat, i: nat, e: nat)
    requires merged > 0
    ensures Awaits(sent, u, alpha, n, merged, os, next, i, e) && i < e ==>
      && Unpack(os).Unpacked? && i < |alpha| && (alpha[i] == 1 ==> |Unpack(os).row| == n)
      && Awaits(sent, u, alpha, n, merged, Unpack(os).rest, next, i + 1, e)
  {
    if Awaits(sent, u, alpha, n, merged, os, next, i, e) && i < e {
      hide Unpack, PackAll, Carries;
      UnpackPrefix(u[i..e], os);
      assert u[i..e][1..] == u[i + 1..e];
    }
  }

  lemma NextBatch(sent: seq<Vector>, u: seq<Vector>, alpha: seq<Bit>, n: nat, merged: nat, next: nat, m: nat)
    requires merged > 0
    ensures RowsFit(u, alpha, n) && m < S && next <= |sent| && Carries(sent[next..], u[m..], merged) ==>
      next < |sent| && Awaits(sent, u, alpha, n, merged, sent[next], next + 1, m, BatchEnd(m, merged))
  {
    if RowsFit(u, alpha, n) && m < S && next <= |sent| && Carries(sent[next..], u[m..], merged) {
      hide PackAll;
      var e := if merged <= |u[m..]| then merged else |u[m..]|;
      assert u[m..][..e] == u[m..BatchEnd(m, merged)] && u[m..][e..] == u[BatchEnd(m, merged)..];
      assert sent[next..][1..] == sent[next + 1..];
    }
  }

  lemma StreamNotEmpty(sent: seq<Vector>, alpha: seq<Bit>, n: nat, merged: nat)
    requires merged > 0
    ensures sent == [] ==> !exists u :: Shaped(sent, u, alpha, n, merged)
  {
  }

  /** What has been taken: full batches from the messages before the current one, and the rows from `start` on of that. */
  ghost predicate Took(sent: seq<Vector>, rows: seq<Vector>, start: nat, next: nat, os: Vector, merged: nat)
    requires merged > 0
  {
    && 1 <= next <= |sent| && start <= |rows|
    && Full(sent[..next - 1], rows[..start], merged) && PackAll(rows[start..]) + os == sent[next - 1]
  }

  lemma TookNone(sent: seq<Vector>, merged: nat)
    requires merged > 0 && sent != []
    ensures Took(sent, [], 0, 1, sent[0], merged)
  {
  }

  lemma TookRow(sent: seq<Vector>, rows: seq<Vector>, start: nat, next: nat, os: Vector, merged: nat)
    requires merged > 0 && Took(sent, rows, start, next, os, merged) && Unpack(os).Unpacked?
    ensures Took(sent, rows + [Unpack(os).row], start, next, Unpack(os).rest, merged)
  {
    hide Full, PackAll, Unpack;
    var more := rows + [Unpack(os).row];
    TakeRow(rows[start..], os);
    assert more[start..] == rows[start..] + [Unpack(os).row] && more[..start] == rows[..start];
  }

  /** The stream before and after one row is taken. */
  lemma TakeRow(taken: seq<Vector>, os: Vector)
    requires Unpack(os).Unpacked?
    ensures PackAll(taken + [Unpack(os).row]) + Unpack(os).rest == PackAll(taken) + os
  {
    var w := Unpack(os);
    PackMore(taken, w.row);
    assert Pack(w.row) + w.rest == os;
  }

  lemma TookBatch(sent: seq<Vector>, rows: seq<Vector>, start: nat, next: nat, os: Vector, merged: nat)
    requires merged > 0 && Took(sent, rows, start, next, os, merged) && |rows| == start + merged && next < |sent|
    ensures Took(sent, rows, |rows|, next + 1, sent[next], merged)
  {
    OneMoreFull(sent[..next - 1], rows[..start], rows[start..], sent[next - 1], merged);
    assert rows[..start] + rows[start..] == rows == rows[..|rows|] && rows[|rows|..] == [];
    assert sent[..next - 1] + [sent[next - 1]] == sent[..next];
  }

  lemma TookAll(sent: seq<Vector>, rows: seq<Vector>, start: nat, next: nat, os: Vector, merged: nat)
    requires merged > 0 && Took(sent, rows, start, next, os, merged) && start < |rows| <= start + merged
    ensures Carries(sent, rows, merged)
  {
    hide PackAll, Full, Carries;
    LastCarried(sent[next - 1..], rows[start..], merged);
    FullThenRest(sent[..next - 1], sent[next - 1..], rows[..start], rows[start..], merged);
    assert sent[..next - 1] + sent[next - 1..] == sent && rows[..start] + rows[start..] == rows;
  }

  lemma {:induction false} WeightedPrefix(a: seq<Vector>, b: seq<Vector>, r: nat, n: nat)
    requires n <= |a| && (forall i: nat :: i < |a| ==> r < |a[i]|) && forall i: nat :: i < |b| ==> r < |b[i]|
    ensures Weighted(a + b, r, n) == Weighted(a, r, n)
  {
    if n > 0 {
      WeightedPrefix(a, b, r, n - 1);
    }
  }

  lemma SumsNext(res: Vector, rows: seq<Vector>, a: Vector, n: nat, p: nat)
    requires p > 0 && n == |rows| && (forall i: nat :: i < |rows| ==> |rows[i]| == |res|) && |a| == |res| && Sums(res, rows, n, p)
    ensures Sums(Add(res, Shift(a, n, p), p), rows + [a], n + 1, p)
  {
    hide Cong, Weighted;
    forall r: nat | r < |res| ensures Cong(res[r], Weighted(rows + [a], r, n), p) {
      WeightedPrefix(rows, [a], r, n);
    }
    SumsMore(res, rows + [a], n, p);
  }

  datatype Status = Ok | BadStream

  /** What the receiver adds up from rows `u`. */
  function Corrections(u: seq<Vector>, t: seq<Vector>, alpha: seq<Bit>, p: nat): (rows: seq<Vector>)
    requires |u| <= |t| && |u| <= |alpha| && p > 0 && forall i: nat :: i < |u| && alpha[i] == 1 ==> |u[i]| == |t[i]|
    ensures |rows| == |u| && forall i: nat :: i < |rows| ==> rows[i] == Received(u[i], t[i], alpha[i], p)
  {
    seq(|u|, i requires 0 <= i < |u| => Received(u[i], t[i], alpha[i], p))
  }

  /** The output is the sum for the rows received so far. */
  ghost predicate SumsOf(output: Vector, u: seq<Vector>, t: seq<Vector>, alpha: seq<Bit>, n: nat, p: nat)
    requires p > 0
  {
    && |u| <= S == |alpha| && Seeds(t, n) && |output| == n && (forall i: nat :: i < |u| && alpha[i] == 1 ==> |u[i]| == n)
    && Sums(output, Corrections(u, t, alpha, p), |u|, p)
  }

  lemma SumsOfNone(t: seq<Vector>, alpha: seq<Bit>, n: nat, p: nat)
    requires p > 0 && |alpha| == S && Seeds(t, n)
    ensures SumsOf(Zeros(n), [], t, alpha, n, p)
  {
    hide Received;
    NothingSummed(n, [], p);
  }

  lemma SumsOfNext(output: Vector, u: seq<Vector>, t: seq<Vector>, alpha: seq<Bit>, row: Vector, n: nat, p: nat)
    requires p > 0 && |u| < S && SumsOf(output, u, t, alpha, n, p) && (alpha[|u|] == 1 ==> |row| == n)
    ensures |t[|u|]| == n && |Received(row, t[|u|], alpha[|u|], p)| == n
    ensures SumsOf(Add(output, Shift(Received(row, t[|u|], alpha[|u|], p), |u|, p), p), u + [row], t, alpha, n, p)
  {
    hide Received, Sums;
    var a := Received(row, t[|u|], alpha[|u|], p);
    SumsNext(output, Corrections(u, t, alpha, p), a, |u|, p);
    assert Corrections(u + [row], t, alpha, p) == Corrections(u, t, alpha, p) + [a];
  }

  /** Lines 135-176, with `t` holding the rows of the chosen seeds. The stream may run out or hold rows of a wrong
      length where the bit is set; otherwise every unpack reads the row of its own bit. */
  method VoleReceive(n: nat, alpha: seq<Bit>, t: seq<Vector>, sent: seq<Vector>, merged: nat)
    returns (output: Vector, status: Status, ghost rows: seq<Vector>)
    requires |alpha| == S && Seeds(t, n) && merged > 0
    ensures |output| == n
    ensures status == Ok <==> exists u :: Shaped(sent, u, alpha, n, merged)
    ensures status == Ok ==> Shaped(sent, rows, alpha, n, merged) && SumsOf(output, rows, t, alpha, n, CheckRing())
  {
    hide PackAll, CheckRing, Received, Unpack, Carries, SumsOf, Took, Awaits;
    var p := CheckRing();
    ghost var start := 0;
    output, status, rows := Zeros(n), Ok, [];
    ghost var good := exists u :: Shaped(sent, u, alpha, n, merged);
    ghost var u: seq<Vector> := [];
    if good {
      u :| Shaped(sent, u, alpha, n, merged);
      assert u[0..] == u && sent[0..] == sent;
    }
    StreamNotEmpty(sent, alpha, n, merged);
    if sent == [] {
      status := BadStream;
      return;
    }
    var os, next := sent[0], 1;
    TookNone(sent, merged);
    NextBatch(sent, u, alpha, n, merged, 0, 0);
    SumsOfNone(t, alpha, n, p);
    for i := 0 to S
      invariant |output| == n && |rows| == i && (forall k: nat :: k < i && alpha[k] == 1 ==> |rows[k]| == n) && SumsOf(output, rows, t, alpha, n, p)
      invariant start % merged == 0 && start <= i && (i < S ==> i < start + merged) && 1 <= next <= |sent| && (i == S ==> start < S <= start + merged)
      invariant Took(sent, rows, start, next, os, merged)
      invariant good && i < S ==> Awaits(sent, u, alpha, n, merged, os, next, i, BatchEnd(start, merged))
    {
      BatchEnds(start, i, merged);
      AwaitedRow(sent, u, alpha, n, merged, os, next, i, BatchEnd(start, merged));
      AwaitedEnd(sent, u, alpha, n, merged, Unpack(os), next, i + 1, BatchEnd(start, merged));
      var choice := alpha[i];
      var w := Unpack(os);
      if w.TooShort? || (choice == 1 && |w.row| != n) {
        status := BadStream;
        return;
      }
      TookRow(sent, rows, start, next, os, merged);
      SumsOfNext(output, rows, t, alpha, w.row, n, p);
      os := w.rest;
      rows := rows + [w.row];
      output := Add(output, Shift(Received(w.row, t[i], choice, p), i, p), p);
      if i % merged == merged - 1 && i != S - 1 {
        NextBatch(sent, u, alpha, n, merged, next, i + 1);
        if next == |sent| {
          status := BadStream;
          return;
        }
        TookBatch(sent, rows, start, next, os, merged);
        start := i + 1;
        os, next := sent[next], next + 1;
      }
    }
    TookAll(sent, rows, start, next, os, merged);
    assert Shaped(sent, rows, alpha, n, merged);
  }

  /** At the end of a message the next ones hold the other rows. */
  lemma AwaitedEnd(sent: seq<Vector>, u: seq<Vector>, alpha: seq<Bit>, n: nat, merged: nat, w: Unpacked, next: nat, i: nat, e: nat)
    requires merged > 0
    ensures w.Unpacked? && Awaits(sent, u, alpha, n, merged, w.rest, next, i, e) && i == e ==>
      RowsFit(u, alpha, n) && next <= |sent| && Carries(sent[next..], u[i..], merged)
  {
  }

  /** The row after the last one of the batch. */
  function BatchEnd(start: nat, merged: nat): nat {
    if start + merged <= S then start + merged else if start <= S then S else start
  }

  lemma RowReceived(x: Vector, t0: seq<Vector>, t1: seq<Vector>, alpha: seq<Bit>, t: Vector, i: nat, p: nat)
    requires Seeds(t0, |x|) && Seeds(t1, |x|) && |alpha| == S && i < S && p > 0 && t == if alpha[i] == 1 then t1[i] else t0[i]
    ensures |Received(Message(x, t0[i], t1[i], p), t, alpha[i], p)| == |x| == |Corrected(x, t0, alpha)[i]|
    ensures forall r: nat :: r < |x| ==> Cong(Received(Message(x, t0[i], t1[i], p), t, alpha[i], p)[r], Corrected(x, t0, alpha)[i][r], p)
  {
    hide Received, Message, Cong;
    forall r: nat | r < |x| ensures Cong(Received(Message(x, t0[i], t1[i], p), t, alpha[i], p)[r], Corrected(x, t0, alpha)[i][r], p) {
      ReceivedIs(x, t0[i], t1[i], alpha[i], p, r);
    }
  }

  // ----- both sides together -----

  lemma {:induction false} NumPrefix(b: seq<Bit>, n: nat)
    requires n < |b|
    ensures Num(b[..n + 1]) == Num(b[..n]) + Pow2(n) * b[n] as int
  {
    assert b[..n + 1] == b[..n] + [b[n]];
    NumConcat(b[..n], [b[n]]);
    assert [b[n]][1..] == [];
  }

  lemma CorrectedAt(x: Vector, t0: seq<Vector>, alpha: seq<Bit>, i: nat, r: nat)
    requires |alpha| == |t0| && (forall j: nat :: j < |t0| ==> |t0[j]| == |x|) && i < |t0| && r < |x|
    ensures Corrected(x, t0, alpha)[i][r] == t0[i][r] + alpha[i] as int * x[r]
  {
  }

  lemma Distribute(a: int, c: int, w: int, t: int, b: int, v: int, num: int)
    requires a == c + num * v
    ensures a + w * (t + b * v) == c + w * t + (num + w * b) * v
  {
    assert w * (t + b * v) == w * t + w * (b * v);
    assert (w * b) * v == w * (b * v);
    assert (num + w * b) * v == num * v + (w * b) * v;
  }

  lemma WeightedNext(rows: seq<Vector>, r: nat, n: nat)
    requires n < |rows| && forall i: nat :: i < |rows| ==> r < |rows[i]|
    ensures Weighted(rows, r, n + 1) == Weighted(rows, r, n) + Pow2(n) * rows[n][r]
  {
  }

  lemma {:induction false} WeightedDifference(x: Vector, t0: seq<Vector>, alpha: seq<Bit>, r: nat, n: nat)
    requires |alpha| == |t0| && n <= |t0| && r < |x| && forall i: nat :: i < |t0| ==> |t0[i]| == |x|
    ensures Weighted(Corrected(x, t0, alpha), r, n) == Weighted(t0, r, n) + Num(alpha[..n]) * x[r]
  {
    hide Corrected, Pow2, Num;
    if n > 0 {
      hide Weighted;
      WeightedNext(Corrected(x, t0, alpha), r, n - 1);
      WeightedNext(t0, r, n - 1);
      WeightedDifference(x, t0, alpha, r, n - 1);
      NumPrefix(alpha, n - 1);
      CorrectedAt(x, t0, alpha, n - 1, r);
      Distribute(Weighted(Corrected(x, t0, alpha), r, n - 1), Weighted(t0, r, n - 1),
                 Pow2(n - 1), t0[n - 1][r], alpha[n - 1], x[r], Num(alpha[..n - 1]));
    } else {
      NumOfNone(alpha);
    }
  }

  lemma NumOfNone(alpha: seq<Bit>)
    ensures Num(alpha[..0]) == 0
  {
  }

  /** The outputs `a` and `b` differ by `alpha` times `x`. */
  ghost predicate Correlated(a: Vector, b: Vector, alpha: nat, x: Vector, p: nat)
    requires p > 0
  {
    |a| == |b| == |x| && forall r: nat {:trigger x[r]} :: r < |x| ==> Cong(a[r] as int - b[r] as int, alpha * x[r], p)
  }

  lemma {:induction false} WeightedCong(a: seq<Vector>, b: seq<Vector>, r: nat, n: nat, p: nat)
    requires p > 0 && n <= |a| == |b| && forall i: nat :: i < |a| ==> r < |a[i]| == |b[i]|
    requires forall i: nat {:trigger a[i][r]} :: i < |a| ==> Cong(a[i][r], b[i][r], p)
    ensures Cong(Weighted(a, r, n), Weighted(b, r, n), p)
  {
    hide Cong, Pow2;
    if n > 0 {
      WeightedCong(a, b, r, n - 1, p);
      assert Cong(a[n - 1][r], b[n - 1][r], p);
      CongTimes(a[n - 1][r], b[n - 1][r], Pow2(n - 1), p);
      CongAdd(Weighted(a, r, n - 1), Weighted(b, r, n - 1), Pow2(n - 1) * a[n - 1][r], Pow2(n - 1) * b[n - 1][r], p);
    } else {
      ReflCong(0, p);
    }
  }

  /** From the sender's messages the receiver adds up the corrected rows. */
  lemma HonestSums(output: Vector, x: Vector, t0: seq<Vector>, t1: seq<Vector>, t: seq<Vector>, alpha: seq<Bit>, p: nat)
    requires p > 0 && Seeds(t0, |x|) && Seeds(t1, |x|) && Seeds(t, |x|) && |alpha| == S && |output| == |x|
    requires forall i: nat {:trigger t[i]} :: i < S ==> t[i] == if alpha[i] == 1 then t1[i] else t0[i]
    requires SumsOf(output, Messages(x, t0, t1, p), t, alpha, |x|, p)
    ensures Sums(output, Corrected(x, t0, alpha), S, p)
  {
    hide Cong, Weighted, Received, Message, Corrected;
    hide Shift;
    var a, b := Corrections(Messages(x, t0, t1, p), t, alpha, p), Corrected(x, t0, alpha);
    forall r: nat | r < |x| ensures Cong(output[r], Weighted(b, r, S), p) {
      forall i: nat | i < S ensures Cong(a[i][r], b[i][r], p) {
        RowReceived(x, t0, t1, alpha, t[i], i, p);
      }
      WeightedCong(a, b, r, S, p);
      CongTrans(output[r], Weighted(a, r, S), Weighted(b, r, S), p);
    }
  }

  lemma HonestShape(x: Vector, t0: seq<Vector>, t1: seq<Vector>, alpha: seq<Bit>, merged: nat, p: nat)
    requires p > 0 && merged > 0 && Seeds(t0, |x|) && Seeds(t1, |x|) && |alpha| == S
    ensures Shaped(Batches(Messages(x, t0, t1, p), merged), Messages(x, t0, t1, p), alpha, |x|, merged)
  {
    hide Message;
    BatchesCarry(Messages(x, t0, t1, p), merged);
  }

  /** For every vector, choice of bits, randomness and batch size the receiver's output less the sender's is `alpha` times `x`. */
  method Vole(x: Vector, alpha: nat, t0: seq<Vector>, t1: seq<Vector>, merged: nat) returns (a: Vector, b: Vector, status: Status)
    requires alpha < Pow2(S) && Seeds(t0, |x|) && Seeds(t1, |x|) && merged > 0
    ensures status == Ok && Correlated(a, b, alpha, x, CheckRing())
  {
    hide Sums, Corrected, Cong, CheckRing, Pow2, BitsOf, Weighted, Batches, Carries, Message, SumsOf;
    var sent;
    ghost var rows;
    var bits := BitsOf(alpha, S);
    b, sent := VoleSend(x, t0, t1, merged);
    var t := seq(S, i requires 0 <= i < S == |bits| == |t0| == |t1| => if bits[i] == 1 then t1[i] else t0[i]);
    a, status, rows := VoleReceive(|x|, bits, t, sent, merged);
    ghost var u := Messages(x, t0, t1, CheckRing());
    HonestShape(x, t0, t1, bits, merged, CheckRing());
    SameCarried(sent, rows, u, merged);
    HonestSums(a, x, t0, t1, t, bits, CheckRing());
    forall r: nat | r < |x| ensures Cong(a[r] as int - b[r] as int, alpha * x[r], CheckRing()) {
      OutputsDiffer(x, t0, bits, alpha, a, b, r, CheckRing());
    }
  }

  lemma OutputsDiffer(x: Vector, t0: seq<Vector>, bits: seq<Bit>, alpha: nat, a: Vector, b: Vector, r: nat, p: nat)
    requires alpha < Pow2(S) && bits == BitsOf(alpha, S) && Seeds(t0, |x|) && |a| == |b| == |x| && r < |x| && p > 0
    requires Sums(a, Corrected(x, t0, bits), S, p) && Sums(b, t0, S, p)
    ensures Cong(a[r] as int - b[r] as int, alpha * x[r], p)
  {
    hide Cong, Corrected, Weighted, BitsOf, Pow2, Num;
    NumOfBits(alpha, S);
    assert bits[..S] == bits;
    WeightedDifference(x, t0, bits, r, S);
    CongAdd(a[r], Weighted(Corrected(x, t0, bits), r, S), b[r], Weighted(t0, r, S), p);
  }
}
