/** Alpha/alpha-client.cpp and Alpha/alpha-server.cpp: clients commit to inputs shared between two servers, who check the shares
    with a random linear combination. Values of Z2<KS> are numbers below InputRing(), those of Z2<K2S> below CheckRing(). */
module InputCommitments {
  import opened Powers
  import opened Bits
  import opened Congruences
  import opened VectorOle

  /** What a client has: inputs, the shares of server 0, and the random values of both. */
  datatype Client = Client(x: Vector, x0: Vector, xt0: nat, xt1: nat, m0: Vector, mt0: nat)

  /** What a server has from one client: shares of the inputs and of their products with `alpha`, the last ones for the mask. */
  datatype Shares = Shares(x: Vector, m: Vector, xt: nat, mt: nat)

  ghost predicate InRing(x: Vector, p: nat) {
    forall i: nat :: i < |x| ==> x[i] < p
  }

  ghost predicate ValidClient(c: Client) {
    |c.x| == |c.x0| == |c.m0| && InRing(c.x, InputRing()) && InRing(c.x0, InputRing()) && c.xt0 < InputRing() && c.xt1 < InputRing()
  }

  // ----- messages to server 1 -----

  function Paired(a: Vector, b: Vector): (s: Vector)
    requires |a| == |b|
    ensures |s| == 2 * |a|
  {
    if a == [] then [] else Paired(a[..|a| - 1], b[..|a| - 1]) + [a[|a| - 1], b[|a| - 1]]
  }

  lemma {:induction false} PairedAt(a: Vector, b: Vector, i: nat)
    requires |a| == |b| && i < |a|
    ensures 2 * i + 1 < |Paired(a, b)| && Paired(a, b)[2 * i] == a[i] && Paired(a, b)[2 * i + 1] == b[i]
  {
    if i < |a| - 1 {
      PairedAt(a[..|a| - 1], b[..|a| - 1], i);
    }
  }

  /** Alpha/alpha-client.cpp:45-54, 83-92 */
  method PackShares(s: Shares) returns (os: Vector)
    requires |s.x| == |s.m|
    ensures os == Paired(s.x, s.m) + [s.xt, s.mt]
  {
    os := [];
    for i := 0 to |s.x|
      invariant os == Paired(s.x[..i], s.m[..i])
    {
      assert s.x[..i + 1][..i] == s.x[..i] && s.m[..i + 1][..i] == s.m[..i];
      os := os + [s.x[i]];
      os := os + [s.m[i]];
    }
    assert s.x[..|s.x|] == s.x && s.m[..|s.x|] == s.m;
    os := os + [s.xt];
    os := os + [s.mt];
  }

  /** Alpha/alpha-server.cpp:27-38, 92-104; nothing comes of a stream that is too short. */
  method UnpackShares(os: Vector, n: nat) returns (s: Shares, status: Status)
    ensures status == Ok <==> |os| >= 2 * n + 2
    ensures status == Ok ==> forall sent: Shares {:trigger Paired(sent.x, sent.m)} ::
      |sent.x| == |sent.m| == n && os == Paired(sent.x, sent.m) + [sent.xt, sent.mt] ==> s == sent
  {
    hide Paired;
    if |os| < 2 * n + 2 {
      return Shares([], [], 0, 0), BadStream;
    }
    var x, m := [], [];
    for i := 0 to n
      invariant |x| == |m| == i
      invariant forall j: nat :: j < i ==> x[j] == os[2 * j] && m[j] == os[2 * j + 1]
    {
      x := x + [os[2 * i]];
      m := m + [os[2 * i + 1]];
    }
    s, status := Shares(x, m, os[2 * n], os[2 * n + 1]), Ok;
    forall sent: Shares | |sent.x| == |sent.m| == n && os == Paired(sent.x, sent.m) + [sent.xt, sent.mt] ensures s == sent {
      forall i: nat | i < n ensures x[i] == sent.x[i] && m[i] == sent.m[i] {
        PairedAt(sent.x, sent.m, i);
      }
      assert x == sent.x && m == sent.m;
    }
  }

  // ----- shares of the products -----

  /** How far the shares are from those of the products with `alpha`. */
  ghost predicate ShareErrors(s0: Shares, s1: Shares, alpha: nat, e: seq<int>, et: int) {
    && |s0.x| == |s1.x| == |s0.m| == |s1.m| == |e|
    && (forall i: nat :: i < |e| ==> ErrorIs(s0.x[i], s1.x[i], s0.m[i], s1.m[i], alpha, e[i]))
    && ErrorIs(s0.xt, s1.xt, s0.mt, s1.mt, alpha, et)
  }

  ghost predicate ErrorIs(x0: nat, x1: nat, m0: nat, m1: nat, alpha: nat, e: int) {
    Cong(m0 + m1, (x0 + x1) * alpha - e, CheckRing())
  }

  /** The inputs are shared modulo the input ring. */
  ghost predicate SharesOf(x: Vector, s0: Shares, s1: Shares) {
    |s0.x| == |s1.x| == |x| && forall i: nat :: i < |x| ==> (s0.x[i] + s1.x[i]) % InputRing() == x[i]
  }

  /** Both servers have the shares that the client made of its inputs and of the mask. */
  ghost predicate SharedBy(c: Client, s0: Shares, s1: Shares)
    requires ValidClient(c)
  {
    && s0.x == c.x0 && |s1.x| == |c.x| && s0.xt == c.xt0 && s1.xt == c.xt1
    && forall i: nat :: i < |c.x| ==> s1.x[i] == Minus(c.x[i], c.x0[i], InputRing())
  }

  /** The shares of the products are reduced. */
  ghost predicate ProductsInRing(s: Shares) {
    InRing(s.m, CheckRing()) && s.mt < CheckRing()
  }

  /** Subtraction in the ring of `p` elements. */
  function Minus(a: nat, b: nat, p: nat): (d: nat)
    requires p > 0
    ensures d < p
  {
    (a as int - b as int) % p
  }

  lemma OtherShare(x: nat, x0: nat, q: nat)
    requires x < q
    ensures (x0 + Minus(x, x0, q)) % q == x
  {
    var d := (x - x0) / q;
    DivUnique(x0 + (x - x0) % q, q, 0 - d, x) by {
      assert q * (0 - d) == 0 - q * d;
    }
  }

  lemma ExactShare(x0: nat, x1: nat, m0: nat, alpha: nat)
    ensures ErrorIs(x0, x1, m0, Minus((x0 + x1) % CheckRing() * alpha % CheckRing(), m0, CheckRing()), alpha, 0)
  {
    hide Cong, CheckRing;
    var p, v := CheckRing(), x0 + x1;
    var product := v % p * alpha % p;
    Reduced(v, p);
    CongTimes(v % p, v, alpha, p);
    Reduced(v % p * alpha, p);
    assert alpha * (v % p) == v % p * alpha && alpha * v == v * alpha;
    CongTrans(product, v % p * alpha, v * alpha, p);
    ReducedSum(product, v * alpha, m0, p);
    ReflCong(m0, p);
    CongAdd(m0, m0, (product - m0) % p, v * alpha - m0, p);
  }

  /** Alpha/alpha-client.cpp:10-56: with `alpha` known to the client, the shares are exact. */
  method CommitHonest(c: Client, alpha0: nat, alpha1: nat) returns (s1: Shares, os: Vector)
    requires ValidClient(c)
    ensures |s1.x| == |s1.m| == |c.x| && os == Paired(s1.x, s1.m) + [s1.xt, s1.mt]
    ensures SharesOf(c.x, Shares(c.x0, c.m0, c.xt0, c.mt0), s1) && SharedBy(c, Shares(c.x0, c.m0, c.xt0, c.mt0), s1)
    ensures ProductsInRing(s1)
    ensures ShareErrors(Shares(c.x0, c.m0, c.xt0, c.mt0), s1, (alpha0 + alpha1) % CheckRing(), seq(|c.x|, _ => 0), 0)
  {
    hide Paired, ErrorIs, CheckRing, InputRing;
    var p, q, n := CheckRing(), InputRing(), |c.x|;
    var alpha := (alpha0 + alpha1) % p;
    var x1: Vector := [];
    for i := 0 to n
      invariant |x1| == i && forall j: nat :: j < i ==> (c.x0[j] + x1[j]) % q == c.x[j] && x1[j] == Minus(c.x[j], c.x0[j], q)
    {
      OtherShare(c.x[i], c.x0[i], q);
      x1 := x1 + [Minus(c.x[i], c.x0[i], q)];
    }
    var xt := (c.xt0 + c.xt1) % p;
    var m, m1: Vector := [], [];
    for i := 0 to n
      invariant |m| == |m1| == i && InRing(m1, p)
      invariant forall j: nat {:trigger m1[j]} :: j < i ==> ErrorIs(c.x0[j], x1[j], c.m0[j], m1[j], alpha, 0)
    {
      ExactShare(c.x0[i], x1[i], c.m0[i], alpha);
      m := m + [(c.x0[i] + x1[i]) % p * alpha % p];
      m1 := m1 + [Minus(m[i], c.m0[i], p)];
    }
    var mt := xt * alpha % p;
    ExactShare(c.xt0, c.xt1, c.mt0, alpha);
    s1 := Shares(x1, m1, c.xt1, Minus(mt, c.mt0, p));
    os := PackShares(s1);
  }

  // ----- shares from oblivious linear evaluation -----

  /** How often the shares wrap around the input ring. */
  ghost function Wraps(x0: Vector, x1: Vector): (w: seq<int>)
    requires |x0| == |x1|
    ensures |w| == |x0|
  {
    seq(|x0|, i requires 0 <= i < |x0| => (x0[i] + x1[i]) / InputRing())
  }

  ghost function Scaled(f: int, w: seq<int>): (e: seq<int>)
    ensures |e| == |w| && forall i: nat :: i < |w| ==> e[i] == f * w[i]
  {
    seq(|w|, i requires 0 <= i < |w| => f * w[i])
  }

  /** Alpha/alpha-server.cpp:106-122: one entry of the product shares of both servers. */
  function ProductShare0(a1: nat, b0: nat): (m: nat) {
    Minus(a1, b0, CheckRing())
  }

  function ProductShare1(x1: nat, alpha1: nat, a0: nat, b1: nat): (m: nat) {
    var p := CheckRing();
    Minus((x1 * alpha1 % p + a0) % p, b1, p)
  }

  /** The product shares are off by `alpha0` times what wraps. */
  lemma OleShare(x: nat, x0: nat, x1: nat, alpha0: nat, alpha1: nat, a0: nat, b0: nat, a1: nat, b1: nat)
    requires x == (x0 + x1) % InputRing()
    requires Cong(a1 as int - b1 as int, alpha0 * x, CheckRing()) && Cong(a0 as int - b0 as int, alpha1 * x0, CheckRing())
    ensures ErrorIs(x0, x1, ProductShare0(a1, b0), ProductShare1(x1, alpha1, a0, b1), alpha0 + alpha1,
                    (alpha0 * InputRing()) * ((x0 + x1) / InputRing()))
  {
    hide Cong, CheckRing, InputRing;
    var p, q, w := CheckRing(), InputRing(), (x0 + x1) / InputRing();
    var t := x1 * alpha1;
    var d1: int := a1 as int - b1 as int;
    var d0: int := a0 as int - b0 as int;
    Reduced(a1 as int - b0 as int, p);
    Reduced(t, p);
    ReducedSum(t % p, t, a0, p);
    ReducedSum((t % p + a0) % p, t + a0, b1, p);
    CongAdd(ProductShare0(a1, b0), a1 as int - b0 as int, ProductShare1(x1, alpha1, a0, b1), (t + a0) as int - b1 as int, p);
    CongAdd(d1, alpha0 * x, d0, alpha1 * x0, p);
    ReflCong(t, p);
    CongAdd(d1 + d0, alpha0 * x + alpha1 * x0, t, t, p);
    CongTrans(ProductShare0(a1, b0) + ProductShare1(x1, alpha1, a0, b1), d1 + d0 + t, alpha0 * x + alpha1 * x0 + t, p);
    Split(x, x0, x1, alpha0, alpha1, q, w);
  }

  lemma Split(x: int, x0: int, x1: int, alpha0: int, alpha1: int, q: int, w: int)
    requires x0 + x1 == q * w + x
    ensures alpha0 * x + alpha1 * x0 + x1 * alpha1 == (x0 + x1) * (alpha0 + alpha1) - (alpha0 * q) * w
  {
    assert alpha0 * (x0 + x1) == alpha0 * (q * w) + alpha0 * x;
    assert alpha0 * (q * w) == (alpha0 * q) * w;
    assert (x0 + x1) * (alpha0 + alpha1) == (x0 + x1) * alpha0 + x0 * alpha1 + x1 * alpha1;
  }

  /** Alpha/alpha-client.cpp:58-94 with the evaluation of Alpha/alpha-server.cpp:85-90: the client sends, server 0 receives. */
  method CommitDishonest(c: Client, alpha0: nat, t0: seq<Vector>, t1: seq<Vector>, merged: nat)
    returns (x1: Vector, a1: Vector, b1: Vector, os: Vector, status: Status)
    requires ValidClient(c) && alpha0 < Pow2(S) && Seeds(t0, |c.x| + 1) && Seeds(t1, |c.x| + 1) && merged > 0
    ensures status == Ok && |x1| == |c.x| == |a1| - 1 == |b1| - 1
    ensures forall i: nat {:trigger x1[i]} :: i < |x1| ==> x1[i] == Minus(c.x[i], c.x0[i], InputRing())
    ensures Correlated(a1, b1, alpha0, c.x + [(c.xt0 + c.xt1) % InputRing()], CheckRing())
    ensures os == Paired(x1, b1[..|x1|]) + [c.xt1, b1[|x1|]]
  {
    hide Paired, Cong, CheckRing, InputRing, Pow2;
    var q, n := InputRing(), |c.x|;
    x1 := [];
    var xv: Vector := [];
    for i := 0 to n
      invariant |x1| == i && forall j: nat {:trigger x1[j]} :: j < i ==> x1[j] == Minus(c.x[j], c.x0[j], q)
      invariant xv == c.x[..i]
    {
      x1 := x1 + [Minus(c.x[i], c.x0[i], q)];
      xv := xv + [c.x[i]];
    }
    assert c.x[..n] == c.x;
    var xt := (c.xt0 + c.xt1) % q;
    xv := xv + [xt];
    a1, b1, status := Vole(xv, alpha0, t0, t1, merged);
    os := PackShares(Shares(x1, b1[..n], c.xt1, b1[n]));
  }

  /** Alpha/alpha-server.cpp:106-122 */
  method ProductShares(server: Bit, s: Shares, alpha: nat, ab0: Vector, ab1: Vector) returns (m: Vector, mt: nat)
    requires |ab0| == |ab1| == |s.x| + 1
    ensures |m| == |s.x| && InRing(m, CheckRing()) && mt < CheckRing()
    ensures server == 0 ==> mt == ProductShare0(ab1[|s.x|], ab0[|s.x|])
    ensures server == 0 ==> forall i: nat {:trigger m[i]} :: i < |m| ==> m[i] == ProductShare0(ab1[i], ab0[i])
    ensures server == 1 ==> mt == ProductShare1(s.xt, alpha, ab0[|s.x|], ab1[|s.x|])
    ensures server == 1 ==> forall i: nat {:trigger m[i]} :: i < |m| ==> m[i] == ProductShare1(s.x[i], alpha, ab0[i], ab1[i])
  {
    hide CheckRing;
    var p, n := CheckRing(), |s.x|;
    m := [];
    if server == 0 {
      for i := 0 to n
        invariant |m| == i && InRing(m, p) && forall j: nat {:trigger m[j]} :: j < i ==> m[j] == ProductShare0(ab1[j], ab0[j])
      {
        m := m + [Minus(ab1[i], ab0[i], p)];
      }
      mt := Minus(ab1[n], ab0[n], p);
    } else {
      for i := 0 to n
        invariant |m| == i && InRing(m, p) && forall j: nat {:trigger m[j]} :: j < i ==> m[j] == ProductShare1(s.x[j], alpha, ab0[j], ab1[j])
      {
        m := m + [Minus((s.x[i] * alpha % p + ab0[i]) % p, ab1[i], p)];
      }
      mt := Minus((s.xt * alpha % p + ab0[n]) % p, ab1[n], p);
    }
  }

  // ----- the check -----

  ghost function Dot(r: Vector, x: seq<int>, n: nat): int
    requires n <= |r| && n <= |x|
  {
    if n == 0 then 0 else Dot(r, x, n - 1) + r[n - 1] * x[n - 1]
  }

  lemma DotStep(v: nat, r: Vector, x: Vector, i: nat, base: int, p: nat)
    requires p > 0 && i < |r| && i < |x| && Cong(v, base + Dot(r, x, i), p)
    ensures Cong((v + r[i] * x[i] % p) % p, base + Dot(r, x, i + 1), p)
  {
    hide Cong;
    var t := r[i] * x[i];
    Reduced(t, p);
    ReducedSum(t % p, t, v, p);
    ReflCong(t, p);
    CongAdd(v, base + Dot(r, x, i), t, t, p);
    assert (v + t % p) % p == (t % p + v) % p;
    CongTrans((v + t % p) % p, t + v, base + Dot(r, x, i) + t, p);
  }

  /** Alpha/alpha-server.cpp:40-51, 124-135: the random combination of the shares, and the one of the product shares. */
  method Combine(s: Shares, r: Vector, v0: nat, d0: nat) returns (v: nat, d: nat)
    requires |s.x| == |s.m| == |r|
    ensures Cong(v, v0 + s.xt + Dot(r, s.x, |r|), CheckRing()) && Cong(d, d0 + s.mt + Dot(r, s.m, |r|), CheckRing())
  {
    hide Cong, CheckRing;
    var p := CheckRing();
    v := (v0 + s.xt) % p;
    Reduced(v0 + s.xt, p);
    for i := 0 to |r|
      invariant Cong(v, v0 + s.xt + Dot(r, s.x, i), p)
    {
      DotStep(v, r, s.x, i, v0 + s.xt, p);
      v := (v + r[i] * s.x[i] % p) % p;
    }
    d := (d0 + s.mt) % p;
    Reduced(d0 + s.mt, p);
    for i := 0 to |r|
      invariant Cong(d, d0 + s.mt + Dot(r, s.m, i), p)
    {
      DotStep(d, r, s.m, i, d0 + s.mt, p);
      d := (d + r[i] * s.m[i] % p) % p;
    }
  }

  lemma CombineOne(a: int, b: int, c: int, e: int, x: int, m: int, r: int, alpha: int, p: nat)
    requires p > 0 && Cong(m, x * alpha - e, p) && Cong(a, b * alpha - c, p)
    ensures Cong(a + r * m, (b + r * x) * alpha - (c + r * e), p)
  {
    hide Cong;
    CongTimes(m, x * alpha - e, r, p);
    CongAdd(a, b * alpha - c, r * m, r * (x * alpha - e), p);
    assert r * (x * alpha - e) == r * x * alpha - r * e by {
      assert r * (x * alpha) == r * x * alpha;
    }
    assert (b + r * x) * alpha == b * alpha + r * x * alpha;
  }

  /** One entry more, with the combinations `w0` and `w1`, `f0` and `f1` of the shares so far. */
  lemma NextError(w0: int, w1: int, f0: int, f1: int, c: int, x0: nat, x1: nat, m0: nat, m1: nat, e: int, r: nat, alpha: nat)
    requires ErrorIs(x0, x1, m0, m1, alpha, e) && Cong(f0 + f1, (w0 + w1) * alpha - c, CheckRing())
    ensures Cong(f0 + r * m0 + (f1 + r * m1), (w0 + r * x0 + (w1 + r * x1)) * alpha - (c + r * e), CheckRing())
  {
    hide Cong, CheckRing;
    CombineOne(f0 + f1, w0 + w1, c, e, x0 + x1, m0 + m1, r, alpha, CheckRing());
    assert r * (x0 + x1) == r * x0 + r * x1 && r * (m0 + m1) == r * m0 + r * m1;
    assert w0 + w1 + r * (x0 + x1) == w0 + r * x0 + (w1 + r * x1);
  }

  lemma DotNext(r: Vector, x: seq<int>, n: nat, base: int)
    requires n < |r| && n < |x|
    ensures base + Dot(r, x, n + 1) == base + Dot(r, x, n) + r[n] * x[n]
  {
  }

  /** The errors of the shares add up with the same random factors. */
  lemma {:induction false} ErrorsAddUp(s0: Shares, s1: Shares, alpha: nat, e: seq<int>, et: int, r: Vector, n: nat)
    requires ShareErrors(s0, s1, alpha, e, et) && n <= |e| == |r|
    ensures Cong((s0.mt + Dot(r, s0.m, n)) + (s1.mt + Dot(r, s1.m, n)),
                 ((s0.xt + Dot(r, s0.x, n)) + (s1.xt + Dot(r, s1.x, n))) * alpha - (et + Dot(r, e, n)), CheckRing())
  {
    if n > 0 {
      hide *;
      ErrorHere(s0, s1, alpha, e, et, n - 1);
      ErrorsAddUp(s0, s1, alpha, e, et, r, n - 1);
      NextError(s0.xt + Dot(r, s0.x, n - 1), s1.xt + Dot(r, s1.x, n - 1), s0.mt + Dot(r, s0.m, n - 1), s1.mt + Dot(r, s1.m, n - 1),
                et + Dot(r, e, n - 1), s0.x[n - 1], s1.x[n - 1], s0.m[n - 1], s1.m[n - 1], e[n - 1], r[n - 1], alpha);
      DotNext(r, s0.x, n - 1, s0.xt);
      DotNext(r, s1.x, n - 1, s1.xt);
      DotNext(r, s0.m, n - 1, s0.mt);
      DotNext(r, s1.m, n - 1, s1.mt);
      DotNext(r, e, n - 1, et);
    }
  }

  lemma ErrorHere(s0: Shares, s1: Shares, alpha: nat, e: seq<int>, et: int, i: nat)
    requires ShareErrors(s0, s1, alpha, e, et) && i < |e|
    ensures |s0.x| == |s1.x| == |s0.m| == |s1.m| == |e| && ErrorIs(s0.x[i], s1.x[i], s0.m[i], s1.m[i], alpha, e[i])
  {
  }

  /** What the check opens: the two combinations of both servers. */
  ghost predicate OpensTo(v0: nat, d0: nat, v1: nat, d1: nat, alpha: nat, error: int) {
    Cong(d0 + d1 - (v0 + v1) * alpha, 0 - error, CheckRing())
  }

  lemma Opens(s0: Shares, s1: Shares, alpha: nat, e: seq<int>, et: int, r: Vector, v0: nat, d0: nat, v1: nat, d1: nat)
    requires ShareErrors(s0, s1, alpha, e, et) && |e| == |r|
    requires Cong(v0, s0.xt + Dot(r, s0.x, |r|), CheckRing()) && Cong(d0, s0.mt + Dot(r, s0.m, |r|), CheckRing())
    requires Cong(v1, s1.xt + Dot(r, s1.x, |r|), CheckRing()) && Cong(d1, s1.mt + Dot(r, s1.m, |r|), CheckRing())
    ensures OpensTo(v0, d0, v1, d1, alpha, et + Dot(r, e, |r|))
  {
    hide *;
    SameSizes(s0, s1, alpha, e, et);
    ErrorsAddUp(s0, s1, alpha, e, et, r, |r|);
    OpensFrom(v0, d0, v1, d1, s0.xt + Dot(r, s0.x, |r|), s0.mt + Dot(r, s0.m, |r|),
              s1.xt + Dot(r, s1.x, |r|), s1.mt + Dot(r, s1.m, |r|), alpha, et + Dot(r, e, |r|));
  }

  lemma SameSizes(s0: Shares, s1: Shares, alpha: nat, e: seq<int>, et: int)
    requires ShareErrors(s0, s1, alpha, e, et)
    ensures |s0.x| == |s1.x| == |s0.m| == |s1.m| == |e|
  {
  }

  lemma OpensFrom(v0: nat, d0: nat, v1: nat, d1: nat, w0: int, f0: int, w1: int, f1: int, alpha: nat, error: int)
    requires Cong(v0, w0, CheckRing()) && Cong(d0, f0, CheckRing()) && Cong(v1, w1, CheckRing()) && Cong(d1, f1, CheckRing())
    requires Cong(f0 + f1, (w0 + w1) * alpha - error, CheckRing())
    ensures OpensTo(v0, d0, v1, d1, alpha, error)
  {
    hide Cong, CheckRing;
    var p := CheckRing();
    CongAdd(v0, w0, v1, w1, p);
    CongTimes(v0 + v1, w0 + w1, alpha, p);
    CongAdd(d0, f0, d1, f1, p);
    CongTrans(d0 + d1, f0 + f1, (w0 + w1) * alpha - error, p);
    CongAdd(d0 + d1, (w0 + w1) * alpha - error, alpha * (v0 + v1), alpha * (w0 + w1), p);
    assert alpha * (v0 + v1) == (v0 + v1) * alpha && alpha * (w0 + w1) == (w0 + w1) * alpha;
  }

  /** Alpha/alpha-server.cpp:191-196: what a server sends in the second round. */
  method OpenCombinations(vl: Vector, received: Vector, d: Vector, alpha: nat) returns (zl: Vector)
    requires |vl| == |received| == |d|
    ensures |zl| == |vl| && forall i: nat {:trigger zl[i]} :: i < |zl| ==> Cong(zl[i], d[i] - (vl[i] + received[i]) * alpha, CheckRing())
  {
    hide Cong, CheckRing;
    var p := CheckRing();
    zl := [];
    for i := 0 to |vl|
      invariant |zl| == i && forall j: nat {:trigger zl[j]} :: j < i ==> Cong(zl[j], d[j] - (vl[j] + received[j]) * alpha, p)
    {
      var vr := (received[i] + vl[i]) % p;
      Masked(d[i], received[i] + vl[i], alpha, p);
      zl := zl + [Minus(d[i], vr * alpha % p, p)];
    }
  }

  lemma Masked(d: nat, v: nat, alpha: nat, p: nat)
    requires p > 0
    ensures Cong(Minus(d, v % p * alpha % p, p), d - v * alpha, p)
  {
    hide Cong;
    Reduced(v, p);
    CongTimes(v % p, v, alpha, p);
    Reduced(v % p * alpha, p);
    assert alpha * (v % p) == v % p * alpha && alpha * v == v * alpha;
    CongTrans(v % p * alpha % p, v % p * alpha, v * alpha, p);
    ReducedSum(v % p * alpha % p, v * alpha, d, p);
  }

  /** Alpha/alpha-server.cpp:205-214: the sums of both differences; a commitment fails unless it is zero. */
  method OpenDifferences(zl: Vector, received: Vector) returns (z: Vector, failed: seq<bool>)
    requires |zl| == |received|
    ensures |z| == |failed| == |zl|
    ensures forall i: nat {:trigger z[i]} :: i < |z| ==> z[i] == (received[i] + zl[i]) % CheckRing()
    ensures forall i: nat :: i < |failed| ==> (failed[i] <==> z[i] != 0)
  {
    hide CheckRing;
    z, failed := [], [];
    for i := 0 to |zl|
      invariant |z| == |failed| == i
      invariant forall j: nat {:trigger z[j]} :: j < i ==> z[j] == (received[j] + zl[j]) % CheckRing()
      invariant forall j: nat :: j < i ==> (failed[j] <==> z[j] != 0)
    {
      z := z + [(received[i] + zl[i]) % CheckRing()];
      failed := failed + [z[i] != 0];
    }
  }

  /** Alpha/alpha-server.cpp:179-215 on both servers: they come to the same result for every client. */
  method ConsistencyCheckAll(alpha0: nat, alpha1: nat, v0: Vector, v1: Vector, d0: Vector, d1: Vector, ghost errors: seq<int>)
    returns (failed0: seq<bool>, failed1: seq<bool>)
    requires |v0| == |v1| == |d0| == |d1| == |errors|
    requires forall i: nat {:trigger errors[i]} :: i < |errors| ==> OpensTo(v0[i], d0[i], v1[i], d1[i], alpha0 + alpha1, errors[i])
    ensures failed0 == failed1 && |failed0| == |v0|
    ensures forall i: nat {:trigger failed0[i]} :: i < |v0| ==> (failed0[i] <==> errors[i] % CheckRing() != 0)
  {
    hide OpensTo, Cong, CheckRing;
    var zl0 := OpenCombinations(v0, v1, d0, alpha0);
    var zl1 := OpenCombinations(v1, v0, d1, alpha1);
    var z0, z1;
    z0, failed0 := OpenDifferences(zl0, zl1);
    z1, failed1 := OpenDifferences(zl1, zl0);
    forall i: nat | i < |v0| ensures z0[i] == z1[i] && (z0[i] == 0 <==> errors[i] % CheckRing() == 0) {
      assert (zl0[i] + zl1[i]) % CheckRing() == (zl1[i] + zl0[i]) % CheckRing();
      ErrorShows(v0[i], d0[i], v1[i], d1[i], zl0[i], zl1[i], alpha0, alpha1, errors[i]);
    }
  }

  lemma ErrorShows(v0: nat, d0: nat, v1: nat, d1: nat, z0: nat, z1: nat, alpha0: nat, alpha1: nat, error: int)
    requires OpensTo(v0, d0, v1, d1, alpha0 + alpha1, error)
    requires Cong(z0, d0 - (v0 + v1) * alpha0, CheckRing()) && Cong(z1, d1 - (v1 + v0) * alpha1, CheckRing())
    ensures (z0 + z1) % CheckRing() == 0 <==> error % CheckRing() == 0
  {
    hide Cong, CheckRing;
    var p := CheckRing();
    CongAdd(z0, d0 - (v0 + v1) * alpha0, z1, d1 - (v1 + v0) * alpha1, p);
    assert (v0 + v1) * (alpha0 + alpha1) == (v0 + v1) * alpha0 + (v1 + v0) * alpha1;
    CongTrans(z0 + z1, d0 + d1 - (v0 + v1) * (alpha0 + alpha1), 0 - error, p);
    CongZero(z0 + z1, 0 - error, p);
    ZeroOfNegative(error, p);
  }

  lemma ZeroOfNegative(a: int, p: nat)
    requires p > 0
    ensures (0 - a) % p == 0 <==> a % p == 0
  {
    if a % p == 0 {
      FromQuotient(a, 0, a / p, p);
      CongSym(a, 0, p);
    }
    if (0 - a) % p == 0 {
      CongSym(0, a, p);
    }
  }

  // ----- whole runs -----

  lemma AlphaFits(alpha0: nat, alpha1: nat)
    requires alpha0 < Pow2(S) && alpha1 < Pow2(S)
    ensures (alpha0 + alpha1) % CheckRing() == alpha0 + alpha1
  {
    hide Pow2;
    Doubled(S);
    Pow2Monotone(S + 1, K + S + S);
    DivUnique(alpha0 + alpha1, CheckRing(), 0, alpha0 + alpha1);
  }

  lemma Doubled(k: nat)
    ensures Pow2(k + 1) == 2 * Pow2(k)
  {
  }

  ghost predicate ValidClients(clients: seq<Client>, r: seq<Vector>) {
    |clients| == |r| && forall i: nat :: i < |clients| ==> ValidClient(clients[i]) && |r[i]| == |clients[i].x|
  }

  /** What the servers have of an honest client in mode 0: its shares of the inputs, and exact shares of the products with `alpha`,
      those of server 0 as the client chose them. */
  ghost predicate Committed(c: Client, s0: Shares, s1: Shares, alpha: nat)
    requires ValidClient(c)
  {
    && SharedBy(c, s0, s1) && s0.m == c.m0 && s0.mt == c.mt0 && ProductsInRing(s1)
    && ShareErrors(s0, s1, alpha, seq(|c.x|, _ => 0), 0)
  }

  /** Mode 0 for one client. */
  method CommitOneHonest(c: Client, r: Vector, alpha0: nat, alpha1: nat)
    returns (s0: Shares, s1: Shares, v0: nat, d0: nat, v1: nat, d1: nat)
    requires ValidClient(c) && |r| == |c.x| && alpha0 < Pow2(S) && alpha1 < Pow2(S)
    ensures SharesOf(c.x, s0, s1) && OpensTo(v0, d0, v1, d1, alpha0 + alpha1, 0)
    ensures Committed(c, s0, s1, alpha0 + alpha1)
  {
    hide SharedBy, ProductsInRing, Cong, CheckRing, InputRing, ShareErrors, OpensTo, Paired, Pow2;
    AlphaFits(alpha0, alpha1);
    s0 := Shares(c.x0, c.m0, c.xt0, c.mt0);
    var os, status;
    s1, os := CommitHonest(c, alpha0, alpha1);
    ghost var sent := s1;
    s1, status := UnpackShares(os, |r|);
    assert s1 == sent;
    v0, d0 := Combine(s0, r, 0, 0);
    v1, d1 := Combine(s1, r, 0, 0);
    ghost var none := seq(|c.x|, _ => 0);
    Opens(s0, s1, alpha0 + alpha1, none, 0, r, v0, d0, v1, d1);
    NoDot(r, none, |r|);
  }

  lemma {:induction false} NoDot(r: Vector, e: seq<int>, n: nat)
    requires n <= |r| && n <= |e| && forall i: nat :: i < |e| ==> e[i] == 0
    ensures Dot(r, e, n) == 0
  {
    if n > 0 {
      NoDot(r, e, n - 1);
    }
  }

  /** Mode 0: for all inputs, shares and random factors, no commitment fails, and the servers share the inputs and their products. */
  method RunHonest(clients: seq<Client>, r: seq<Vector>, alpha0: nat, alpha1: nat)
    returns (shares0: seq<Shares>, shares1: seq<Shares>, failed0: seq<bool>, failed1: seq<bool>)
    requires ValidClients(clients, r) && alpha0 < Pow2(S) && alpha1 < Pow2(S)
    ensures |shares0| == |shares1| == |clients|
    ensures forall i: nat :: i < |clients| ==> SharesOf(clients[i].x, shares0[i], shares1[i])
    ensures forall i: nat :: i < |clients| ==> Committed(clients[i], shares0[i], shares1[i], alpha0 + alpha1)
    ensures |failed0| == |failed1| == |clients| && true !in failed0 && true !in failed1
  {
    hide SharesOf, Committed, OpensTo, CheckRing, Pow2, ValidClient;
    var v0, v1, d0, d1: Vector := [], [], [], [];
    shares0, shares1 := [], [];
    ghost var errors := seq(|clients|, _ => 0);
    for i := 0 to |clients|
      invariant |v0| == |v1| == |d0| == |d1| == |shares0| == |shares1| == i
      invariant forall j: nat :: j < i ==>
        SharesOf(clients[j].x, shares0[j], shares1[j]) && Committed(clients[j], shares0[j], shares1[j], alpha0 + alpha1)
      invariant forall j: nat {:trigger v0[j]} :: j < i ==> OpensTo(v0[j], d0[j], v1[j], d1[j], alpha0 + alpha1, 0)
    {
      var s0, s1, vl, dl, vr, dr := CommitOneHonest(clients[i], r[i], alpha0, alpha1);
      shares0, shares1 := shares0 + [s0], shares1 + [s1];
      v0, d0, v1, d1 := v0 + [vl], d0 + [dl], v1 + [vr], d1 + [dr];
    }
    failed0, failed1 := ConsistencyCheckAll(alpha0, alpha1, v0, v1, d0, d1, errors);
    ZeroIsZero();
  }

  lemma ZeroIsZero()
    ensures 0 % CheckRing() == 0
  {
    DivUnique(0, CheckRing(), 0, 0);
  }

  /** Which shares of the inputs wrap around the input ring: those where the share of server 0 is the larger number. */
  ghost function WrapBits(c: Client): (w: seq<int>)
    requires |c.x| == |c.x0|
    ensures |w| == |c.x|
  {
    seq(|c.x|, i requires 0 <= i < |c.x| => if c.x0[i] > c.x[i] then 1 else 0)
  }

  /** The random combination of the wraps, from what the client and server 0 start with. */
  ghost function WrapSum(c: Client, r: Vector): int
    requires |c.x| == |c.x0| == |r|
  {
    (c.xt0 + c.xt1) / InputRing() + Dot(r, WrapBits(c), |r|)
  }

  lemma OneWrap(x: nat, x0: nat, q: nat)
    requires x < q && x0 < q
    ensures Minus(x, x0, q) == if x0 > x then x + q - x0 else x - x0
    ensures (x0 + Minus(x, x0, q)) / q == if x0 > x then 1 else 0
  {
    if x0 > x {
      DivUnique(x as int - x0 as int, q, -1, x + q - x0);
      DivUnique(x + q, q, 1, x);
    } else {
      DivUnique(x as int - x0 as int, q, 0, x - x0);
      DivUnique(x, q, 0, x);
    }
  }

  lemma WrapsAreBits(c: Client, x1: Vector)
    requires ValidClient(c) && |x1| == |c.x|
    requires forall i: nat {:trigger x1[i]} :: i < |x1| ==> x1[i] == Minus(c.x[i], c.x0[i], InputRing())
    ensures Wraps(c.x0, x1) == WrapBits(c)
  {
    hide InputRing, Minus;
    forall i: nat | i < |x1| ensures Wraps(c.x0, x1)[i] == WrapBits(c)[i] {
      OneWrap(c.x[i], c.x0[i], InputRing());
    }
    assert Wraps(c.x0, x1) == WrapBits(c);
  }

  lemma SharesAddUp(c: Client, x1: Vector)
    requires ValidClient(c) && |x1| == |c.x|
    requires forall i: nat {:trigger x1[i]} :: i < |x1| ==> x1[i] == Minus(c.x[i], c.x0[i], InputRing())
    ensures forall i: nat {:trigger x1[i]} :: i < |x1| ==> (c.x0[i] + x1[i]) % InputRing() == c.x[i]
  {
    hide InputRing, Minus;
    forall i: nat | i < |x1| ensures (c.x0[i] + x1[i]) % InputRing() == c.x[i] {
      OtherShare(c.x[i], c.x0[i], InputRing());
    }
  }

  lemma {:induction false} DotScaled(r: Vector, f: int, w: seq<int>, n: nat)
    requires n <= |r| && n <= |w|
    ensures Dot(r, Scaled(f, w), n) == f * Dot(r, w, n)
  {
    if n > 0 {
      DotScaled(r, f, w, n - 1);
      var (a, b) := (r[n - 1], w[n - 1]);
      assert a * (f * b) == f * (a * b);
      assert f * (Dot(r, w, n - 1) + a * b) == f * Dot(r, w, n - 1) + f * (a * b);
    }
  }

  lemma Rings()
    ensures CheckRing() == InputRing() * Pow2(S)
  {
    Pow2Add(K + S, S);
  }

  /** An error of `alpha0` times the wraps is zero in the ring of the check just when its low bits are zero. */
  lemma WrapsShow(alpha0: nat, w: int)
    ensures ((alpha0 * InputRing()) * w) % CheckRing() == 0 <==> (alpha0 * w) % Pow2(S) == 0
  {
    hide InputRing, CheckRing, Pow2;
    Rings();
    var (q, t, a) := (InputRing(), Pow2(S), alpha0 * w);
    MulAssoc(q, alpha0, w);
    assert alpha0 * q == q * alpha0;
    ScaledMod(q, t, a);
    if a % t > 0 {
      MulOrder(q, 1, a % t);
    }
  }

  lemma MulAssoc(a: int, b: int, c: int)
    ensures (a * b) * c == a * (b * c)
  {
  }

  lemma ScaledMod(q: nat, t: nat, a: int)
    requires q > 0 && t > 0
    ensures q * t > 0 && (q * a) % (q * t) == q * (a % t)
  {
    var (d, m) := (a / t, a % t);
    MulAssoc(q, t, d);
    MulOrder(q, m + 1, t);
    Distributed(q, t * d, m);
    Distributed(q, m, 1);
    DivUnique(q * a, q * t, d, q * m);
  }

  lemma ShareOfOle(c: Client, x1: Vector, alpha0: nat, alpha1: nat, a0: Vector, b0: Vector, a1: Vector, b1: Vector, s0: Shares, s1: Shares)
    requires ValidClient(c) && |x1| == |c.x| && forall i: nat {:trigger x1[i]} :: i < |x1| ==> (c.x0[i] + x1[i]) % InputRing() == c.x[i]
    requires Correlated(a0, b0, alpha1, c.x0 + [c.xt0], CheckRing())
    requires Correlated(a1, b1, alpha0, c.x + [(c.xt0 + c.xt1) % InputRing()], CheckRing())
    requires s0.x == c.x0 && s0.xt == c.xt0 && s1.x == x1 && s1.xt == c.xt1 && |s0.m| == |s1.m| == |x1|
    requires forall i: nat {:trigger s0.m[i]} :: i < |x1| ==> s0.m[i] == ProductShare0(a1[i], b0[i])
    requires forall i: nat {:trigger s1.m[i]} :: i < |x1| ==> s1.m[i] == ProductShare1(x1[i], alpha1, a0[i], b1[i])
    requires s0.mt == ProductShare0(a1[|x1|], b0[|x1|]) && s1.mt == ProductShare1(c.xt1, alpha1, a0[|x1|], b1[|x1|])
    ensures ShareErrors(s0, s1, alpha0 + alpha1, Scaled(alpha0 * InputRing(), Wraps(c.x0, x1)),
                        (alpha0 * InputRing()) * ((c.xt0 + c.xt1) / InputRing()))
  {
    hide Cong, CheckRing, InputRing, ProductShare0, ProductShare1, ErrorIs;
    var (q, n, p) := (InputRing(), |x1|, CheckRing());
    var xv := c.x + [(c.xt0 + c.xt1) % q];
    var xw := c.x0 + [c.xt0];
    var e := Scaled(alpha0 * q, Wraps(c.x0, x1));
    forall i: nat | i < n ensures ErrorIs(s0.x[i], s1.x[i], s0.m[i], s1.m[i], alpha0 + alpha1, e[i]) {
      assert xv[i] == c.x[i] && xw[i] == c.x0[i];
      OleShare(c.x[i], c.x0[i], x1[i], alpha0, alpha1, a0[i], b0[i], a1[i], b1[i]);
    }
    assert xv[n] == (c.xt0 + c.xt1) % q && xw[n] == c.xt0;
    OleShare((c.xt0 + c.xt1) % q, c.xt0, c.xt1, alpha0, alpha1, a0[n], b0[n], a1[n], b1[n]);
  }

  /** The product shares are off by `alpha0` times what wraps. */
  ghost predicate WrapErrors(c: Client, s0: Shares, s1: Shares, alpha0: nat, alpha1: nat)
    requires |c.x| == |c.x0|
  {
    && ShareErrors(s0, s1, alpha0 + alpha1, Scaled(alpha0 * InputRing(), WrapBits(c)), (alpha0 * InputRing()) * ((c.xt0 + c.xt1) / InputRing()))
    && ProductsInRing(s0) && ProductsInRing(s1)
  }

  /** Mode 1 for one client, with the servers' own evaluation (`a0`, `b0`) done. */
  method CommitOneDishonest(c: Client, r: Vector, alpha0: nat, alpha1: nat, a0: Vector, b0: Vector,
                            t0: seq<Vector>, t1: seq<Vector>, merged: nat)
    returns (s0: Shares, s1: Shares, v0: nat, d0: nat, v1: nat, d1: nat)
    requires ValidClient(c) && |r| == |c.x| && alpha0 < Pow2(S) && alpha1 < Pow2(S)
    requires Correlated(a0, b0, alpha1, c.x0 + [c.xt0], CheckRing())
    requires Seeds(t0, |c.x| + 1) && Seeds(t1, |c.x| + 1) && merged > 0
    ensures SharesOf(c.x, s0, s1) && SharedBy(c, s0, s1) && WrapErrors(c, s0, s1, alpha0, alpha1)
    ensures OpensTo(v0, d0, v1, d1, alpha0 + alpha1, (alpha0 * InputRing()) * WrapSum(c, r))
  {
    hide Cong, CheckRing, InputRing, ShareErrors, OpensTo, Paired, Pow2, ProductShare0, ProductShare1, Wraps, Scaled, Minus, WrapBits;
    var n := |c.x|;
    var x1, a1, b1, os, status := CommitDishonest(c, alpha0, t0, t1, merged);
    SharesAddUp(c, x1);
    WrapsAreBits(c, x1);
    ghost var sent := Shares(x1, b1[..n], c.xt1, b1[n]);
    var got;
    got, status := UnpackShares(os, n);
    assert got == sent;
    var m0, mt0 := ProductShares(0, Shares(c.x0, [], c.xt0, 0), alpha0, b0, a1);
    s0 := Shares(c.x0, m0, c.xt0, mt0);
    var m1, mt1 := ProductShares(1, got, alpha1, a0, got.m + [got.mt]);
    s1 := Shares(got.x, m1, got.xt, mt1);
    assert got.m + [got.mt] == b1;
    ShareOfOle(c, x1, alpha0, alpha1, a0, b0, a1, b1, s0, s1);
    v0, d0 := Combine(s0, r, 0, 0);
    v1, d1 := Combine(s1, r, 0, 0);
    OpensToWraps(c, s0, s1, r, alpha0, alpha1, v0, d0, v1, d1);
  }

  lemma OpensToWraps(c: Client, s0: Shares, s1: Shares, r: Vector, alpha0: nat, alpha1: nat, v0: nat, d0: nat, v1: nat, d1: nat)
    requires |c.x| == |c.x0| == |r|
    requires ShareErrors(s0, s1, alpha0 + alpha1, Scaled(alpha0 * InputRing(), WrapBits(c)),
                         (alpha0 * InputRing()) * ((c.xt0 + c.xt1) / InputRing()))
    requires Combined(s0, r, v0, d0) && Combined(s1, r, v1, d1)
    ensures OpensTo(v0, d0, v1, d1, alpha0 + alpha1, (alpha0 * InputRing()) * WrapSum(c, r))
  {
    hide Cong, CheckRing, InputRing, ShareErrors, OpensTo, Scaled, WrapBits;
    var (f, w, wt) := (alpha0 * InputRing(), WrapBits(c), (c.xt0 + c.xt1) / InputRing());
    Opens(s0, s1, alpha0 + alpha1, Scaled(f, w), f * wt, r, v0, d0, v1, d1);
    DotScaled(r, f, w, |r|);
    Distributed(f, wt, Dot(r, w, |r|));
  }

  lemma Distributed(f: int, a: int, b: int)
    ensures f * a + f * b == f * (a + b)
  {
  }

  /** Both combinations of a server that starts from 0. */
  ghost predicate Combined(s: Shares, r: Vector, v: nat, d: nat) {
    && |s.x| == |s.m| == |r|
    && Cong(v, s.xt + Dot(r, s.x, |r|), CheckRing()) && Cong(d, s.mt + Dot(r, s.m, |r|), CheckRing())
  }

  /** Mode 1: a commitment fails exactly when `alpha0` times the combined wraps of the client's shares is not 0 modulo 2^S. */
  method RunDishonest(clients: seq<Client>, r: seq<Vector>, alpha0: nat, alpha1: nat, a0: seq<Vector>, b0: seq<Vector>,
                      t0: seq<seq<Vector>>, t1: seq<seq<Vector>>, merged: nat)
    returns (shares0: seq<Shares>, shares1: seq<Shares>, failed0: seq<bool>, failed1: seq<bool>)
    requires ValidClients(clients, r) && alpha0 < Pow2(S) && alpha1 < Pow2(S) && merged > 0
    requires |a0| == |b0| == |t0| == |t1| == |clients|
    requires forall i: nat :: i < |clients| ==> Correlated(a0[i], b0[i], alpha1, clients[i].x0 + [clients[i].xt0], CheckRing())
    requires forall i: nat :: i < |clients| ==> Seeds(t0[i], |clients[i].x| + 1) && Seeds(t1[i], |clients[i].x| + 1)
    ensures |shares0| == |shares1| == |clients|
    ensures forall i: nat :: i < |clients| ==>
      SharesOf(clients[i].x, shares0[i], shares1[i]) && SharedBy(clients[i], shares0[i], shares1[i])
    ensures forall i: nat :: i < |clients| ==> WrapErrors(clients[i], shares0[i], shares1[i], alpha0, alpha1)
    ensures failed0 == failed1 && |failed0| == |clients|
    ensures forall i: nat :: i < |clients| ==> (failed0[i] <==> (alpha0 * WrapSum(clients[i], r[i])) % Pow2(S) != 0)
  {
    hide SharesOf, SharedBy, WrapErrors, OpensTo, CheckRing, InputRing, Pow2, WrapSum, Correlated, Seeds;
    var v0, v1, d0, d1: Vector := [], [], [], [];
    shares0, shares1 := [], [];
    ghost var errors := [];
    for i := 0 to |clients|
      invariant |v0| == |v1| == |d0| == |d1| == |shares0| == |shares1| == |errors| == i
      invariant forall j: nat :: j < i ==>
        SharesOf(clients[j].x, shares0[j], shares1[j]) && SharedBy(clients[j], shares0[j], shares1[j])
      invariant forall j: nat :: j < i ==> WrapErrors(clients[j], shares0[j], shares1[j], alpha0, alpha1)
      invariant forall j: nat :: j < i ==> errors[j] == (alpha0 * InputRing()) * WrapSum(clients[j], r[j])
      invariant forall j: nat {:trigger errors[j]} :: j < i ==> OpensTo(v0[j], d0[j], v1[j], d1[j], alpha0 + alpha1, errors[j])
    {
      var s0, s1, vl, dl, vr, dr := CommitOneDishonest(clients[i], r[i], alpha0, alpha1, a0[i], b0[i], t0[i], t1[i], merged);
      shares0, shares1 := shares0 + [s0], shares1 + [s1];
      v0, d0, v1, d1 := v0 + [vl], d0 + [dl], v1 + [vr], d1 + [dr];
      errors := errors + [(alpha0 * InputRing()) * WrapSum(clients[i], r[i])];
    }
    failed0, failed1 := ConsistencyCheckAll(alpha0, alpha1, v0, v1, d0, d1, errors);
    forall i: nat | i < |clients| ensures failed0[i] <==> (alpha0 * WrapSum(clients[i], r[i])) % Pow2(S) != 0 {
      WrapsShow(alpha0, WrapSum(clients[i], r[i]));
    }
  }

  /** Without wraps the combination is 0. */
  lemma NoWraps(c: Client, r: Vector)
    requires |c.x| == |c.x0| == |r| && c.xt0 + c.xt1 < InputRing()
    requires forall i: nat :: i < |c.x| ==> c.x0[i] <= c.x[i]
    ensures WrapSum(c, r) == 0
  {
    hide InputRing;
    DivUnique(c.xt0 + c.xt1, InputRing(), 0, c.xt0 + c.xt1);
    NoDot(r, WrapBits(c), |r|);
  }

  /** Alpha/alpha-pre.h:63-76: outputs 0 on both sides are right for shares 0. */
  lemma FakeIsCorrelated(n: nat, alpha1: nat)
    ensures Correlated(Zeros(n), Zeros(n), alpha1, Zeros(n), CheckRing())
  {
    hide CheckRing;
    ReflCong(0, CheckRing());
  }

  /** Alpha/alpha-pre.h:39-49: what a client starts with when `get_x0` gives 0. */
  ghost predicate Shipped(c: Client) {
    c.x0 == Zeros(|c.x|) && c.xt0 == 0
  }

  /** Mode 1 as shipped, with shares 0 for server 0 and the evaluation between the servers simulated by 0: for all inputs no
      commitment fails. */
  method RunShipped(clients: seq<Client>, r: seq<Vector>, alpha0: nat, alpha1: nat,
                    t0: seq<seq<Vector>>, t1: seq<seq<Vector>>, merged: nat)
    returns (shares0: seq<Shares>, shares1: seq<Shares>, failed0: seq<bool>, failed1: seq<bool>)
    requires ValidClients(clients, r) && alpha0 < Pow2(S) && alpha1 < Pow2(S) && merged > 0
    requires |t0| == |t1| == |clients| && forall i: nat :: i < |clients| ==> Shipped(clients[i])
    requires forall i: nat :: i < |clients| ==> Seeds(t0[i], |clients[i].x| + 1) && Seeds(t1[i], |clients[i].x| + 1)
    ensures |shares0| == |shares1| == |failed0| == |failed1| == |clients|
    ensures forall i: nat :: i < |clients| ==> SharesOf(clients[i].x, shares0[i], shares1[i])
    ensures forall i: nat :: i < |clients| ==> SharedBy(clients[i], shares0[i], shares1[i])
    ensures forall i: nat :: i < |clients| ==> ShareErrors(shares0[i], shares1[i], alpha0 + alpha1, seq(|clients[i].x|, _ => 0), 0)
    ensures true !in failed0 && true !in failed1
  {
    hide SharesOf, SharedBy, ShareErrors, WrapErrors, CheckRing, InputRing, Pow2, WrapSum, Correlated, Seeds;
    var zeros := seq(|clients|, i requires 0 <= i < |clients| => Zeros(|clients[i].x| + 1));
    forall i: nat | i < |clients| ensures Correlated(zeros[i], zeros[i], alpha1, clients[i].x0 + [clients[i].xt0], CheckRing()) {
      FakeIsCorrelated(|clients[i].x| + 1, alpha1);
      assert clients[i].x0 + [clients[i].xt0] == Zeros(|clients[i].x| + 1);
    }
    shares0, shares1, failed0, failed1 := RunDishonest(clients, r, alpha0, alpha1, zeros, zeros, t0, t1, merged);
    forall i: nat | i < |clients| ensures ShareErrors(shares0[i], shares1[i], alpha0 + alpha1, seq(|clients[i].x|, _ => 0), 0) {
      NoWrapErrors(clients[i], shares0[i], shares1[i], alpha0, alpha1);
    }
    forall i: nat | i < |clients| ensures !failed0[i] {
      NoWraps(clients[i], r[i]);
      ZeroProduct(alpha0, Pow2(S));
    }
  }

  lemma NoWrapErrors(c: Client, s0: Shares, s1: Shares, alpha0: nat, alpha1: nat)
    requires ValidClient(c) && Shipped(c) && WrapErrors(c, s0, s1, alpha0, alpha1)
    ensures ShareErrors(s0, s1, alpha0 + alpha1, seq(|c.x|, _ => 0), 0)
  {
    hide InputRing, ShareErrors;
    DivUnique(c.xt0 + c.xt1, InputRing(), 0, c.xt0 + c.xt1);
    assert (alpha0 * InputRing()) * 0 == 0;
    assert Scaled(alpha0 * InputRing(), WrapBits(c)) == seq(|c.x|, _ => 0);
  }

  lemma ZeroProduct(a: nat, p: nat)
    requires p > 0
    ensures (a * 0) % p == 0
  {
    DivUnique(0, p, 0, 0);
  }

  /** Some shares wrap, and then an honest client fails: the input 0, shared as 1 and 2^(K+S) - 1, with the random factor 1
      fails for every `alpha0` but 0. */
  method RunWrapping(alpha0: nat, alpha1: nat, t0: seq<Vector>, t1: seq<Vector>, merged: nat)
    returns (shares0: seq<Shares>, shares1: seq<Shares>, failed0: seq<bool>, failed1: seq<bool>)
    requires 0 < alpha0 < Pow2(S) && alpha1 < Pow2(S) && merged > 0 && Seeds(t0, 2) && Seeds(t1, 2)
    ensures failed0 == failed1 == [true]
    ensures |shares0| == |shares1| == 1 && SharesOf([0], shares0[0], shares1[0])
  {
    hide CheckRing, InputRing, Pow2, Correlated, Seeds, SharesOf, SharedBy, WrapSum;
    var c := Client([0], [1], 0, 0, [0], 0);
    RingsLarge();
    OneIsCorrelated(alpha1);
    shares0, shares1, failed0, failed1 := RunDishonest([c], [[1]], alpha0, alpha1, [[alpha1, 0]], [[0, 0]], [t0], [t1], merged);
    WrapSumOfOne(c);
    assert [[1]][0] == [1] && [c][0] == c;
    DivUnique(alpha0, Pow2(S), 0, alpha0);
    assert alpha0 * 1 == alpha0;
    assert failed0[0];
  }

  lemma RingsLarge()
    ensures InputRing() > 1
  {
    hide Pow2;
    Pow2Monotone(1, K + S);
    Doubled(0);
    PowZero();
  }

  lemma OneIsCorrelated(alpha1: nat)
    ensures Correlated([alpha1, 0], [0, 0], alpha1, [1] + [0], CheckRing())
  {
    hide CheckRing;
    ReflCong(alpha1, CheckRing());
    ReflCong(0, CheckRing());
    assert alpha1 * 1 == alpha1 && alpha1 * 0 == 0;
  }

  lemma WrapSumOfOne(c: Client)
    requires c == Client([0], [1], 0, 0, [0], 0)
    ensures WrapSum(c, [1]) == 1
  {
    hide InputRing;
    DivUnique(0, InputRing(), 0, 0);
    assert WrapBits(c)[0] == 1;
    assert Dot([1], WrapBits(c), 0) == 0;
  }

  lemma PowZero()
    ensures Pow2(0) == 1
  {
  }
}
