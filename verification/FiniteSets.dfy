/** Sizes of finite sets and of lists without repetition. */
module FiniteSets {

  ghost predicate Distinct(s: seq<nat>) {
    forall a: nat, b: nat :: a < b < |s| ==> s[a] != s[b]
  }

  function Below(n: nat): (s: set<nat>)
    ensures |s| == n && forall v: nat :: v in s <==> v < n
  {
    if n == 0 then {} else Below(n - 1) + {n - 1}
  }

  ghost function ToSet(s: seq<nat>): set<nat> {
    set x | x in s
  }

  lemma DistinctSize(s: seq<nat>)
    requires Distinct(s)
    ensures |ToSet(s)| == |s|
  {
    if s != [] {
      var k := |s| - 1;
      DistinctSize(s[..k]);
      assert s == s[..k] + [s[k]];
      assert s[k] !in s[..k];
      assert ToSet(s) == ToSet(s[..k]) + {s[k]};
    }
  }

  lemma SubsetSize<T>(a: set<T>, b: set<T>)
    requires a <= b
    ensures |a| <= |b|
  {
    assert b == a + (b - a);
  }

  lemma SameWhenFull<T>(a: set<T>, b: set<T>)
    requires a <= b && |a| == |b|
    ensures a == b
  {
    assert b == a + (b - a);
  }

  lemma {:induction false} OneToOneSize(m: map<nat, nat>)
    requires forall a, b :: a in m && b in m && a != b ==> m[a] != m[b]
    ensures |m.Values| == |m.Keys|
    decreases |m.Keys|
  {
    if m.Keys != {} {
      var k :| k in m.Keys;
      var rest := m - {k};
      assert rest.Keys == m.Keys - {k};
      OneToOneSize(rest);
      assert m.Values == rest.Values + {m[k]} by {
        forall v | v in m.Values ensures v in rest.Values + {m[k]} {
          var a :| a in m && m[a] == v;
          assert a != k ==> a in rest;
        }
      }
      assert m[k] !in rest.Values;
    } else {
      assert m.Values == {};
    }
  }

  lemma ValuesIn(m: map<nat, nat>, s: set<nat>)
    requires forall k :: k in m ==> m[k] in s
    ensures m.Values <= s
  {
  }

  lemma Squeezed(values: set<nat>, keys: set<nat>, all: set<nat>)
    requires values <= keys <= all && |values| == |all|
    ensures keys == all
  {
    SubsetSize(values, keys);
    SubsetSize(keys, all);
    SameWhenFull(keys, all);
  }
}
