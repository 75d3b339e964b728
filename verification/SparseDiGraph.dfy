/** Compiler/graph.py:8-99: the mutable graph, with successor lists and predecessor sets kept in step. */
module SparseDiGraphs {
  import opened Graph

  ghost predicate NoDup(s: seq<nat>) {
    forall a: nat, b: nat :: a < b < |s| ==> s[a] != s[b]
  }

  /** `s1` has the edges of `s0` and the edge from `i` to `j`. */
  ghost predicate Added(s0: Succ, s1: Succ, i: nat, j: nat) {
    && |s1| == |s0|
    && forall a: nat, b: nat {:trigger b in s1[a]} {:trigger b in s0[a]} :: a < |s0| ==>
         (b in s1[a] <==> b in s0[a] || (a == i && b == j))
  }

  /** `s1` lost the edges into `i`, except those out of nodes removed earlier. */
  ghost predicate Unlinked(s0: Succ, s1: Succ, i: nat, removed: set<nat>) {
    && |s1| == |s0|
    && forall a: nat, b: nat {:trigger b in s1[a]} {:trigger b in s0[a]} :: a < |s0| ==>
         (b in s1[a] <==> b in s0[a] && !(b == i && a != i && a !in removed))
  }

  function Without(s: seq<nat>, v: nat): (r: seq<nat>)
    requires NoDup(s)
    ensures NoDup(r) && forall u: nat :: u in r <==> u in s && u != v
  {
    if s == [] then []
    else if s[0] == v then
      assert forall u: nat :: u in s <==> u == v || u in s[1..];
      s[1..]
    else
      assert NoDup(s[1..]);
      assert forall u: nat :: u in s <==> u == s[0] || u in s[1..];
      var rest := Without(s[1..], v);
      assert s[0] !in s[1..];
      [s[0]] + rest
  }

  class SparseDiGraph {
    const n: nat
    var succ: Succ
    var pred: seq<set<nat>>
    var weights: map<(nat, nat), int>
    ghost var removed: set<nat>

    ghost predicate Valid()
      reads this
    {
      && |succ| == n && |pred| == n
      && (forall i: nat :: i < n ==> NoDup(succ[i]))
      && (forall i: nat, j: nat {:trigger j in succ[i]} :: i < n && j in succ[i] ==> j < n && (i, j) in weights)
      && (forall i: nat, j: nat {:trigger i in pred[j]} :: j < n && i in pred[j] ==> i < n && i !in removed && j in succ[i])
      && (forall i: nat, j: nat {:trigger j in succ[i]} :: i < n && i !in removed && j in succ[i] ==> i in pred[j])
      && (forall i: nat :: i < n && i in removed ==> pred[i] == {})
    }

    constructor (maxNodes: nat)
      ensures n == maxNodes && Valid() && removed == {}
      ensures succ == seq(n, i => [])
    {
      n := maxNodes;
      succ := seq(maxNodes, i => []);
      pred := seq(maxNodes, i => {});
      weights := map[];
      removed := {};
    }

    method AddEdge(i: nat, j: nat, weight: int)
      requires Valid() && i < n && j < n && i !in removed && j !in removed
      modifies this
      ensures Valid() && removed == old(removed)
      ensures Added(old(succ), succ, i, j)
    {
      if j !in succ[i] {
        pred := pred[j := pred[j] + {i}];
        succ := succ[i := succ[i] + [j]];
      }
      weights := weights[(i, j) := weight];
    }

    method RemoveEdge(i: nat, j: nat)
      requires Valid() && i < n && i !in removed && j in succ[i]
      modifies this
      ensures Valid() && removed == old(removed)
      ensures |succ| == |old(succ)|
      ensures forall a: nat, b: nat {:trigger b in succ[a]} :: a < n ==> (b in succ[a] <==> b in old(succ)[a] && !(a == i && b == j))
    {
      succ := succ[i := Without(succ[i], j)];
      pred := pred[j := pred[j] - {i}];
      weights := weights - {(i, j)};
    }

    /** Leaves the outgoing list of the removed node as it was. */
    method RemoveNode(i: nat)
      requires Valid() && i < n && i !in removed && i !in succ[i]
      modifies this
      ensures Valid() && removed == old(removed) + {i}
      ensures Unlinked(old(succ), succ, i, old(removed))
    {
      for k := 0 to |succ[i]|
        invariant succ == old(succ) && removed == old(removed) && |pred| == n && weights == old(weights)
        invariant forall a: nat, b: nat {:trigger a in pred[b]} {:trigger a in old(pred)[b]} ::
                    b < n ==> (a in pred[b] <==> a in old(pred)[b] && !(a == i && b in succ[i][..k]))
      {
        var v := succ[i][k];
        assert v in succ[i];
        pred := pred[v := pred[v] - {i}];
        assert succ[i][..k + 1] == succ[i][..k] + [v];
      }
      assert succ[i][..|succ[i]|] == succ[i];
      var todo := pred[i];
      ghost var pred1 := pred;
      while todo != {}
        invariant todo <= old(pred)[i] && i !in todo
        invariant |succ| == n && (forall a: nat :: a < n ==> NoDup(succ[a]))
        invariant forall a: nat, b: nat {:trigger b in succ[a]} {:trigger b in old(succ)[a]} ::
                    a < n ==> (b in succ[a] <==> b in old(succ)[a] && !(b == i && a in old(pred)[i] && a !in todo))
        invariant removed == old(removed) && weights == old(weights) && pred == pred1
      {
        var v :| v in todo;
        succ := succ[v := Without(succ[v], i)];
        todo := todo - {v};
      }
      pred := pred[i := {}];
      removed := removed + {i};
    }
  }
}
