/** Compiler/gs.py: Gale-Shapley stable matching over oblivious arrays, for as many men as women and complete
    preference lists. An array with secret indices is a map; a missing entry reads as free. */
module StableMatching {
  import opened FiniteSets

  /** `prefs[m]` lists all women in the order in which man m likes them; `ranks[w][m]` is how woman w ranks man m. */
  datatype Instance = Instance(n: nat, prefs: seq<seq<nat>>, ranks: seq<seq<nat>>)

  ghost predicate Complete(i: Instance) {
    && |i.prefs| == |i.ranks| == i.n
    && (forall m: nat :: m < i.n ==> IsOrder(i.prefs[m], i.n))
    && (forall w: nat :: w < i.n ==> |i.ranks[w]| == i.n)
  }

  ghost predicate IsOrder(s: seq<nat>, n: nat) {
    |s| == n && Distinct(s) && forall w :: w in s ==> w < n
  }

  ghost predicate StrictRanks(i: Instance)
    requires Complete(i)
  {
    forall w: nat, l: nat, m: nat {:trigger i.ranks[w][l], i.ranks[w][m]} :: w < i.n && l < i.n && m < i.n && l != m ==> i.ranks[w][l] != i.ranks[w][m]
  }

  // ----- the state of a run -----

  /** Engagements, the stack of single men and how many women each man has asked. */
  datatype State = State(wives: map<nat, nat>, husbands: map<nat, nat>, single: seq<nat>, asked: seq<nat>)

  ghost predicate Engagements(i: Instance, s: State) {
    && (forall m :: m in s.wives ==> m < i.n && s.wives[m] < i.n && s.wives[m] in s.husbands && s.husbands[s.wives[m]] == m)
    && (forall w :: w in s.husbands ==> w < i.n && s.husbands[w] in s.wives && s.wives[s.husbands[w]] == w)
  }

  /** The stack holds every man without a wife exactly once. */
  ghost predicate Singles(i: Instance, s: State) {
    Distinct(s.single) && forall m: nat :: m in s.single <==> m < i.n && m !in s.wives
  }

  /** A man's wife is the last woman he asked, and a woman once asked keeps a man she ranks no lower. */
  ghost predicate Asked(i: Instance, s: State)
    requires Complete(i)
  {
    && |s.asked| == i.n
    && (forall m: nat :: m < i.n ==> s.asked[m] <= i.n)
    && (forall m :: m in s.wives ==> m < i.n && s.asked[m] > 0 && i.prefs[m][s.asked[m] - 1] == s.wives[m])
    && (forall m: nat, j: nat {:trigger i.prefs[m][j]} :: m < i.n && j < s.asked[m] ==> Settled(i, s.husbands, i.prefs[m][j], m))
  }

  ghost predicate Settled(i: Instance, husbands: map<nat, nat>, w: nat, m: nat)
    requires Complete(i) && m < i.n
  {
    w < i.n && w in husbands && husbands[w] < i.n && i.ranks[w][husbands[w]] <= i.ranks[w][m]
  }

  ghost predicate Inv(i: Instance, s: State)
    requires Complete(i)
  {
    Engagements(i, s) && Singles(i, s) && Asked(i, s)
  }

  /** One proposal: the man on top of the stack asks the next woman on his list. */
  ghost function Proposal(i: Instance, s: State): State
    requires Complete(i) && Inv(i, s) && s.single != []
  {
    LastIsSingle(i, s);
    SingleHasChoices(i, s, s.single[|s.single| - 1]);
    var rest, man := s.single[..|s.single| - 1], s.single[|s.single| - 1];
    assert i.prefs[man][s.asked[man]] in i.prefs[man];
    Answer(i, s.(single := rest), man, i.prefs[man][s.asked[man]]).(asked := s.asked[man := s.asked[man] + 1])
  }

  predicate Prefers(i: Instance, w: nat, m: nat, l: nat)
    requires w < |i.ranks| && m < |i.ranks[w]| && l < |i.ranks[w]|
  {
    i.ranks[w][m] < i.ranks[w][l]
  }

  ghost function Answer(i: Instance, s: State, man: nat, woman: nat): State
    requires Complete(i) && man < i.n && woman < i.n
    requires woman in s.husbands ==> s.husbands[woman] < i.n
  {
    if woman !in s.husbands then
      s.(wives := s.wives[man := woman], husbands := s.husbands[woman := man])
    else if Prefers(i, woman, man, s.husbands[woman]) then
      s.(wives := (s.wives - {s.husbands[woman]})[man := woman], husbands := s.husbands[woman := man],
         single := s.single + [s.husbands[woman]])
    else
      s.(single := s.single + [man])
  }

  lemma LastIsSingle(i: Instance, s: State)
    requires Singles(i, s) && s.single != []
    ensures var man := s.single[|s.single| - 1]; man < i.n && man !in s.wives
  {
    assert s.single[|s.single| - 1] in s.single;
  }

  /** A list of all women names every woman. */
  lemma OrderIsComplete(s: seq<nat>, n: nat, w: nat)
    requires IsOrder(s, n) && w < n
    ensures exists j: nat :: j < n && s[j] == w
  {
    DistinctSize(s);
    SameWhenFull(ToSet(s), Below(n));
    assert w in ToSet(s);
  }

  /** A single man has not reached the end of his list: had he asked all women, all of them would be engaged. */
  lemma SingleHasChoices(i: Instance, s: State, man: nat)
    requires Complete(i) && Engagements(i, s) && Asked(i, s) && man < i.n && man !in s.wives
    ensures s.asked[man] < i.n
  {
    if s.asked[man] == i.n {
      forall w: nat | w < i.n ensures w in s.husbands {
        OrderIsComplete(i.prefs[man], i.n, w);
        var j: nat :| j < i.n && i.prefs[man][j] == w;
        assert Settled(i, s.husbands, i.prefs[man][j], man);
      }
      assert s.husbands.Keys == Below(i.n);
      assert s.husbands.Values <= Below(i.n) - {man};
      OneToOneSize(s.husbands);
      SubsetSize(s.husbands.Values, Below(i.n) - {man});
    }
  }

  // ----- one proposal -----

  lemma AnswerKeepsEngagements(i: Instance, s: State, man: nat, woman: nat)
    requires Complete(i) && Engagements(i, s) && man < i.n && woman < i.n && man !in s.wives
    ensures Engagements(i, Answer(i, s, man, woman))
  {
  }

  lemma AnswerKeepsSingles(i: Instance, s: State, man: nat, woman: nat)
    requires Complete(i) && Engagements(i, s) && man < i.n && woman < i.n && man !in s.wives && man !in s.single
    requires Distinct(s.single) && forall m: nat :: m in s.single <==> m < i.n && m !in s.wives && m != man
    ensures Singles(i, Answer(i, s, man, woman))
  {
    var t := Answer(i, s, man, woman);
    if woman in s.husbands && Prefers(i, woman, man, s.husbands[woman]) {
      SnocMembers(s.single, s.husbands[woman]);
    } else if woman in s.husbands {
      SnocMembers(s.single, man);
    }
  }

  lemma SnocMembers(s: seq<nat>, x: nat)
    ensures forall y: nat :: y in s + [x] <==> y in s || y == x
  {
  }

  /** A woman never does worse: whoever she has turned down, she still has a husband she ranks no lower. */
  lemma AnswerKeepsSettled(i: Instance, s: State, man: nat, woman: nat, w: nat, m: nat)
    requires Complete(i) && Engagements(i, s) && man < i.n && woman < i.n && m < i.n
    requires Settled(i, s.husbands, w, m) || (w == woman && m == man)
    ensures Settled(i, Answer(i, s, man, woman).husbands, w, m)
  {
  }

  /** After an answer, every man with a wife had her before, or is the one who asked. */
  lemma WivesAfter(i: Instance, s: State, man: nat, woman: nat)
    requires Complete(i) && Engagements(i, s) && man < i.n && woman < i.n
    ensures forall m :: m in Answer(i, s, man, woman).wives ==>
      var v := Answer(i, s, man, woman).wives[m];
      (m in s.wives && v == s.wives[m] && m != man) || (m == man && (v == woman || (m in s.wives && v == s.wives[m])))
  {
  }

  lemma ProposalKeepsAsked(i: Instance, s: State, man: nat, woman: nat)
    requires Complete(i) && Engagements(i, s) && Asked(i, s) && man < i.n && woman < i.n && man !in s.wives
    requires s.asked[man] < i.n && |i.prefs[man]| == i.n && i.prefs[man][s.asked[man]] == woman
    ensures Asked(i, Answer(i, s, man, woman).(asked := s.asked[man := s.asked[man] + 1]))
  {
    var t := Answer(i, s, man, woman).(asked := s.asked[man := s.asked[man] + 1]);
    WivesAfter(i, s, man, woman);
    forall m: nat, j: nat | m < i.n && j < t.asked[m] ensures |i.prefs[m]| == i.n && Settled(i, t.husbands, i.prefs[m][j], m) {
      hide Settled, Engagements, Answer;
      ListSizes(i, m);
      assert j < s.asked[m] ==> Settled(i, s.husbands, i.prefs[m][j], m);
      AnswerKeepsSettled(i, s, man, woman, i.prefs[m][j], m);
    }
    hide Settled, Engagements, Answer;
  }

  /** Every proposal keeps the invariant and moves one man one place down his list. */
  lemma ProposalKeepsInv(i: Instance, s: State)
    requires Complete(i) && Inv(i, s) && s.single != []
    ensures Inv(i, Proposal(i, s))
  {
    hide Asked, Complete, Engagements, Singles, Answer;
    var rest, man := s.single[..|s.single| - 1], s.single[|s.single| - 1];
    LastIsSingle(i, s);
    SingleHasChoices(i, s, man);
    ListSizes(i, man);
    AskedSizes(i, s);
    var woman := i.prefs[man][s.asked[man]];
    var t := s.(single := rest);
    Popped(i, s);
    AnswerKeepsEngagements(i, t, man, woman);
    AnswerKeepsSingles(i, t, man, woman);
    ProposalKeepsAsked(i, t, man, woman);
    Engaged(i, Answer(i, t, man, woman), s.asked[man := s.asked[man] + 1]);
  }

  lemma Popped(i: Instance, s: State)
    requires Engagements(i, s) && Singles(i, s) && s.single != []
    ensures var rest, man := s.single[..|s.single| - 1], s.single[|s.single| - 1];
      && Engagements(i, s.(single := rest)) && man !in rest && Distinct(rest)
      && forall m: nat :: m in rest <==> m < i.n && m !in s.wives && m != man
  {
    var rest, man := s.single[..|s.single| - 1], s.single[|s.single| - 1];
    assert s.single == rest + [man];
    SnocMembers(rest, man);
  }

  lemma Engaged(i: Instance, s: State, asked: seq<nat>)
    requires Engagements(i, s) && Singles(i, s)
    ensures Engagements(i, s.(asked := asked)) && Singles(i, s.(asked := asked))
  {
  }

  lemma AskedSizes(i: Instance, s: State)
    requires Complete(i) && Asked(i, s)
    ensures |s.asked| == i.n && forall single :: Asked(i, s.(single := single))
  {
  }

  lemma ListSizes(i: Instance, man: nat)
    requires Complete(i) && man < i.n
    ensures |i.prefs| == i.n && |i.prefs[man]| == i.n && forall j: nat :: j < i.n ==> i.prefs[man][j] < i.n
  {
    forall j: nat | j < i.n ensures i.prefs[man][j] < i.n {
      assert i.prefs[man][j] in i.prefs[man];
    }
  }

  ghost function Sum(s: seq<nat>): nat {
    if s == [] then 0 else Sum(s[..|s| - 1]) + s[|s| - 1]
  }

  lemma {:induction false} SumUpdate(s: seq<nat>, k: nat, x: nat)
    requires k < |s|
    ensures Sum(s[k := x]) + s[k] == Sum(s) + x
  {
    var last := |s| - 1;
    if k < last {
      SumUpdate(s[..last], k, x);
      assert s[k := x][..last] == s[..last][k := x];
    } else {
      assert s[k := x][..last] == s[..last];
    }
  }

  lemma {:induction false} SumBound(s: seq<nat>, b: nat)
    requires forall k: nat :: k < |s| ==> s[k] <= b
    ensures Sum(s) <= |s| * b
  {
    if s != [] {
      SumBound(s[..|s| - 1], b);
      assert |s| * b == (|s| - 1) * b + b;
    }
  }

  // ----- what the result means -----

  /** Everybody is married, and husbands and wives agree. */
  ghost predicate Perfect(i: Instance, wives: map<nat, nat>, husbands: map<nat, nat>) {
    && (forall m: nat :: m in wives <==> m < i.n)
    && (forall w: nat :: w in husbands <==> w < i.n)
    && (forall m :: m in wives ==> wives[m] in husbands && husbands[wives[m]] == m)
    && (forall w :: w in husbands ==> husbands[w] in wives && wives[husbands[w]] == w)
  }

  /** Man `m` likes woman `w` better than woman `v`. */
  ghost predicate Likes(i: Instance, m: nat, w: nat, v: nat)
    requires Complete(i) && m < i.n
  {
    exists j: nat, k: nat :: j < k < i.n && i.prefs[m][j] == w && i.prefs[m][k] == v
  }

  /** No man and woman would both rather have each other. */
  ghost predicate Stable(i: Instance, wives: map<nat, nat>, husbands: map<nat, nat>)
    requires Complete(i) && Perfect(i, wives, husbands)
  {
    forall m: nat, w: nat {:trigger wives[m], husbands[w]} :: m < i.n && w < i.n && Likes(i, m, w, wives[m]) ==>
      husbands[w] < i.n && !Prefers(i, w, m, husbands[w])
  }

  lemma DoneIsPerfect(i: Instance, s: State)
    requires Complete(i) && Engagements(i, s) && Singles(i, s) && s.single == []
    ensures Perfect(i, s.wives, s.husbands)
  {
    hide Complete, Below;
    forall m: nat | m < i.n ensures m in s.wives {
      assert m !in s.single;
    }
    WomenMarried(i, s);
  }

  lemma WomenMarried(i: Instance, s: State)
    requires Engagements(i, s) && forall m: nat :: m < i.n ==> m in s.wives
    ensures forall w: nat :: w < i.n ==> w in s.husbands
  {
    hide *;
    var all, wives, husbands := Below(i.n), s.wives, s.husbands;
    WivesAreWed(i, s);
    forall a, b | a in wives && b in wives && a != b ensures wives[a] != wives[b] {
      WifeOfOne(i, s, a, b);
    }
    AllValues(wives, husbands, all);
  }

  lemma AllValues(wives: map<nat, nat>, husbands: map<nat, nat>, all: set<nat>)
    requires forall a, b :: a in wives && b in wives && a != b ==> wives[a] != wives[b]
    requires forall m :: m in wives ==> wives[m] in husbands
    requires wives.Keys == all && husbands.Keys <= all
    ensures husbands.Keys == all
  {
    var values, keys := wives.Values, husbands.Keys;
    ValuesIn(wives, keys);
    OneToOneSize(wives);
    Squeezed(values, keys, all);
  }

  lemma WifeOfOne(i: Instance, s: State, a: nat, b: nat)
    requires Engagements(i, s) && a in s.wives && b in s.wives && a != b
    ensures s.wives[a] != s.wives[b]
  {
    assert s.husbands[s.wives[a]] == a;
  }

  lemma WivesAreWed(i: Instance, s: State)
    requires Engagements(i, s)
    ensures forall m :: m in s.wives ==> m < i.n && s.wives[m] in s.husbands
    ensures forall w :: w in s.husbands ==> w < i.n
  {
  }

  lemma DoneIsStable(i: Instance, s: State)
    requires Complete(i) && Inv(i, s) && Perfect(i, s.wives, s.husbands)
    ensures Stable(i, s.wives, s.husbands)
  {
    forall m: nat, w: nat | m < i.n && w < i.n && Likes(i, m, w, s.wives[m])
      ensures s.husbands[w] < i.n && |i.ranks[w]| == i.n && !Prefers(i, w, m, s.husbands[w]) {
      hide Engagements, Singles;
      LikedWasAsked(i, s, m, w);
    }
  }

  lemma LikedWasAsked(i: Instance, s: State, m: nat, w: nat)
    requires Complete(i) && Asked(i, s) && m < i.n && m in s.wives && Likes(i, m, w, s.wives[m])
    ensures Settled(i, s.husbands, w, m)
  {
    hide Settled;
    var j: nat, k: nat :| j < k < i.n && i.prefs[m][j] == w && i.prefs[m][k] == s.wives[m];
    OnlyOnce(i, m, k, s.asked[m] - 1);
    assert Settled(i, s.husbands, i.prefs[m][j], m);
  }

  lemma OnlyOnce(i: Instance, m: nat, j: nat, k: nat)
    requires Complete(i) && m < i.n && j < i.n && k < i.n && i.prefs[m][j] == i.prefs[m][k]
    ensures j == k
  {
  }

  // ----- no stable matching is better for any man -----

  datatype Matching = Matching(wives: map<nat, nat>, husbands: map<nat, nat>)

  ghost predicate StableMatching(i: Instance, s: Matching)
    requires Complete(i)
  {
    Perfect(i, s.wives, s.husbands) && Stable(i, s.wives, s.husbands)
  }

  /** The place in his list of the woman a man has, or of the one he asks next. */
  ghost function Front(i: Instance, s: State, m: nat): int
    requires |s.asked| == i.n && m < i.n
  {
    var asked: int := s.asked[m];
    asked - if m in s.wives then 1 else 0
  }

  /** Man `m`, at place `front` of his list, has not been turned down by his wife in the stable matching `o`. */
  ghost predicate NotMissedBy(i: Instance, m: nat, front: int, o: Matching)
    requires Complete(i) && m < i.n
  {
    m in o.wives && |i.prefs[m]| == i.n && forall j: nat :: j < front && j < i.n ==> i.prefs[m][j] != o.wives[m]
  }

  ghost predicate NotMissed(i: Instance, s: State, o: Matching)
    requires Complete(i) && Asked(i, s)
  {
    forall m: nat {:trigger s.asked[m]} :: m < i.n ==> NotMissedBy(i, m, Front(i, s, m), o)
  }

  /** If a woman turns a man down for another whose wife in `o` comes no earlier, she was not his wife in `o`. */
  lemma RejectedIsNotPartner(i: Instance, o: Matching, w: nat, winner: nat, loser: nat, k: nat)
    requires Complete(i) && StrictRanks(i) && StableMatching(i, o) && w < i.n && winner < i.n && loser < i.n && winner != loser
    requires i.ranks[w][winner] <= i.ranks[w][loser] && winner in o.wives && loser in o.wives
    requires k < i.n && i.prefs[winner][k] == w
    requires forall j: nat :: j < k ==> i.prefs[winner][j] != o.wives[winner]
    ensures o.wives[loser] != w
  {
    hide Complete, Stable;
    if o.wives[loser] == w {
      PerfectPartner(i, o, loser);
      PerfectPartner(i, o, winner);
      ListSizes(i, winner);
      var v := o.wives[winner];
      InList(i, winner, v);
      var j: nat :| j < i.n && i.prefs[winner][j] == v;
      assert Likes(i, winner, w, v);
      BlocksNot(i, o, winner, w);
      NoTies(i, w, winner, loser);
    }
  }

  lemma PerfectPartner(i: Instance, o: Matching, m: nat)
    requires Perfect(i, o.wives, o.husbands) && m < i.n
    ensures m in o.wives && o.wives[m] < i.n && o.wives[m] in o.husbands && o.husbands[o.wives[m]] == m
  {
    assert o.wives[m] in o.husbands;
  }

  lemma InList(i: Instance, m: nat, w: nat)
    requires Complete(i) && m < i.n && w < i.n
    ensures |i.prefs| == i.n && |i.prefs[m]| == i.n && exists j: nat :: j < i.n && i.prefs[m][j] == w
  {
    OrderIsComplete(i.prefs[m], i.n, w);
  }

  lemma BlocksNot(i: Instance, o: Matching, m: nat, w: nat)
    requires Complete(i) && StableMatching(i, o) && m < i.n && w < i.n && m in o.wives && w in o.husbands && Likes(i, m, w, o.wives[m])
    ensures o.husbands[w] < i.n && w < |i.ranks| && |i.ranks[w]| == i.n && !Prefers(i, w, m, o.husbands[w])
  {
  }

  lemma NoTies(i: Instance, w: nat, l: nat, m: nat)
    requires Complete(i) && StrictRanks(i) && w < i.n && l < i.n && m < i.n && l != m
    ensures |i.ranks| == i.n && |i.ranks[w]| == i.n && i.ranks[w][l] != i.ranks[w][m]
  {
  }

  /** A man who is turned down moves on: nobody's wife in `o` is missed by that. */
  lemma LoserMovesOn(i: Instance, o: Matching, w: nat, winner: nat, loser: nat, k: nat, l: nat)
    requires Complete(i) && StrictRanks(i) && StableMatching(i, o) && w < i.n && winner < i.n && loser < i.n && winner != loser
    requires |i.ranks| == i.n && |i.ranks[w]| == i.n && i.ranks[w][winner] <= i.ranks[w][loser]
    requires |i.prefs| == i.n && |i.prefs[winner]| == |i.prefs[loser]| == i.n
    requires k < i.n && i.prefs[winner][k] == w && NotMissedBy(i, winner, k, o)
    requires l < i.n && i.prefs[loser][l] == w && NotMissedBy(i, loser, l, o)
    ensures NotMissedBy(i, loser, l + 1, o)
  {
    hide Complete, StrictRanks, StableMatching;
    RejectedIsNotPartner(i, o, w, winner, loser, k);
  }

  /** No proposal makes a man miss his wife in a stable matching. */
  lemma ProposalKeepsNotMissed(i: Instance, s: State, man: nat, woman: nat, o: Matching)
    requires Complete(i) && StrictRanks(i) && StableMatching(i, o)
    requires Engagements(i, s) && Asked(i, s) && man < i.n && woman < i.n && man !in s.wives
    requires s.asked[man] < i.n && |i.prefs[man]| == i.n && i.prefs[man][s.asked[man]] == woman && NotMissed(i, s, o)
    ensures var t := Answer(i, s, man, woman).(asked := s.asked[man := s.asked[man] + 1]);
      Asked(i, t) && NotMissed(i, t, o)
  {
    var t := Answer(i, s, man, woman).(asked := s.asked[man := s.asked[man] + 1]);
    ProposalKeepsAsked(i, s, man, woman);
    forall m: nat | m < i.n ensures NotMissedBy(i, m, Front(i, t, m), o) {
      OneManNotMissed(i, s, man, woman, o, m);
    }
  }

  lemma OneManNotMissed(i: Instance, s: State, man: nat, woman: nat, o: Matching, m: nat)
    requires Complete(i) && StrictRanks(i) && StableMatching(i, o) && m < i.n
    requires Engagements(i, s) && Asked(i, s) && man < i.n && woman < i.n && man !in s.wives
    requires s.asked[man] < i.n && |i.prefs[man]| == i.n && i.prefs[man][s.asked[man]] == woman && NotMissed(i, s, o)
    ensures NotMissedBy(i, m, Front(i, Answer(i, s, man, woman).(asked := s.asked[man := s.asked[man] + 1]), m), o)
  {
    hide Complete, StrictRanks, StableMatching, NotMissedBy, Asked, Settled;
    AskedSizes(i, s);
    assert NotMissedBy(i, m, Front(i, s, m), o) && NotMissedBy(i, man, Front(i, s, man), o) by {
      assert s.asked[m] == s.asked[m] && s.asked[man] == s.asked[man];
    }
    ListSizes(i, m);
    ListSizes(i, man);
    RankSizes(i, woman);
    if woman in s.husbands {
      var fiance := s.husbands[woman];
      WifeIsLastAsked(i, s, fiance);
      assert NotMissedBy(i, fiance, Front(i, s, fiance), o) by {
        assert s.asked[fiance] == s.asked[fiance];
      }
      if m == man && !Prefers(i, woman, man, fiance) {
        LoserMovesOn(i, o, woman, fiance, man, s.asked[fiance] - 1, s.asked[man]);
      } else if m == fiance && Prefers(i, woman, man, fiance) {
        LoserMovesOn(i, o, woman, man, fiance, s.asked[man], s.asked[fiance] - 1);
      }
    }
  }

  lemma RankSizes(i: Instance, w: nat)
    requires Complete(i) && w < i.n
    ensures |i.ranks| == i.n && |i.ranks[w]| == i.n
  {
  }

  lemma WifeIsLastAsked(i: Instance, s: State, m: nat)
    requires Complete(i) && Asked(i, s) && m in s.wives
    ensures m < i.n && 0 < s.asked[m] <= i.n && |i.prefs| == i.n && |i.prefs[m]| == i.n && i.prefs[m][s.asked[m] - 1] == s.wives[m]
  {
    hide Settled;
  }

  /** No man likes his wife in some stable matching better than the one he got. */
  ghost predicate ManOptimal(i: Instance, wives: map<nat, nat>)
    requires Complete(i)
  {
    forall o: Matching, m: nat {:trigger StableMatching(i, o), wives[m]} :: StableMatching(i, o) && m < i.n && m in wives && m in o.wives ==>
      !Likes(i, m, o.wives[m], wives[m])
  }

  // ----- the loop, on states -----

  function CountTo(k: nat): (s: seq<nat>) {
    seq(k, j => j)
  }

  lemma Start(i: Instance, asked: seq<nat>)
    requires Complete(i) && |asked| == i.n && forall m: nat :: m < i.n ==> asked[m] == 0
    ensures Inv(i, State(map[], map[], CountTo(i.n), asked)) && Sum(asked) == 0
    ensures forall o :: StableMatching(i, o) ==> NotMissed(i, State(map[], map[], CountTo(i.n), asked), o)
  {
    var s := State(map[], map[], CountTo(i.n), asked);
    assert |asked| * 0 == 0;
    SumBound(asked, 0);
    forall m: nat | m < i.n ensures m in s.single {
      assert s.single[m] == m;
    }
    forall o, m: nat | StableMatching(i, o) && m < i.n ensures NotMissedBy(i, m, Front(i, s, m), o) {
      hide Stable;
      PerfectPartner(i, o, m);
      ListSizes(i, m);
    }
  }

  lemma Top(i: Instance, s: State, rest: seq<nat>, man: nat)
    requires Complete(i) && Inv(i, s) && s.single == rest + [man]
    ensures man < i.n && man !in s.wives && |s.asked| == i.n && s.asked[man] < i.n && |rest| < i.n
    ensures |i.prefs| == i.n && |i.prefs[man]| == i.n && i.prefs[man][s.asked[man]] < i.n
    ensures i.prefs[man][s.asked[man]] in s.husbands ==> s.husbands[i.prefs[man][s.asked[man]]] < i.n
  {
    hide Complete, Below;
    LastIsSingle(i, s);
    SingleHasChoices(i, s, man);
    ListSizes(i, man);
    DistinctSize(s.single);
    SubsetSize(ToSet(s.single), Below(i.n));
  }

  lemma OneRound(i: Instance, s: State, rest: seq<nat>, man: nat, woman: nat)
    requires Complete(i) && Inv(i, s) && s.single == rest + [man] && man < i.n && woman < i.n && man !in s.wives
    requires |s.asked| == i.n && s.asked[man] < i.n && |i.prefs| == i.n && |i.prefs[man]| == i.n && i.prefs[man][s.asked[man]] == woman
    requires woman in s.husbands ==> s.husbands[woman] < i.n
    ensures var t := Answer(i, s.(single := rest), man, woman).(asked := s.asked[man := s.asked[man] + 1]);
      Inv(i, t) && (StrictRanks(i) ==> forall o :: StableMatching(i, o) && NotMissed(i, s, o) ==> NotMissed(i, t, o))
  {
    hide Complete, Engagements, Singles, Asked, StrictRanks, StableMatching, NotMissed, Answer;
    ProposalKeepsInv(i, s);
    assert rest == s.single[..|s.single| - 1];
    Popped(i, s);
    AskedSizes(i, s);
    var r := s.(single := rest);
    var t := Answer(i, r, man, woman).(asked := s.asked[man := s.asked[man] + 1]);
    assert t == Proposal(i, s);
    if StrictRanks(i) {
      forall o | StableMatching(i, o) && NotMissed(i, s, o) ensures NotMissed(i, t, o) {
        SameFronts(i, s, r, o);
        ProposalKeepsNotMissed(i, r, man, woman, o);
      }
    }
  }

  lemma SameFronts(i: Instance, s: State, r: State, o: Matching)
    requires Complete(i) && Asked(i, s) && Asked(i, r) && NotMissed(i, s, o) && r == s.(single := r.single)
    ensures NotMissed(i, r, o)
  {
    hide Complete, Settled;
    AskedSizes(i, s);
    forall m: nat | m < i.n ensures NotMissedBy(i, m, Front(i, r, m), o) {
      assert s.asked[m] == r.asked[m] && Front(i, r, m) == Front(i, s, m);
    }
  }

  lemma AskedBound(i: Instance, s: State)
    requires Complete(i) && Inv(i, s)
    ensures |s.asked| == i.n && Sum(s.asked) <= i.n * i.n
  {
    hide Settled, Complete, Engagements, Singles;
    SumBound(s.asked, i.n);
  }

  lemma Finish(i: Instance, s: State)
    requires Complete(i) && Inv(i, s) && s.single == []
    ensures Perfect(i, s.wives, s.husbands) && Stable(i, s.wives, s.husbands)
    ensures StrictRanks(i) && (forall o :: StableMatching(i, o) ==> NotMissed(i, s, o)) ==> ManOptimal(i, s.wives)
  {
    hide Engagements, Singles, Asked, Perfect, Stable, Complete, StrictRanks, StableMatching, NotMissed;
    DoneIsPerfect(i, s);
    DoneIsStable(i, s);
    if forall o :: StableMatching(i, o) ==> NotMissed(i, s, o) {
      forall o: Matching, m: nat | StableMatching(i, o) && m < i.n && m in s.wives && m in o.wives
        ensures !Likes(i, m, o.wives[m], s.wives[m]) {
        NoBetter(i, s, o, m);
      }
    }
  }

  lemma NoBetter(i: Instance, s: State, o: Matching, m: nat)
    requires Complete(i) && Inv(i, s) && NotMissed(i, s, o) && m < i.n && m in s.wives && m in o.wives
    ensures !Likes(i, m, o.wives[m], s.wives[m])
  {
    hide Settled;
    AskedSizes(i, s);
    WifeIsLastAsked(i, s, m);
    assert NotMissedBy(i, m, Front(i, s, m), o) by {
      assert s.asked[m] == s.asked[m];
    }
    forall k: nat | k < i.n && i.prefs[m][k] == s.wives[m] ensures k == s.asked[m] - 1 {
      OnlyOnce(i, m, k, s.asked[m] - 1);
    }
  }

  // ----- the program -----

  /** Compiler/gs.py:74-86 */
  class OStack {
    const capacity: nat
    var oram: map<nat, nat>
    var size: nat

    ghost predicate Valid()
      reads this
    {
      size <= capacity && forall k: nat :: k < size ==> k in oram
    }

    ghost function Contents(): (s: seq<nat>)
      requires Valid()
      reads this
      ensures |s| == size && forall k: nat :: k < size ==> s[k] == oram[k]
    {
      seq(size, k requires 0 <= k < size && Valid() reads this => oram[k])
    }

    constructor (capacity: nat)
      ensures Valid() && Contents() == [] && this.capacity == capacity
    {
      this.capacity, oram, size := capacity, map[], 0;
    }

    /** Writes beyond the array only when nothing is to be written. */
    method Append(item: nat, forReal: bool)
      requires Valid() && (forReal ==> size < capacity)
      modifies this
      ensures Valid() && Contents() == if forReal then old(Contents()) + [item] else old(Contents())
    {
      if forReal {
        oram := oram[size := item];
        size := size + 1;
      }
    }

    method Pop() returns (item: nat)
      requires Valid() && size > 0
      modifies this
      ensures Valid() && old(Contents()) == Contents() + [item]
    {
      size := size - 1;
      item := oram[size];
    }
  }

  class Matchmaker {
    const i: Instance
    var wives: map<nat, nat>
    var husbands: map<nat, nat>
    var unengaged: OStack

    constructor (i: Instance)
      ensures this.i == i && fresh(unengaged)
    {
      this.i := i;
      wives, husbands := map[], map[];
      unengaged := new OStack(i.n);
    }

    ghost function Now(asked: seq<nat>): State
      requires unengaged.Valid()
      reads this, unengaged
    {
      State(wives, husbands, unengaged.Contents(), asked)
    }

    /** Compiler/gs.py:149-152 */
    method Engage(man: nat, woman: nat, forReal: bool)
      modifies `wives, `husbands
      ensures wives == (if forReal then old(wives)[man := woman] else old(wives))
      ensures husbands == (if forReal then old(husbands)[woman := man] else old(husbands))
    {
      if forReal {
        wives := wives[man := woman];
        husbands := husbands[woman := man];
      }
    }

    /** Compiler/gs.py:160-165 */
    method Dump(man: nat, woman: nat, forReal: bool)
      requires unengaged.Valid() && (forReal ==> unengaged.size < unengaged.capacity)
      modifies `wives, `husbands, unengaged
      ensures wives == (if forReal then old(wives) - {man} else old(wives))
      ensures husbands == (if forReal then old(husbands) - {woman} else old(husbands))
      ensures unengaged.Valid()
      ensures unengaged.Contents() == if forReal then old(unengaged.Contents()) + [man] else old(unengaged.Contents())
    {
      if forReal {
        wives := wives - {man};
        husbands := husbands - {woman};
      }
      unengaged.Append(man, forReal);
    }

    /** Compiler/gs.py:173-191; at most one of the two conditional appends is for real. */
    method Propose(man: nat, woman: nat, ghost asked: seq<nat>)
      requires Complete(i) && man < i.n && woman < i.n && (woman in husbands ==> husbands[woman] < i.n)
      requires unengaged.Valid() && unengaged.size < unengaged.capacity
      modifies `wives, `husbands, unengaged
      ensures unengaged.Valid() && Now(asked) == Answer(i, old(Now(asked)), man, woman)
    {
      var engaged := woman in husbands;
      var fiance := if engaged then husbands[woman] else 0;
      RankSizes(i, woman);
      var leaving := i.ranks[woman][man] < i.ranks[woman][fiance];
      Dump(fiance, woman, engaged && leaving);
      Engage(man, woman, !(engaged && !leaving));
      unengaged.Append(man, engaged && !leaving);
      assert engaged && leaving ==> husbands == old(husbands)[woman := man];
    }

    /** Compiler/gs.py:194-235: a stable matching of everybody after at most n * n proposals; no man would be
        better off in any other stable matching when women have no ties. */
    method Match() returns (rounds: nat)
      requires Complete(i) && i.n > 0
      modifies this
      ensures rounds <= i.n * i.n
      ensures Perfect(i, wives, husbands) && Stable(i, wives, husbands)
      ensures StrictRanks(i) ==> ManOptimal(i, wives)
    {
      wives, husbands := map[], map[];
      var propose: seq<nat> := seq(i.n, _ => 0);
      unengaged := new OStack(i.n);
      for k := 0 to i.n
        invariant unengaged.Valid() && fresh(unengaged) && unengaged.capacity == i.n && unengaged.Contents() == CountTo(k)
        invariant wives == map[] && husbands == map[]
      {
        unengaged.Append(k, true);
      }
      Start(i, propose);
      hide Complete, Inv, StrictRanks, StableMatching, NotMissed, Sum, Perfect, Stable, ManOptimal;
      rounds := 0;
      var more := true;
      while more
        invariant fresh(unengaged) && unengaged.Valid() && unengaged.capacity == i.n
        invariant Inv(i, Now(propose)) && (more <==> unengaged.size > 0)
        invariant |propose| == i.n && rounds == Sum(propose) <= i.n * i.n
        invariant StrictRanks(i) ==> forall o :: StableMatching(i, o) ==> NotMissed(i, Now(propose), o)
        decreases i.n * i.n - rounds
      {
        propose := Round(propose);
        rounds := rounds + 1;
        more := unengaged.size > 0;
      }
      Finish(i, Now(propose));
    }

    /** One turn of the loop in lines 217-235. */
    method Round(asked: seq<nat>) returns (asked': seq<nat>)
      requires Complete(i) && unengaged.Valid() && unengaged.capacity == i.n && unengaged.size > 0 && |asked| == i.n
      requires Inv(i, Now(asked))
      modifies `wives, `husbands, unengaged
      ensures unengaged.Valid() && Inv(i, Now(asked')) && |asked'| == i.n && Sum(asked') == Sum(asked) + 1 <= i.n * i.n
      ensures StrictRanks(i) ==> forall o :: StableMatching(i, o) && NotMissed(i, old(Now(asked)), o) ==> NotMissed(i, Now(asked'), o)
    {
      hide Complete, Inv, StrictRanks, StableMatching, NotMissed, Answer, Sum;
      ghost var s := Now(asked);
      var man := unengaged.Pop();
      ghost var rest := unengaged.Contents();
      Top(i, s, rest, man);
      var pref := asked[man];
      asked' := asked[man := pref + 1];
      var woman := i.prefs[man][pref];
      assert Now(asked) == s.(single := rest);
      Propose(man, woman, asked);
      OneRound(i, s, rest, man, woman);
      assert Now(asked') == Answer(i, s.(single := rest), man, woman).(asked := asked');
      SumUpdate(asked, man, pref + 1);
      AskedBound(i, Now(asked'));
    }
  }
}
