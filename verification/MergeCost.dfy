/**
 What the merges cost: the total of the internal weights is a lower bound for every
 prefix code, and it is what the finished tree's code lengths come to.
 */
module MergeCost {
  import opened Bits
  import opened CanonicalCodes
  import opened MergeTree
  import opened MinimumCost

  // ---- the lower bound ----

  /** The items that wait to be merged. */
  ghost function Waiting(freqs: seq<nat>, m: Merge, leaf: nat): multiset<nat>
    requires leaf <= |freqs| && |m.parents| <= |m.weights|
  {
    multiset(freqs[leaf..]) + multiset(m.weights[|m.parents|..])
  }

  lemma TakeWaiting(freqs: seq<nat>, m: Merge, leaf: nat, internal: bool)
    requires leaf <= |freqs| && |m.parents| <= |m.weights| && Picks(freqs, m, leaf, internal)
    ensures NextLeaf(leaf, internal) <= |freqs| && |Take(m, |m.weights|, internal).parents| <= |m.weights|
    ensures Waiting(freqs, m, leaf)
         == Waiting(freqs, Take(m, |m.weights|, internal), NextLeaf(leaf, internal)) + multiset{Item(freqs, m, leaf, internal)}
  {
    var root := |m.parents|;
    if internal {
      assert m.weights[root..] == [m.weights[root]] + m.weights[root + 1..];
    } else {
      assert freqs[leaf..] == [freqs[leaf]] + freqs[leaf + 1..];
    }
  }

  lemma CloseWaiting(freqs: seq<nat>, m: Merge, leaf: nat, x: nat, y: nat)
    requires leaf <= |freqs| && |m.parents| <= |m.weights|
    ensures Waiting(freqs, Close(m, x, y), leaf) == Waiting(freqs, m, leaf) + multiset{x + y}
  {
    var root := |m.parents|;
    assert (m.weights + [x + y])[root..] == m.weights[root..] + [x + y];
  }

  lemma FloorOfWaiting(freqs: seq<nat>, m: Merge, leaf: nat, floor: nat)
    requires leaf <= |freqs| && |m.parents| <= |m.weights| && FloorOk(freqs, m, leaf, floor)
    ensures forall w :: w in Waiting(freqs, m, leaf) ==> floor <= w
  {
    forall w | w in Waiting(freqs, m, leaf)
      ensures floor <= w
    {
      if w in freqs[leaf..] {
        var i :| leaf <= i < |freqs| && freqs[i] == w;
      } else {
        assert w in m.weights[|m.parents|..];
        var k :| |m.parents| <= k < |m.weights| && m.weights[k] == w;
      }
    }
  }

  /** Any code for the frequencies becomes one for the waiting items, cheaper by all the
      weights made so far. */
  ghost predicate Lowers(freqs: seq<nat>, m: Merge, leaf: nat, d: nat)
    requires leaf <= |freqs| && |m.parents| <= |m.weights|
  {
    Reduces(multiset(freqs), Waiting(freqs, m, leaf), SumFrom(m.weights, 0), d)
  }

  lemma {:induction false} LowersStart(freqs: seq<nat>, d: nat)
    requires |freqs| >= 2 && SortedNonZero(freqs)
    ensures Lowers(freqs, Merge([], [freqs[0] + freqs[1]], [freqs[1]]), 2, d)
  {
    hide Reduces;
    var x, y, rest := freqs[0], freqs[1], multiset(freqs[2..]);
    StartItems(freqs);
    ReducesSelf(multiset(freqs), d);
    ReducesStep(multiset(freqs), rest, x, y, 0, d);
    StartSum(x + y);
  }

  lemma StartItems(freqs: seq<nat>)
    requires |freqs| >= 2 && SortedNonZero(freqs)
    ensures multiset(freqs) == multiset(freqs[2..]) + multiset{freqs[0]} + multiset{freqs[1]}
    ensures forall w :: w in multiset(freqs[2..]) ==> freqs[1] <= w
    ensures Waiting(freqs, Merge([], [freqs[0] + freqs[1]], [freqs[1]]), 2)
         == multiset(freqs[2..]) + multiset{freqs[0] + freqs[1]}
  {
    var x, y := freqs[0], freqs[1];
    assert freqs == [x, y] + freqs[2..];
    forall w | w in multiset(freqs[2..])
      ensures y <= w
    {
      assert w in freqs[2..];
      var i :| 2 <= i < |freqs| && freqs[i] == w;
    }
    assert [x + y][0..] == [x + y];
  }

  lemma StartSum(w: nat)
    ensures SumFrom([w], 0) == w
  {
    assert SumFrom([w], 0) == w + SumFrom([w], 1);
  }

  /** Both picks: the smallest items, in order, and what then waits. */
  lemma {:induction false} TwoPicks(freqs: seq<nat>, m: Merge, leaf: nat, in1: bool, in2: bool, x: nat, y: nat)
    requires Merged(freqs, m, leaf) && |m.weights| < |freqs| - 1
    requires Picks(freqs, m, leaf, in1) && x == Item(freqs, m, leaf, in1)
    requires var m1, leaf1 := Take(m, |m.weights|, in1), NextLeaf(leaf, in1);
             Picks(freqs, m1, leaf1, in2) && y == Item(freqs, m1, leaf1, in2)
    ensures var m2, leaf2 := Take(Take(m, |m.weights|, in1), |m.weights|, in2), NextLeaf(NextLeaf(leaf, in1), in2);
            && leaf2 <= |freqs| && |m2.parents| <= |m.weights| && x <= y
            && Waiting(freqs, m, leaf) == Waiting(freqs, m2, leaf2) + multiset{x} + multiset{y}
            && forall w :: w in Waiting(freqs, m2, leaf2) ==> y <= w
  {
    hide SumFrom;
    var next := |m.weights|;
    var m1, leaf1 := Take(m, next, in1), NextLeaf(leaf, in1);
    var m2, leaf2 := Take(m1, next, in2), NextLeaf(leaf1, in2);
    TakeOne(freqs, m, leaf, m.floors[next - 1], in1);
    TakeWaiting(freqs, m, leaf, in1);
    TakeOne(freqs, m1, leaf1, x, in2);
    TakeWaiting(freqs, m1, leaf1, in2);
    FloorOfWaiting(freqs, m2, leaf2, y);
    hide Waiting;
    Reorder(Waiting(freqs, m2, leaf2), x, y);
  }

  lemma Reorder(items: multiset<nat>, x: nat, y: nat)
    ensures items + multiset{y} + multiset{x} == items + multiset{x} + multiset{y}
  {
  }

  lemma {:induction false} LowersStep(freqs: seq<nat>, m: Merge, leaf: nat, in1: bool, in2: bool, x: nat, y: nat, d: nat)
    requires Merged(freqs, m, leaf) && |m.weights| < |freqs| - 1 && Lowers(freqs, m, leaf, d)
    requires Picks(freqs, m, leaf, in1) && x == Item(freqs, m, leaf, in1)
    requires var m1, leaf1 := Take(m, |m.weights|, in1), NextLeaf(leaf, in1);
             Picks(freqs, m1, leaf1, in2) && y == Item(freqs, m1, leaf1, in2)
    ensures var m2, leaf2 := Take(Take(m, |m.weights|, in1), |m.weights|, in2), NextLeaf(NextLeaf(leaf, in1), in2);
            leaf2 <= |freqs| && |m2.parents| <= |m.weights| && Lowers(freqs, Close(m2, x, y), leaf2, d)
  {
    hide Reduces;
    hide Waiting;
    hide WeightsOk;
    hide FloorOk;
    hide LinksOk;
    hide SortedNonZero;
    var next := |m.weights|;
    var m2, leaf2 := Take(Take(m, next, in1), next, in2), NextLeaf(NextLeaf(leaf, in1), in2);
    TwoPicks(freqs, m, leaf, in1, in2, x, y);
    var items := Waiting(freqs, m2, leaf2);
    ReducesStep(multiset(freqs), items, x, y, SumFrom(m.weights, 0), d);
    CloseWaiting(freqs, m2, leaf2, x, y);
    SumFromSnoc(m.weights, x + y, 0);
  }

  /** No code is cheaper than the total of all weights. */
  lemma {:induction false} WeightsAreLeast(freqs: seq<nat>, m: Merge, leaf: nat, ps: seq<Coded>, d: nat)
    requires leaf <= |freqs| && |m.parents| <= |m.weights| && Lowers(freqs, m, leaf, d)
    requires Assigns(ps, multiset(freqs), d)
    ensures Cost(ps) >= SumFrom(m.weights, 0)
  {
    assert Lowered(ps, Waiting(freqs, m, leaf), SumFrom(m.weights, 0), d);
  }

  // ---- what nodes consume ----

  /** The sum of the first i numbers. */
  ghost function Before(s: seq<nat>, i: nat): int
    requires i <= |s|
  {
    SumFrom(s, 0) - SumFrom(s, i)
  }

  /** How many internal nodes hang under the nodes up to k. */
  ghost function Under(parents: seq<nat>, k: nat): (r: nat)
    ensures r <= |parents|
  {
    if parents == [] then 0
    else if parents[|parents| - 1] <= k then |parents|
    else Under(parents[..|parents| - 1], k)
  }

  lemma {:induction false} UnderExtends(parents: seq<nat>, more: seq<nat>, k: nat)
    requires forall j :: 0 <= j < |more| ==> more[j] > k
    ensures Under(parents + more, k) == Under(parents, k)
    decreases |more|
  {
    if more == [] {
      assert parents + more == parents;
    } else {
      var all := parents + more;
      assert all[..|all| - 1] == parents + more[..|more| - 1];
      UnderExtends(parents, more[..|more| - 1], k);
    }
  }

  /** With links in order, the nodes under k are a front part. */
  lemma {:induction false} UnderIs(parents: seq<nat>, k: nat, r: nat)
    requires forall i, j :: 0 <= i <= j < |parents| ==> parents[i] <= parents[j]
    requires r <= |parents| && (forall j :: 0 <= j < r ==> parents[j] <= k) && (forall j :: r <= j < |parents| ==> parents[j] > k)
    ensures Under(parents, k) == r
    decreases |parents|
  {
    if r < |parents| {
      UnderIs(parents[..|parents| - 1], k, r);
    }
  }

  /** The nodes up to k weigh as much as all they consumed: r internal nodes and the
      leaves that make up twice their number. */
  ghost predicate Balanced(freqs: seq<nat>, m: Merge, k: nat) {
    k < |m.weights| ==>
      var r := Under(m.parents, k);
      && r <= |m.weights| && r <= 2 * (k + 1) <= |freqs| + r
      && Before(m.weights, k + 1) == Before(freqs, 2 * (k + 1) - r) + Before(m.weights, r)
  }

  ghost predicate AllBalanced(freqs: seq<nat>, m: Merge) {
    forall k: nat :: Balanced(freqs, m, k)
  }

  lemma {:induction false} BalancedStart(freqs: seq<nat>)
    requires |freqs| >= 2 && SortedNonZero(freqs)
    ensures AllBalanced(freqs, Merge([], [freqs[0] + freqs[1]], [freqs[1]]))
  {
    var m := Merge([], [freqs[0] + freqs[1]], [freqs[1]]);
    assert SumFrom(freqs, 0) == freqs[0] + (freqs[1] + SumFrom(freqs, 2));
    assert SumFrom(m.weights, 0) == m.weights[0] + SumFrom(m.weights, 1);
  }

  lemma {:induction false} BeforeSnoc(s: seq<nat>, x: nat, i: nat)
    requires i <= |s|
    ensures Before(s + [x], i) == Before(s, i)
  {
    SumFromSnoc(s, x, 0);
    SumFromSnoc(s, x, i);
  }

  /** One more node keeps the balance: old nodes are untouched, and the new one has
      consumed everything that no longer waits. */
  lemma {:induction false} BalancedStep(freqs: seq<nat>, m: Merge, m': Merge, leaf': nat)
    requires AllBalanced(freqs, m) && Merged(freqs, m', leaf')
    requires |m'.weights| == |m.weights| + 1 && m'.weights[..|m.weights|] == m.weights
    requires m.parents <= m'.parents && forall j :: |m.parents| <= j < |m'.parents| ==> m'.parents[j] == |m.weights|
    ensures AllBalanced(freqs, m')
  {
    var next := |m.weights|;
    assert m'.weights == m.weights + [m'.weights[next]];
    assert m'.parents == m.parents + m'.parents[|m.parents|..];
    NewBalanced(freqs, m', leaf');
    forall k: nat
      ensures Balanced(freqs, m', k)
    {
      if k < next {
        assert Balanced(freqs, m, k);
        OldBalanced(freqs, m, m', m'.weights[next], m'.parents[|m.parents|..], k);
      }
    }
  }

  lemma {:induction false} OldBalanced(freqs: seq<nat>, m: Merge, m': Merge, w: nat, more: seq<nat>, k: nat)
    requires Balanced(freqs, m, k) && k < |m.weights| && m'.weights == m.weights + [w] && m'.parents == m.parents + more
    requires forall j :: 0 <= j < |more| ==> more[j] > k
    ensures Balanced(freqs, m', k)
  {
    hide SumFrom;
    hide Under;
    UnderExtends(m.parents, more, k);
    BeforeSnoc(m.weights, w, k + 1);
    BeforeSnoc(m.weights, w, Under(m.parents, k));
  }

  lemma {:induction false} NewBalanced(freqs: seq<nat>, m: Merge, leaf: nat)
    requires Merged(freqs, m, leaf)
    ensures Balanced(freqs, m, |m.weights| - 1)
  {
    UnderIs(m.parents, |m.weights| - 1, |m.parents|);
  }

  // ---- what the lengths cost ----

  /** The cost of lengths given to the frequencies from an index on. */
  ghost function CostFrom(freqs: seq<nat>, from: nat, lens: seq<int>): int
    requires from + |lens| <= |freqs|
    decreases |lens|
  {
    if lens == [] then 0 else freqs[from] * lens[0] + CostFrom(freqs, from + 1, lens[1..])
  }

  ghost function Repeat(x: int, count: nat): (r: seq<int>)
    ensures |r| == count
  {
    seq(count, _ => x)
  }

  lemma {:induction false} CostOfLevel(freqs: seq<nat>, from: nat, d: int, count: nat, tail: seq<int>)
    requires from + count + |tail| <= |freqs|
    ensures CostFrom(freqs, from, Repeat(d, count) + tail)
         == d * (Before(freqs, from + count) - Before(freqs, from)) + CostFrom(freqs, from + count, tail)
    decreases count
  {
    var lens := Repeat(d, count) + tail;
    if count == 0 {
      assert lens == tail;
    } else {
      assert lens[1..] == Repeat(d, count - 1) + tail;
      CostOfLevel(freqs, from + 1, d, count - 1, tail);
      DistributeLeft(d, Before(freqs, from + count) - Before(freqs, from + 1), freqs[from]);
    }
  }

  /** Lengths as a list of coded weights. */
  ghost function Pairs(freqs: seq<nat>, from: nat, lens: seq<nat>): (r: seq<Coded>)
    requires from + |lens| <= |freqs|
    ensures |r| == |lens|
    ensures forall i :: 0 <= i < |r| ==> r[i] == Coded(freqs[from + i], lens[i])
  {
    seq(|lens|, i requires 0 <= i < |lens| => Coded(freqs[from + i], lens[i]))
  }

  lemma {:induction false} PairsCost(freqs: seq<nat>, from: nat, lens: seq<nat>)
    requires from + |lens| <= |freqs|
    ensures Cost(Pairs(freqs, from, lens)) == CostFrom(freqs, from, lens)
    ensures Weights(Pairs(freqs, from, lens)) == multiset(freqs[from..from + |lens|])
    decreases |lens|
  {
    var ps := Pairs(freqs, from, lens);
    if lens != [] {
      assert ps[1..] == Pairs(freqs, from + 1, lens[1..]);
      PairsCost(freqs, from + 1, lens[1..]);
      assert freqs[from..from + |lens|] == [freqs[from]] + freqs[from + 1..from + |lens|];
    }
  }

  lemma {:induction false} PairsSum(freqs: seq<nat>, from: nat, lens: seq<nat>, d: nat)
    requires from + |lens| <= |freqs| && forall i :: 0 <= i < |lens| ==> 1 <= lens[i] <= d
    ensures Within(Pairs(freqs, from, lens), d)
    ensures Sum(Pairs(freqs, from, lens), d) == Kraft(lens, d)
    decreases |lens|
  {
    hide Pow2;
    hide Kraft;
    var ps := Pairs(freqs, from, lens);
    if lens == [] {
      NoKraft(d);
    } else {
      assert ps[1..] == Pairs(freqs, from + 1, lens[1..]);
      PairsSum(freqs, from + 1, lens[1..], d);
      KraftCons(lens[0], lens[1..], d);
      assert [lens[0]] + lens[1..] == lens;
    }
  }

  lemma NoKraft(d: nat)
    ensures Kraft([], d) == 0
  {
  }

  // ---- the algorithm's invariants ----

  /** Lengths that a prefix code for n symbols can have. */
  ghost predicate CodeLengths(lens: seq<nat>, n: nat, d: nat) {
    |lens| == n && (forall i :: 0 <= i < n ==> 1 <= lens[i] <= d) && Kraft(lens, d) <= Pow2(d)
  }

  ghost predicate Optimal(freqs: seq<nat>, m: Merge, leaf: nat) {
    && leaf <= |freqs| && |m.parents| <= |m.weights|
    && AllBalanced(freqs, m) && forall d: nat :: Lowers(freqs, m, leaf, d)
  }

  lemma {:induction false} OptimalStart(freqs: seq<nat>)
    requires |freqs| >= 2 && SortedNonZero(freqs)
    ensures Optimal(freqs, Merge([], [freqs[0] + freqs[1]], [freqs[1]]), 2)
  {
    hide Lowers;
    BalancedStart(freqs);
    var m := Merge([], [freqs[0] + freqs[1]], [freqs[1]]);
    forall d: nat
      ensures Lowers(freqs, m, 2, d)
    {
      LowersStart(freqs, d);
    }
  }

  lemma {:induction false} OptimalStep(freqs: seq<nat>, m: Merge, leaf: nat, in1: bool, in2: bool, x: nat, y: nat,
                                       m': Merge, leaf': nat)
    requires Merged(freqs, m, leaf) && |m.weights| < |freqs| - 1 && Optimal(freqs, m, leaf)
    requires in1 == (leaf >= |freqs| || m.weights[|m.parents|] < freqs[leaf])
    requires x == if in1 then m.weights[|m.parents|] else freqs[leaf]
    requires var root1 := |Take(m, |m.weights|, in1).parents|; var leaf1 := NextLeaf(leaf, in1);
             && in2 == (leaf1 >= |freqs| || (root1 < |m.weights| && m.weights[root1] < freqs[leaf1]))
             && (in2 ==> root1 < |m.weights| && y == m.weights[root1])
             && (!in2 ==> leaf1 < |freqs| && y == freqs[leaf1])
    requires m' == Close(Take(Take(m, |m.weights|, in1), |m.weights|, in2), x, y)
    requires leaf' == NextLeaf(NextLeaf(leaf, in1), in2) && Merged(freqs, m', leaf')
    ensures Optimal(freqs, m', leaf')
  {
    hide Lowers;
    hide WeightsOk;
    hide FloorOk;
    hide LinksOk;
    FirstPick(freqs, m, leaf, in1);
    SecondPick(freqs, m, leaf, in1, in2);
    forall d: nat
      ensures leaf' <= |freqs| && |m'.parents| <= |m'.weights| && Lowers(freqs, m', leaf', d)
    {
      LowersStep(freqs, m, leaf, in1, in2, x, y, d);
    }
    BalancedStep(freqs, m, m', leaf');
  }

  /** No lengths cost less than the total of the weights. */
  lemma {:induction false} OptimalCost(freqs: seq<nat>, m: Merge, other: seq<nat>, d: nat)
    requires Optimal(freqs, m, |freqs|) && CodeLengths(other, |freqs|, d)
    ensures CostFrom(freqs, 0, other) >= SumFrom(m.weights, 0)
  {
    hide Sum;
    var ps := Pairs(freqs, 0, other);
    PairsCost(freqs, 0, other);
    PairsSum(freqs, 0, other, d);
    assert freqs[0..0 + |other|] == freqs;
    WeightsAreLeast(freqs, m, |freqs|, ps, d);
  }

  lemma OptimalBalanced(freqs: seq<nat>, m: Merge)
    requires Optimal(freqs, m, |freqs|)
    ensures AllBalanced(freqs, m)
  {
  }

  lemma OptimalLengths(freqs: seq<nat>, m: Merge, lens: seq<int>)
    requires Optimal(freqs, m, |freqs|) && |lens| == |freqs| && CostFrom(freqs, 0, lens) == SumFrom(m.weights, 0)
    ensures forall other: seq<nat>, d: nat :: CodeLengths(other, |freqs|, d) ==>
              CostFrom(freqs, 0, lens) <= CostFrom(freqs, 0, other)
  {
    hide Optimal;
    hide CostFrom;
    hide SumFrom;
    forall other: seq<nat>, d: nat | CodeLengths(other, |freqs|, d)
      ensures CostFrom(freqs, 0, lens) <= CostFrom(freqs, 0, other)
    {
      OptimalCost(freqs, m, other, d);
    }
  }

  lemma OneLength(freqs: seq<nat>, lens: seq<int>)
    requires |freqs| == 1 == |lens| && lens[0] == 1
    ensures forall other: seq<nat>, d: nat :: CodeLengths(other, 1, d) ==> CostFrom(freqs, 0, lens) <= CostFrom(freqs, 0, other)
  {
    forall other: seq<nat>, d: nat | CodeLengths(other, 1, d)
      ensures CostFrom(freqs, 0, lens) <= CostFrom(freqs, 0, other)
    {
      assert CostFrom(freqs, 0, lens) == freqs[0] * lens[0] + CostFrom(freqs, 1, lens[1..]);
      assert CostFrom(freqs, 0, other) == freqs[0] * other[0] + CostFrom(freqs, 1, other[1..]);
      assert freqs[0] * 1 <= freqs[0] * other[0];
    }
  }

  /** What is written costs, with what is left at this depth and the weight of the nodes
      below it, the total of all weights. */
  ghost predicate Potential(freqs: seq<nat>, m: Merge, tail: seq<int>, root: int, next: int, dpth: int) {
    var n := |freqs|;
    && |m.weights| == n - 1 && -1 <= root <= n - 2 && -1 <= next <= n - 1 && |tail| == n - 1 - next
    && CostFrom(freqs, next + 1, tail) + dpth * Before(freqs, next + 1) + Before(m.weights, root + 1)
       == SumFrom(m.weights, 0)
  }

  lemma PotentialStart(freqs: seq<nat>, m: Merge)
    requires |m.weights| == |freqs| - 1 >= 1
    ensures Potential(freqs, m, [], |freqs| - 2, |freqs| - 1, 0)
  {
  }

  lemma PotentialEnd(freqs: seq<nat>, m: Merge, tail: seq<int>, dpth: int)
    requires Potential(freqs, m, tail, -1, -1, dpth)
    ensures |tail| == |freqs| && CostFrom(freqs, 0, tail) == SumFrom(m.weights, 0)
  {
    assert dpth * Before(freqs, 0) == 0;
  }

  lemma {:induction false} PotentialStep(freqs: seq<nat>, m: Merge, tail: seq<int>, root0: int, next0: int, dpth: int,
                                         root: int, next: int)
    requires Potential(freqs, m, tail, root0, next0, dpth) && AllBalanced(freqs, m)
    requires -1 <= root <= root0 && root < |m.parents| && -1 <= next <= next0 && next + 1 == 2 * (root0 + 1) - (root + 1)
    requires |m.parents| == |freqs| - 2
    requires forall i, j :: 0 <= i <= j < |m.parents| ==> m.parents[i] <= m.parents[j]
    requires forall j :: 0 <= j < |m.parents| ==> (m.parents[j] <= root0 <==> j <= root)
    ensures Potential(freqs, m, Repeat(dpth, next0 - next) + tail, root, next, dpth + 1)
  {
    hide CostFrom;
    hide SumFrom;
    hide Under;
    CostOfLevel(freqs, next + 1, dpth, next0 - next, tail);
    LevelShare(freqs, m, root0, root, next);
    Shares(dpth, Before(freqs, next0 + 1), Before(freqs, next + 1));
  }

  lemma Shares(d: int, b0: int, b1: int)
    ensures d * (b0 - b1) + (d + 1) * b1 == d * b0 + b1
  {
  }

  /** The nodes of one level weigh as much as the leaves and nodes below them. */
  lemma {:induction false} LevelShare(freqs: seq<nat>, m: Merge, root0: int, root: int, next: int)
    requires AllBalanced(freqs, m) && |m.weights| == |freqs| - 1 && |m.parents| == |freqs| - 2
    requires -1 <= root <= root0 <= |freqs| - 2 && root < |m.parents|
    requires -1 <= next < |freqs| && next + 1 == 2 * (root0 + 1) - (root + 1)
    requires forall i, j :: 0 <= i <= j < |m.parents| ==> m.parents[i] <= m.parents[j]
    requires forall j :: 0 <= j < |m.parents| ==> (m.parents[j] <= root0 <==> j <= root)
    ensures Before(m.weights, root0 + 1) == Before(freqs, next + 1) + Before(m.weights, root + 1)
  {
    hide SumFrom;
    hide Under;
    if root0 >= 0 {
      assert Balanced(freqs, m, root0);
      UnderIs(m.parents, root0, root + 1);
    }
  }
}
