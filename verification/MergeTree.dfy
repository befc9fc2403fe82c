/**
 The tree that merging builds: links and weights of its internal nodes, what one merge
 keeps, and why no code gets longer than 22 bits.
 */
module MergeTree {

  // ---- the shape of the tree: parent links of the internal nodes 0 .. n - 2 ----

  /** Links go forward, in order, and no node is named more than twice. */
  ghost predicate Shape(parents: seq<nat>, n: nat) {
    && n >= 2 && |parents| == n - 2
    && (forall k :: 0 <= k < n - 2 ==> k < parents[k] <= n - 2)
    && (forall j, k :: 0 <= j <= k < n - 2 ==> parents[j] <= parents[k])
    && (forall j, k :: 0 <= j && j + 2 <= k < n - 2 ==> parents[j] < parents[k])
  }

  ghost function Depth(parents: seq<nat>, n: nat, k: nat): nat
    requires Shape(parents, n) && k <= n - 2
    decreases n - k
  {
    if k == n - 2 then 0 else 1 + Depth(parents, n, parents[k])
  }

  lemma {:induction false} DepthMonotone(parents: seq<nat>, n: nat, j: nat, k: nat)
    requires Shape(parents, n) && j <= k <= n - 2
    ensures Depth(parents, n, j) >= Depth(parents, n, k)
    decreases n - j
  {
    if k < n - 2 {
      DepthMonotone(parents, n, parents[j], parents[k]);
    }
  }

  /** Neighbours differ by at most one level. */
  lemma DepthStep(parents: seq<nat>, n: nat, k: nat)
    requires Shape(parents, n) && k < n - 2
    ensures Depth(parents, n, k) <= Depth(parents, n, k + 1) + 1
  {
    DepthMonotone(parents, n, k + 1, parents[k]);
  }

  /** Links starting m steps apart are at least m / 2 nodes apart. */
  lemma {:induction false} LinkSpread(parents: seq<nat>, n: nat, j: nat, m: nat)
    requires Shape(parents, n) && j + m < n - 2
    ensures parents[j + m] >= parents[j] + m / 2
  {
    if m >= 2 {
      LinkSpread(parents, n, j, m - 2);
    }
  }

  /** A level lo .. hi - 1 whose parents all lie in hi .. top - 1 has at most
      twice as many nodes as the level above it. */
  lemma LevelBound(parents: seq<nat>, n: nat, lo: nat, hi: nat, top: nat, d: nat)
    requires Shape(parents, n) && lo <= hi < top <= n - 1
    requires forall k :: lo <= k < hi ==> Depth(parents, n, k) == d + 1
    requires forall k :: hi <= k < top ==> Depth(parents, n, k) == d
    requires top <= n - 2 ==> Depth(parents, n, top) < d
    ensures hi - lo <= 2 * (top - hi)
  {
    if lo < hi {
      var last := hi - 1;
      assert Depth(parents, n, lo) == 1 + Depth(parents, n, parents[lo]);
      assert Depth(parents, n, last) == 1 + Depth(parents, n, parents[last]);
      if parents[last] >= top {
        DepthMonotone(parents, n, top, parents[last]);
      }
      LinkSpread(parents, n, lo, last - lo);
    }
  }

  // ---- weights: why no code is longer than 22 bits ----

  function Fib(n: nat): nat {
    if n < 2 then n else Fib(n - 1) + Fib(n - 2)
  }

  lemma {:induction false} FibMonotone(a: nat, b: nat)
    requires 1 <= a <= b
    ensures Fib(a) <= Fib(b)
  {
    if a < b {
      FibMonotone(a, b - 1);
    }
  }

  /** Internal weights grow along parent links at least as fast as Fibonacci numbers. */
  ghost predicate Grows(parents: seq<nat>, n: nat, weights: seq<nat>) {
    && Shape(parents, n) && |weights| == n - 1
    && (forall k :: 0 <= k < n - 1 ==> weights[k] >= 2)
    && (forall k :: 0 <= k < n - 2 ==> weights[parents[k]] >= weights[k] + 1)
    && (forall k :: 0 <= k < n - 2 && parents[k] < n - 2 ==>
                      weights[parents[parents[k]]] >= weights[parents[k]] + weights[k])
  }

  lemma {:induction false} ChainBound(parents: seq<nat>, n: nat, weights: seq<nat>, k: nat, i: nat)
    requires Grows(parents, n, weights) && k < n - 2
    requires weights[k] >= Fib(i) && weights[parents[k]] >= Fib(i + 1)
    ensures weights[n - 2] >= Fib(i + Depth(parents, n, k))
    decreases n - k
  {
    var p := parents[k];
    if p < n - 2 {
      assert Fib(i + 2) == Fib(i + 1) + Fib(i);
      ChainBound(parents, n, weights, p, i + 1);
    }
  }

  /** With a total weight below 65536 every internal depth is at most 21. */
  lemma DepthBound(parents: seq<nat>, n: nat, weights: seq<nat>, k: nat)
    requires Grows(parents, n, weights) && k <= n - 2 && weights[n - 2] < 65536
    ensures Depth(parents, n, k) <= 21
  {
    if k < n - 2 {
      FibStart();
      ChainBound(parents, n, weights, k, 3);
      if Depth(parents, n, k) > 21 {
        FibBig(3 + Depth(parents, n, k));
      }
    }
  }

  /** A node at some depth takes a total weight that grows like the Fibonacci numbers. */
  lemma DepthNeeds(parents: seq<nat>, n: nat, weights: seq<nat>, k: nat)
    requires Grows(parents, n, weights) && k <= n - 2
    ensures weights[n - 2] >= Fib(3 + Depth(parents, n, k))
  {
    FibStart();
    if k < n - 2 {
      ChainBound(parents, n, weights, k, 3);
    }
  }

  lemma FibStart()
    ensures Fib(3) == 2 && Fib(4) == 3
  {
  }

  /** The totals below which no code is over the limits the compressor uses, 7 and 15. */
  lemma FibLimits()
    ensures Fib(7 + 3) == 55 && Fib(15 + 3) == 2584
  {
    assert Fib(10) == 55 && Fib(11) == 89;
    assert Fib(12) == 144 && Fib(13) == 233;
    assert Fib(14) == 377 && Fib(15) == 610;
    assert Fib(16) == 987 && Fib(17) == 1597;
  }

  lemma FibBig(i: nat)
    requires i >= 25
    ensures Fib(i) >= 65536
  {
    FibMonotone(25, i);
    Fib25();
  }

  lemma Fib25()
    ensures Fib(25) == 75025
  {
    assert Fib(10) == 55 && Fib(11) == 89;
    assert Fib(12) == 144 && Fib(13) == 233;
    assert Fib(14) == 377 && Fib(15) == 610;
    assert Fib(16) == 987 && Fib(17) == 1597;
    assert Fib(18) == 2584 && Fib(19) == 4181;
    assert Fib(20) == 6765 && Fib(21) == 10946;
    assert Fib(22) == 17711 && Fib(23) == 28657;
    assert Fib(24) == 46368;
  }

  // ---- the merging phase ----

  ghost function SumFrom(s: seq<nat>, i: nat): nat
    requires i <= |s|
    decreases |s| - i
  {
    if i == |s| then 0 else s[i] + SumFrom(s, i + 1)
  }

  lemma {:induction false} SumFromSnoc(s: seq<nat>, x: nat, i: nat)
    requires i <= |s|
    ensures SumFrom(s + [x], i) == SumFrom(s, i) + x
    decreases |s| - i
  {
    if i < |s| {
      SumFromSnoc(s, x, i + 1);
    }
  }

  ghost predicate SortedNonZero(freqs: seq<nat>) {
    && (forall i :: 0 <= i < |freqs| ==> freqs[i] >= 1)
    && (forall i, j :: 0 <= i <= j < |freqs| ==> freqs[i] <= freqs[j])
  }

  /** What has been merged so far: weights and parent links of the internal nodes,
      and the last (largest) item each of them consumed. */
  datatype Merge = Merge(parents: seq<nat>, weights: seq<nat>, floors: seq<nat>)

  ghost predicate LinksOk(m: Merge, lim: nat) {
    && (forall k :: 0 <= k < |m.parents| ==> k < m.parents[k] <= lim)
    && (forall j, k :: 0 <= j <= k < |m.parents| ==> m.parents[j] <= m.parents[k])
    && (forall j, k :: 0 <= j && j + 2 <= k < |m.parents| ==> m.parents[j] < m.parents[k])
  }

  /** A finished parent outweighs its child by everything consumed before it. */
  ghost predicate Linked(m: Merge, k: nat) {
    k < |m.parents| && m.parents[k] < |m.weights| == |m.floors| && k < |m.weights| ==>
      var p := m.parents[k];
      && m.weights[k] <= m.floors[p]
      && m.weights[p] >= m.weights[k] + 1
      && (p >= 1 ==> m.weights[p] >= m.weights[k] + m.floors[p - 1])
  }

  ghost predicate WeightsOk(m: Merge) {
    && |m.floors| == |m.weights|
    && (forall k :: 0 <= k < |m.weights| ==> 2 <= m.weights[k] <= 2 * m.floors[k])
    && (forall j, k :: 0 <= j <= k < |m.weights| ==> m.weights[j] <= m.weights[k])
    && (forall j, k :: 0 <= j <= k < |m.floors| ==> m.floors[j] <= m.floors[k])
    && |m.parents| <= |m.weights|
    && (forall k: nat :: Linked(m, k))
  }

  /** Nothing still waiting is smaller than what was consumed last. */
  ghost predicate FloorOk(freqs: seq<nat>, m: Merge, leaf: nat, floor: nat) {
    && (forall k :: |m.parents| <= k < |m.weights| ==> floor <= m.weights[k])
    && (forall i :: leaf <= i < |freqs| ==> floor <= freqs[i])
  }

  ghost predicate Merged(freqs: seq<nat>, m: Merge, leaf: nat) {
    var next, root := |m.weights|, |m.parents|;
    && SortedNonZero(freqs)
    && 1 <= next && root < next && next < |freqs| && leaf <= |freqs| && 2 * next == root + leaf
    && LinksOk(m, next - 1) && WeightsOk(m)
    && FloorOk(freqs, m, leaf, m.floors[next - 1])
    && SumFrom(m.weights, root) + SumFrom(freqs, leaf) == SumFrom(freqs, 0)
  }

  lemma MergedCounts(freqs: seq<nat>, m: Merge, leaf: nat)
    requires Merged(freqs, m, leaf)
    ensures |m.parents| < |m.weights| < |freqs| && leaf <= |freqs| && 2 * |m.weights| == |m.parents| + leaf
    ensures SortedNonZero(freqs) && LinksOk(m, |m.weights| - 1) && |m.floors| == |m.weights|
  {
  }

  lemma MergedIntro(freqs: seq<nat>, m: Merge, leaf: nat, floor: nat)
    requires |m.parents| < |m.weights| < |freqs| && leaf <= |freqs| && 2 * |m.weights| == |m.parents| + leaf
    requires SortedNonZero(freqs) && LinksOk(m, |m.weights| - 1) && WeightsOk(m)
    requires |m.floors| == |m.weights| && floor == m.floors[|m.weights| - 1] && FloorOk(freqs, m, leaf, floor)
    requires SumFrom(m.weights, |m.parents|) + SumFrom(freqs, leaf) == SumFrom(freqs, 0)
    ensures Merged(freqs, m, leaf)
  {
    hide WeightsOk;
    hide FloorOk;
    hide LinksOk;
    hide SortedNonZero;
  }

  lemma FirstMerge(freqs: seq<nat>)
    requires |freqs| >= 2 && SortedNonZero(freqs)
    ensures Merged(freqs, Merge([], [freqs[0] + freqs[1]], [freqs[1]]), 2)
  {
    assert SumFrom(freqs, 0) == freqs[0] + (freqs[1] + SumFrom(freqs, 2));
    var w := [freqs[0] + freqs[1]];
    assert SumFrom(w, 0) == w[0] + SumFrom(w, 1);
  }

  /** The smaller of the two queue heads: what the two comparisons select. */
  ghost predicate Picks(freqs: seq<nat>, m: Merge, leaf: nat, internal: bool) {
    if internal then
      |m.parents| < |m.weights|
      && forall i :: leaf <= i < |freqs| ==> m.weights[|m.parents|] <= freqs[i]
    else
      leaf < |freqs|
      && forall k :: |m.parents| <= k < |m.weights| ==> freqs[leaf] <= m.weights[k]
  }

  ghost function Item(freqs: seq<nat>, m: Merge, leaf: nat, internal: bool): nat
    requires Picks(freqs, m, leaf, internal)
  {
    if internal then m.weights[|m.parents|] else freqs[leaf]
  }

  ghost function Take(m: Merge, next: nat, internal: bool): Merge {
    if internal then m.(parents := m.parents + [next]) else m
  }

  ghost function NextLeaf(leaf: nat, internal: bool): nat {
    if internal then leaf else leaf + 1
  }

  /** Taking one item: it is the smallest, so it is a new floor. */
  lemma TakeOne(freqs: seq<nat>, m: Merge, leaf: nat, floor: nat, internal: bool)
    requires SortedNonZero(freqs) && Picks(freqs, m, leaf, internal)
    requires leaf <= |freqs| && WeightsOk(m) && FloorOk(freqs, m, leaf, floor)
    ensures var x := Item(freqs, m, leaf, internal); var m' := Take(m, |m.weights|, internal);
            var leaf' := NextLeaf(leaf, internal);
            x >= floor && x >= 1 && WeightsOk(m') && FloorOk(freqs, m', leaf', x)
            && SumFrom(m.weights, |m.parents|) + SumFrom(freqs, leaf)
               == x + SumFrom(m.weights, |m'.parents|) + SumFrom(freqs, leaf')
  {
    if internal {
      TakeInternal(m);
    }
  }

  lemma TakeInternal(m: Merge)
    requires WeightsOk(m) && |m.parents| < |m.weights|
    ensures WeightsOk(Take(m, |m.weights|, true))
  {
    var m' := Take(m, |m.weights|, true);
    forall k: nat
      ensures Linked(m', k)
    {
      assert Linked(m, k);
    }
  }

  /** At most two new links to the node being made keep the links in order. */
  lemma TakeLinks(m: Merge, next: nat, m2: Merge)
    requires next >= 1 && LinksOk(m, next - 1)
    requires m.parents <= m2.parents && |m2.parents| <= |m.parents| + 2 && |m2.parents| <= next
    requires forall k :: |m.parents| <= k < |m2.parents| ==> m2.parents[k] == next
    ensures LinksOk(m2, next)
  {
  }

  ghost function Close(m: Merge, x: nat, y: nat): Merge {
    Merge(m.parents, m.weights + [x + y], m.floors + [y])
  }

  /** Two items taken make the next internal node. */
  lemma MergeTwo(freqs: seq<nat>, m: Merge, leaf: nat, in1: bool, in2: bool, x: nat, y: nat, m2: Merge, leaf2: nat)
    requires Merged(freqs, m, leaf) && |m.weights| < |freqs| - 1
    requires Picks(freqs, m, leaf, in1) && x == Item(freqs, m, leaf, in1)
    requires var m1 := Take(m, |m.weights|, in1); var leaf1 := NextLeaf(leaf, in1);
             && Picks(freqs, m1, leaf1, in2) && y == Item(freqs, m1, leaf1, in2)
             && m2 == Take(m1, |m.weights|, in2) && leaf2 == NextLeaf(leaf1, in2)
    ensures Merged(freqs, Close(m2, x, y), leaf2)
    ensures x + y <= SumFrom(freqs, 0)
  {
    var next := |m.weights|;
    var m1, leaf1 := Take(m, next, in1), NextLeaf(leaf, in1);
    var floor := m.floors[next - 1];
    TakeOne(freqs, m, leaf, floor, in1);
    TakeOne(freqs, m1, leaf1, x, in2);
    TakenParents(m, in1, in2, m2);
    TakenItems(freqs, m, leaf, in1, in2, x, y, m2);
    CloseMerge(m, m2, x, y);
    CloseFloor(freqs, m2, leaf2, x, y);
    CloseRest(freqs, m, leaf, in1, in2, x, y, m2, leaf2);
  }

  lemma CloseRest(freqs: seq<nat>, m: Merge, leaf: nat, in1: bool, in2: bool, x: nat, y: nat, m2: Merge, leaf2: nat)
    requires Merged(freqs, m, leaf) && |m.weights| < |freqs| - 1
    requires m2 == Take(Take(m, |m.weights|, in1), |m.weights|, in2)
    requires leaf2 == NextLeaf(NextLeaf(leaf, in1), in2) <= |freqs|
    requires |m2.parents| <= |m.weights|
    requires SumFrom(freqs, 0) == x + y + SumFrom(m.weights, |m2.parents|) + SumFrom(freqs, leaf2)
    requires WeightsOk(Close(m2, x, y))
    requires FloorOk(freqs, Close(m2, x, y), leaf2, y)
    ensures Merged(freqs, Close(m2, x, y), leaf2)
  {
    hide Merged;
    hide WeightsOk;
    hide FloorOk;
    hide LinksOk;
    hide SortedNonZero;
    MergedCounts(freqs, m, leaf);
    TakenParents(m, in1, in2, m2);
    TakeLinks(m, |m.weights|, Close(m2, x, y));
    SumFromSnoc(m.weights, x + y, |m2.parents|);
    MergedIntro(freqs, Close(m2, x, y), leaf2, y);
  }

  lemma TakenParents(m: Merge, in1: bool, in2: bool, m2: Merge)
    requires m2 == Take(Take(m, |m.weights|, in1), |m.weights|, in2)
    ensures m.parents <= m2.parents && m2.weights == m.weights && m2.floors == m.floors
    ensures |m2.parents| == |m.parents| + (if in1 then 1 else 0) + (if in2 then 1 else 0)
    ensures forall k :: |m.parents| <= k < |m2.parents| ==> m2.parents[k] == |m.weights|
  {
  }

  lemma TakenItems(freqs: seq<nat>, m: Merge, leaf: nat, in1: bool, in2: bool, x: nat, y: nat, m2: Merge)
    requires Picks(freqs, m, leaf, in1) && x == Item(freqs, m, leaf, in1)
    requires var m1 := Take(m, |m.weights|, in1); var leaf1 := NextLeaf(leaf, in1);
             && Picks(freqs, m1, leaf1, in2) && y == Item(freqs, m1, leaf1, in2)
             && m2 == Take(m1, |m.weights|, in2)
    requires |m.parents| <= |m.weights|
    ensures |m2.parents| <= |m.weights|
    ensures forall k :: |m.parents| <= k < |m2.parents| ==> m.weights[k] == x || m.weights[k] == y
  {
  }

  lemma CloseLinked(m: Merge, m2: Merge, x: nat, y: nat, k: nat)
    requires |m.weights| == |m.floors| >= 1 && |m.parents| <= |m.weights| && Linked(m2, k)
    requires m2.weights == m.weights && m2.floors == m.floors && m.parents <= m2.parents
    requires forall j :: 0 <= j < |m.parents| ==> m.parents[j] < |m.weights|
    requires m.floors[|m.weights| - 1] <= x <= y && 1 <= x
    requires forall j :: |m.parents| <= j < |m2.parents| ==>
                           m2.parents[j] == |m.weights| && j < |m.weights| && (m.weights[j] == x || m.weights[j] == y)
    requires forall j :: 0 <= j < |m.parents| ==> m2.parents[j] == m.parents[j]
    ensures Linked(Close(m2, x, y), k)
  {
  }

  lemma CloseFloor(freqs: seq<nat>, m: Merge, leaf: nat, x: nat, y: nat)
    requires FloorOk(freqs, m, leaf, y)
    ensures FloorOk(freqs, Close(m, x, y), leaf, y)
  {
  }

  lemma CloseMerge(m: Merge, m2: Merge, x: nat, y: nat)
    requires |m.weights| >= 1 && LinksOk(m, |m.weights| - 1) && WeightsOk(m)
    requires WeightsOk(m2)
    requires m2.weights == m.weights && m2.floors == m.floors && m.parents <= m2.parents
    requires m.floors[|m.weights| - 1] <= x <= y && 1 <= x
    requires forall k :: |m.parents| <= k < |m2.parents| ==>
                           m2.parents[k] == |m.weights| && (m.weights[k] == x || m.weights[k] == y)
    ensures WeightsOk(Close(m2, x, y))
  {
    var m3 := Close(m2, x, y);
    forall k: nat
      ensures Linked(m3, k)
    {
      CloseLinked(m, m2, x, y, k);
    }
  }

  /** Where the array stands while merging: links, then weights, then frequencies. */
  ghost predicate Layout(keys: seq<int>, freqs: seq<nat>, m: Merge, leaf: nat) {
    && |keys| == |freqs| && |m.parents| <= |m.weights| <= leaf <= |freqs|
    && (forall k :: 0 <= k < |m.parents| ==> keys[k] == m.parents[k])
    && (forall k :: |m.parents| <= k < |m.weights| ==> keys[k] == m.weights[k])
    && (forall i :: leaf <= i < |freqs| ==> keys[i] == freqs[i])
  }

  /** The finished merge is a tree over all the items, with the total at the root. */
  lemma MergeDone(freqs: seq<nat>, m: Merge, leaf: nat)
    requires Merged(freqs, m, leaf) && |m.weights| == |freqs| - 1
    ensures Grows(m.parents, |freqs|, m.weights)
    ensures m.weights[|freqs| - 2] == SumFrom(freqs, 0) && leaf == |freqs|
  {
    var n := |freqs|;
    assert |m.parents| == n - 2 && leaf == n;
    assert SumFrom(m.weights, n - 2) == m.weights[n - 2] + SumFrom(m.weights, n - 1);
    forall k | 0 <= k < n - 2
      ensures m.weights[m.parents[k]] >= m.weights[k] + 1
      ensures m.parents[k] < n - 2 ==>
                m.weights[m.parents[m.parents[k]]] >= m.weights[m.parents[k]] + m.weights[k]
    {
      assert Linked(m, k);
      if m.parents[k] < n - 2 {
        assert Linked(m, m.parents[k]);
      }
    }
  }

  lemma OnceMerged(freqs: seq<nat>, m: Merge, leaf: nat, in1: bool, in2: bool, x: nat)
    returns (y: nat, m': Merge)
    requires Merged(freqs, m, leaf)
    requires |m.weights| < |freqs| - 1
    requires in1 == (leaf >= |freqs| || m.weights[|m.parents|] < freqs[leaf])
    requires x == if in1 then m.weights[|m.parents|] else freqs[leaf]
    requires var root1 := |Take(m, |m.weights|, in1).parents|; var leaf1 := NextLeaf(leaf, in1);
             in2 == (leaf1 >= |freqs| || (root1 < |m.weights| && m.weights[root1] < freqs[leaf1]))
    ensures var m1 := Take(m, |m.weights|, in1); var leaf1 := NextLeaf(leaf, in1);
            && Merged(freqs, m', NextLeaf(leaf1, in2)) && x + y <= SumFrom(freqs, 0)
            && m' == Close(Take(m1, |m.weights|, in2), x, y)
            && (in2 ==> |m1.parents| < |m.weights| && y == m.weights[|m1.parents|])
            && (!in2 ==> leaf1 < |freqs| && y == freqs[leaf1])
  {
    FirstPick(freqs, m, leaf, in1);
    SecondPick(freqs, m, leaf, in1, in2);
    var m1, leaf1 := Take(m, |m.weights|, in1), NextLeaf(leaf, in1);
    y := Item(freqs, m1, leaf1, in2);
    var m2 := Take(m1, |m.weights|, in2);
    MergeTwo(freqs, m, leaf, in1, in2, x, y, m2, NextLeaf(leaf1, in2));
    m' := Close(m2, x, y);
  }

  lemma CloseLayout(keys: seq<int>, freqs: seq<nat>, m: Merge, leaf: nat, x: nat, y: nat)
    requires Layout(keys, freqs, m, leaf) && |m.weights| < leaf && keys[|m.weights|] == x + y
    requires |m.parents| <= |m.weights|
    ensures Layout(keys, freqs, Close(m, x, y), leaf)
  {
  }

  lemma {:induction false} SizeBelowSum(freqs: seq<nat>, i: nat)
    requires SortedNonZero(freqs) && i <= |freqs|
    ensures |freqs| - i <= SumFrom(freqs, i)
    decreases |freqs| - i
  {
    if i < |freqs| {
      SizeBelowSum(freqs, i + 1);
    }
  }

  /** The first comparison of the source picks the smallest waiting item. */
  lemma FirstPick(freqs: seq<nat>, m: Merge, leaf: nat, in1: bool)
    requires Merged(freqs, m, leaf)
    requires in1 == (leaf >= |freqs| || m.weights[|m.parents|] < freqs[leaf])
    ensures Picks(freqs, m, leaf, in1)
  {
  }

  /** So does the second, among what is left. */
  lemma SecondPick(freqs: seq<nat>, m: Merge, leaf: nat, in1: bool, in2: bool)
    requires Merged(freqs, m, leaf) && |m.weights| < |freqs| - 1 && Picks(freqs, m, leaf, in1)
    requires var root1 := |Take(m, |m.weights|, in1).parents|; var leaf1 := NextLeaf(leaf, in1);
             in2 == (leaf1 >= |freqs| || (root1 < |m.weights| && m.weights[root1] < freqs[leaf1]))
    ensures Picks(freqs, Take(m, |m.weights|, in1), NextLeaf(leaf, in1), in2)
  {
  }
}
