/**
 In-place minimum-redundancy code lengths: one array of sorted frequencies is
 turned into weights and parent links, then depths, then code lengths.
 */
module MinimumRedundancy {
  import opened Bits
  import opened CanonicalCodes
  import opened MergeTree
  import opened MergeCost

  /** keys[next] := the smaller queue head. */
  method TakeFirst(keys: array<int>, n: nat, root0: nat, leaf0: nat, next: nat,
                   ghost freqs: seq<nat>, ghost m: Merge)
    returns (root: nat, leaf: nat, ghost internal: bool)
    requires n == |freqs| <= keys.Length && n < 65536 && next == |m.weights| < n - 1
    requires root0 == |m.parents| < next < leaf0 && Layout(keys[..n], freqs, m, leaf0)
    modifies keys
    ensures internal == (leaf0 >= n || m.weights[root0] < freqs[leaf0])
    ensures root == |Take(m, next, internal).parents| && leaf == NextLeaf(leaf0, internal) <= n
    ensures Layout(keys[..n], freqs, Take(m, next, internal), leaf)
    ensures keys[next] == if internal then m.weights[root0] else freqs[leaf0]
    ensures keys[n..] == old(keys[n..])
  {
    root, leaf := root0, leaf0;
    internal := leaf >= n || keys[root] < keys[leaf];
    if leaf >= n || keys[root] < keys[leaf] {
      keys[next] := keys[root];
      keys[root] := next % 65536;
      root := root + 1;
    } else {
      keys[next] := keys[leaf];
      leaf := leaf + 1;
    }
  }

  /** keys[next] := keys[next] + the smaller queue head, in 16 bits. */
  method TakeSecond(keys: array<int>, n: nat, root0: nat, leaf0: nat, next: nat,
                    ghost freqs: seq<nat>, ghost m: Merge, ghost x: nat)
    returns (root: nat, leaf: nat, ghost internal: bool)
    requires n == |freqs| <= keys.Length && n < 65536 && next == |m.weights| < n - 1
    requires root0 == |m.parents| <= next && next < leaf0 && Layout(keys[..n], freqs, m, leaf0)
    requires leaf0 >= n ==> root0 < next
    requires keys[next] == x
    modifies keys
    ensures internal == (leaf0 >= n || (root0 < next && m.weights[root0] < freqs[leaf0]))
    ensures root == |Take(m, next, internal).parents| && leaf == NextLeaf(leaf0, internal) <= n
    ensures Layout(keys[..n], freqs, Take(m, next, internal), leaf)
    ensures internal ==> root0 < next
    ensures keys[next] == (x + if internal then m.weights[root0] else freqs[leaf0]) % 65536
    ensures keys[n..] == old(keys[n..])
  {
    root, leaf := root0, leaf0;
    internal := leaf >= n || (root < next && keys[root] < keys[leaf]);
    if leaf >= n || (root < next && keys[root] < keys[leaf]) {
      keys[next] := (keys[next] + keys[root]) % 65536;
      keys[root] := next % 65536;
      root := root + 1;
    } else {
      keys[next] := (keys[next] + keys[leaf]) % 65536;
      leaf := leaf + 1;
    }
  }

  method MergePhase(keys: array<int>, n: nat, ghost freqs: seq<nat>) returns (ghost m: Merge)
    requires 2 <= n <= keys.Length && n == |freqs| && keys[..n] == freqs
    requires SortedNonZero(freqs) && SumFrom(freqs, 0) < 65536
    modifies keys
    ensures Grows(m.parents, n, m.weights) && m.weights[n - 2] == SumFrom(freqs, 0)
    ensures Optimal(freqs, m, n)
    ensures forall k :: 0 <= k < n - 2 ==> keys[k] == m.parents[k]
    ensures keys[n..] == old(keys[n..])
  {
    hide Optimal;
    FirstMerge(freqs);
    OptimalStart(freqs);
    m := Merge([], [freqs[0] + freqs[1]], [freqs[1]]);
    assert SumFrom(freqs, 0) == freqs[0] + (freqs[1] + SumFrom(freqs, 2));
    keys[0] := (keys[0] + keys[1]) % 65536;
    var root, leaf, next := 0, 2, 1;
    SizeBelowSum(freqs, 0);
    while next < n - 1
      invariant 1 <= next <= n - 1 && root == |m.parents| && next == |m.weights|
      invariant Merged(freqs, m, leaf)
      invariant Layout(keys[..n], freqs, m, leaf)
      invariant Optimal(freqs, m, leaf)
      invariant keys[n..] == old(keys[n..])
    {
      root, leaf, m := MergeOnce(keys, n, root, leaf, next, freqs, m);
      next := next + 1;
    }
    MergeDone(freqs, m, leaf);
  }

  method MergeOnce(keys: array<int>, n: nat, root0: nat, leaf0: nat, next: nat,
                   ghost freqs: seq<nat>, ghost m: Merge)
    returns (root: nat, leaf: nat, ghost m': Merge)
    requires n == |freqs| <= keys.Length && n < 65536 && SumFrom(freqs, 0) < 65536
    requires next == |m.weights| < n - 1 && root0 == |m.parents|
    requires Merged(freqs, m, leaf0)
    requires Layout(keys[..n], freqs, m, leaf0)
    requires Optimal(freqs, m, leaf0)
    modifies keys
    ensures Merged(freqs, m', leaf)
    ensures Optimal(freqs, m', leaf)
    ensures Layout(keys[..n], freqs, m', leaf)
    ensures root == |m'.parents| && |m'.weights| == next + 1
    ensures keys[n..] == old(keys[n..])
  {
    hide Layout;
    hide Optimal;
    hide Merged;
    MergedCounts(freqs, m, leaf0);
    ghost var in1, in2, x, y;
    root, leaf, in1, in2, x := TakeTwo(keys, n, root0, leaf0, next, freqs, m);
    y, m' := OnceMerged(freqs, m, leaf0, in1, in2, x);
    OptimalStep(freqs, m, leaf0, in1, in2, x, y, m', leaf);
    CloseLayout(keys[..n], freqs, Take(Take(m, next, in1), next, in2), leaf, x, y);
  }

  method TakeTwo(keys: array<int>, n: nat, root0: nat, leaf0: nat, next: nat,
                 ghost freqs: seq<nat>, ghost m: Merge)
    returns (root: nat, leaf: nat, ghost in1: bool, ghost in2: bool, ghost x: nat)
    requires n == |freqs| <= keys.Length && n < 65536 && next == |m.weights| < n - 1
    requires root0 == |m.parents| < next < leaf0 <= n && 2 * next == root0 + leaf0
    requires Layout(keys[..n], freqs, m, leaf0)
    modifies keys
    ensures in1 == (leaf0 >= n || m.weights[root0] < freqs[leaf0])
    ensures x == if in1 then m.weights[root0] else freqs[leaf0]
    ensures var m1 := Take(m, next, in1); var root1 := |m1.parents|; var leaf1 := NextLeaf(leaf0, in1);
            && in2 == (leaf1 >= n || (root1 < next && m.weights[root1] < freqs[leaf1]))
            && root1 <= next && (in2 ==> root1 < next)
            && root == |Take(m1, next, in2).parents| && leaf == NextLeaf(leaf1, in2)
            && Layout(keys[..n], freqs, Take(m1, next, in2), leaf)
            && keys[next] == (x + if in2 then m.weights[root1] else freqs[leaf1]) % 65536
    ensures keys[n..] == old(keys[n..])
  {
    root, leaf, in1 := TakeFirst(keys, n, root0, leaf0, next, freqs, m);
    x := keys[next];
    root, leaf, in2 := TakeSecond(keys, n, root, leaf, next, freqs, Take(m, next, in1), x);
  }

  // ---- depths, then lengths ----

  method DepthPhase(keys: array<int>, n: nat, ghost parents: seq<nat>)
    requires 2 <= n <= keys.Length && Shape(parents, n)
    requires forall k :: 0 <= k < n - 2 ==> keys[k] == parents[k]
    modifies keys
    ensures forall k :: 0 <= k < n - 1 ==> keys[k] == Depth(parents, n, k)
    ensures keys[n..] == old(keys[n..])
  {
    keys[n - 2] := 0;
    var next := n - 3;
    while next >= 0
      invariant -1 <= next <= n - 3
      invariant forall k :: 0 <= k <= next ==> keys[k] == parents[k]
      invariant forall k :: next < k < n - 1 ==> keys[k] == Depth(parents, n, k)
      invariant keys[n..] == old(keys[n..])
    {
      keys[next] := keys[keys[next]] + 1;
      next := next - 1;
    }
  }

  /** No internal node lies deeper than 21 levels. */
  ghost predicate Shallow(parents: seq<nat>, n: nat) {
    Shape(parents, n) && forall k :: 0 <= k < n - 1 ==> Depth(parents, n, k) <= 21
  }

  lemma ShallowByWeight(parents: seq<nat>, n: nat, weights: seq<nat>)
    requires Grows(parents, n, weights) && weights[n - 2] < 65536
    ensures Shallow(parents, n)
  {
    forall k: nat | k < n - 1
      ensures Depth(parents, n, k) <= 21
    {
      DepthBound(parents, n, weights, k);
    }
  }

  /** Code lengths on hand: between 1 and 22, largest first. */
  ghost predicate LengthsOk(lens: seq<int>) {
    && (forall i :: 0 <= i < |lens| ==> 1 <= lens[i] <= 22)
    && (forall i, j :: 0 <= i <= j < |lens| ==> lens[i] >= lens[j])
  }

  ghost function AsNat(lens: seq<int>): (r: seq<nat>)
    requires LengthsOk(lens)
    ensures |r| == |lens| && forall i :: 0 <= i < |r| ==> r[i] == lens[i] <= 32
  {
    seq(|lens|, i requires 0 <= i < |lens| => lens[i] as nat)
  }

  /** The lengths written so far and the free slots of depth dpth make up the whole. */
  ghost predicate TailOk(tail: seq<int>, avbl: int, dpth: int, longest: int) {
    && LengthsOk(tail) && 0 <= dpth <= 32
    && (|tail| > 0 ==> tail[0] <= longest)
    && Room(tail) + Slots(avbl, dpth) == Pow2(32)
  }

  /** The room taken by lengths: their Kraft sum, counted from the front. */
  ghost function Room(tail: seq<int>): nat {
    if tail == [] then 0
    else (if 1 <= tail[0] <= 32 then Pow2(32 - tail[0]) else 0) + Room(tail[1..])
  }

  lemma {:induction false} RoomIsKraft(lens: seq<int>)
    requires LengthsOk(lens)
    ensures Room(lens) == Kraft(AsNat(lens), 32)
  {
    if lens != [] {
      RoomIsKraft(lens[1..]);
      assert AsNat(lens) == [lens[0] as nat] + AsNat(lens[1..]);
      KraftCons(lens[0], AsNat(lens[1..]), 32);
    }
  }

  /** The room of avbl free slots of depth dpth. */
  ghost function Slots(avbl: int, dpth: int): nat
    requires 0 <= dpth <= 32
  {
    if avbl <= 0 then 0 else Slots(avbl - 1, dpth) + Pow2(32 - dpth)
  }

  /** One level down: root is the last internal node not yet passed, next the last
      length not yet written, avbl the number of free slots at this depth. */
  ghost predicate LevelInv(keys: seq<int>, n: nat, parents: seq<nat>, root: int, next: int, avbl: int, dpth: int) {
    && Shallow(parents, n) && |keys| == n
    && -1 <= root <= n - 2 && -1 <= next <= n - 1 && 0 <= avbl && 0 <= dpth <= 23
    && (n - 1 - next) + avbl == 1 + (n - 2 - root)
    && (forall k :: 0 <= k <= root ==> keys[k] == Depth(parents, n, k) >= dpth)
    && (forall k :: root < k < n - 1 ==> Depth(parents, n, k) < dpth)
    && LevelAbove(n, parents, root, avbl, dpth)
    && (avbl == 0 ==> root == -1)
    && TailOk(keys[next + 1..], avbl, dpth, dpth - 1)
  }

  ghost predicate LevelAbove(n: nat, parents: seq<nat>, root: int, avbl: int, dpth: int)
    requires Shape(parents, n) && -1 <= root <= n - 2
  {
    if dpth == 0 then root == n - 2 && avbl == 1
    else if avbl < 0 then false
    else
      var top := root + 1 + avbl / 2;
      && avbl % 2 == 0 && top <= n - 1
      && (forall k :: root < k < top ==> Depth(parents, n, k) == dpth - 1)
      && (top <= n - 2 ==> Depth(parents, n, top) < dpth - 1)
  }

  lemma BelowRoot(parents: seq<nat>, n: nat, k: nat)
    requires Shape(parents, n) && k < n - 2
    ensures Depth(parents, n, k) >= 1
  {
  }

  /** The nodes found at this depth are no more than the slots. */
  lemma EnoughSlots(n: nat, parents: seq<nat>, root0: int, root: int, avbl: int, dpth: int)
    requires Shape(parents, n) && -1 <= root <= root0 <= n - 2 && dpth >= 0 && avbl >= 0
    requires LevelAbove(n, parents, root0, avbl, dpth)
    requires forall k :: root < k <= root0 ==> Depth(parents, n, k) == dpth
    ensures root0 - root <= avbl
  {
    if dpth == 0 {
      if root < n - 3 {
        BelowRoot(parents, n, n - 3);
      }
    } else if avbl > 0 {
      LevelBound(parents, n, root + 1, root0 + 1, root0 + 1 + avbl / 2, dpth - 1);
    } else if root < root0 {
      if root0 < n - 2 {
        DepthStep(parents, n, root0);
      }
    }
  }

  /** While nodes remain, the next one lies exactly at this depth. */
  lemma NextAtDepth(keys: seq<int>, n: nat, parents: seq<nat>, root: int, next: int, avbl: int, dpth: int)
    requires LevelInv(keys, n, parents, root, next, avbl, dpth) && root >= 0
    ensures Depth(parents, n, root) == dpth
  {
    if root < n - 2 {
      DepthStep(parents, n, root);
    }
  }

  method CountLevel(keys: array<int>, n: nat, root0: int, dpth: int, ghost parents: seq<nat>)
    returns (root: int, used: int)
    requires Shape(parents, n) && n <= keys.Length && -1 <= root0 <= n - 2
    requires forall k :: 0 <= k <= root0 ==> keys[k] == Depth(parents, n, k)
    ensures -1 <= root <= root0 && used == root0 - root
    ensures forall k :: root < k <= root0 ==> Depth(parents, n, k) == dpth
    ensures root >= 0 ==> Depth(parents, n, root) != dpth
  {
    root, used := root0, 0;
    while root >= 0 && keys[root] == dpth
      invariant -1 <= root <= root0 && used == root0 - root
      invariant forall k :: root < k <= root0 ==> Depth(parents, n, k) == dpth
    {
      used := used + 1;
      root := root - 1;
    }
  }

  /** Gives the slots not taken by internal nodes to leaves. */
  method FillLevel(keys: array<int>, n: nat, next0: int, avbl0: int, used: int, dpth: int)
    returns (next: int)
    requires n <= keys.Length && 0 <= used <= avbl0 && avbl0 - used <= next0 + 1 <= n
    requires 0 <= dpth <= 22
    modifies keys
    ensures next == next0 - (avbl0 - used)
    ensures keys[next + 1..n] == Repeat(dpth, avbl0 - used) + old(keys[next0 + 1..n])
    ensures forall k :: 0 <= k <= next || n <= k < keys.Length ==> keys[k] == old(keys[k])
  {
    var avbl := avbl0;
    next := next0;
    while avbl > used
      invariant used <= avbl <= avbl0 && next == next0 - (avbl0 - avbl)
      invariant forall k :: next < k <= next0 ==> keys[k] == dpth
      invariant forall k :: 0 <= k <= next || next0 < k < keys.Length ==> keys[k] == old(keys[k])
    {
      keys[next] := dpth % 65536;
      next := next - 1;
      avbl := avbl - 1;
    }
    assert keys[next0 + 1..n] == old(keys[next0 + 1..n]);
    assert keys[next + 1..next0 + 1] == Repeat(dpth, avbl0 - used);
    assert keys[next + 1..n] == keys[next + 1..next0 + 1] + keys[next0 + 1..n];
  }

  /** Leaves take free slots one by one. */
  lemma {:induction false} RoomOfLeaves(tail: seq<int>, avbl: int, count: nat, dpth: int)
    requires 0 <= dpth <= 22 && count <= avbl && (count > 0 ==> dpth >= 1)
    ensures Room(Repeat(dpth, count) + tail) + Slots(avbl - count, dpth) == Room(tail) + Slots(avbl, dpth)
  {
    if count == 0 {
      assert Repeat(dpth, 0) + tail == tail;
    } else {
      RoomOfLeaves(tail, avbl, count - 1, dpth);
      var all := Repeat(dpth, count) + tail;
      assert all[0] == dpth && all[1..] == Repeat(dpth, count - 1) + tail;
    }
  }

  lemma PushLeaves(tail: seq<int>, avbl: int, count: nat, dpth: int)
    requires TailOk(tail, avbl, dpth, dpth) && count <= avbl
    requires dpth <= 22 && (count > 0 ==> dpth >= 1)
    ensures TailOk(Repeat(dpth, count) + tail, avbl - count, dpth, dpth)
  {
    RoomOfLeaves(tail, avbl, count, dpth);
  }

  /** Some node is at least as deep as the level before the last one passed. */
  ghost predicate Reached(parents: seq<nat>, n: nat, dpth: int) {
    Shape(parents, n) && (dpth >= 2 ==> exists k: nat :: k < n - 1 && Depth(parents, n, k) >= dpth - 2)
  }

  lemma LevelReached(keys: seq<int>, n: nat, parents: seq<nat>, root: int, next: int, avbl: int, dpth: int)
    requires LevelInv(keys, n, parents, root, next, avbl, dpth) && avbl > 0
    ensures Reached(parents, n, dpth + 1)
  {
    if dpth > 0 {
      var k := root + 1;
      assert Depth(parents, n, k) == dpth - 1;
    }
  }

  /** How long the longest code is: its total weight is at least a Fibonacci number. */
  lemma LongestNeeds(parents: seq<nat>, n: nat, weights: seq<nat>, longest: int)
    requires n >= 2 && Grows(parents, n, weights) && longest >= 1 && Reached(parents, n, longest + 1)
    ensures weights[n - 2] >= Fib(longest + 2)
  {
    var k: nat :| k < n - 1 && Depth(parents, n, k) >= longest - 1;
    DepthNeeds(parents, n, weights, k);
    FibMonotone(longest + 2, 3 + Depth(parents, n, k));
  }

  method LengthPhase(keys: array<int>, n: nat, ghost parents: seq<nat>, ghost freqs: seq<nat>, ghost m: Merge)
    requires 2 <= n <= keys.Length && Shallow(parents, n)
    requires n == |freqs| && m.parents == parents && |m.weights| == n - 1 && AllBalanced(freqs, m)
    requires forall k :: 0 <= k < n - 1 ==> keys[k] == Depth(parents, n, k)
    modifies keys
    ensures LengthsOk(keys[..n]) && Kraft(AsNat(keys[..n]), 32) == Pow2(32)
    ensures CostFrom(freqs, 0, keys[..n]) == SumFrom(m.weights, 0)
    ensures Reached(parents, n, keys[0] + 1)
    ensures forall k :: n <= k < keys.Length ==> keys[k] == old(keys[k])
  {
    var avbl, dpth, root, next := 1, 0, n - 2, n - 1;
    hide LevelInv;
    hide Potential;
    hide AllBalanced;
    hide LengthsOk;
    hide AsNat;
    hide Kraft;
    hide CostFrom;
    hide Depth;
    hide Pow2;
    FirstLevel(keys[..n], n, parents);
    PotentialStart(freqs, m);
    assert keys[next + 1..n] == [];
    hide Reached;
    NothingReached(parents, n);
    while avbl > 0
      invariant Reached(parents, n, dpth)
      invariant LevelInv(keys[..n], n, parents, root, next, avbl, dpth)
      invariant -1 <= root && -1 <= next < n && Potential(freqs, m, keys[next + 1..n], root, next, dpth)
      invariant forall k :: n <= k < keys.Length ==> keys[k] == old(keys[k])
      decreases root + 1, avbl
    {
      LevelReached(keys[..n], n, parents, root, next, avbl, dpth);
      root, next, avbl := Level(keys, n, root, next, avbl, dpth, parents, freqs, m);
      dpth := dpth + 1;
    }
    LastLevel(keys[..n], n, parents, root, next, avbl, dpth);
    LastReached(parents, n, keys[0] + 1, dpth);
    PotentialEnd(freqs, m, keys[next + 1..n], dpth);
    assert keys[0..n] == keys[..n];
  }

  lemma NothingReached(parents: seq<nat>, n: nat)
    requires Shape(parents, n)
    ensures Reached(parents, n, 0)
  {
  }

  lemma LastReached(parents: seq<nat>, n: nat, longest: int, dpth: int)
    requires Reached(parents, n, dpth) && longest <= dpth
    ensures Reached(parents, n, longest)
  {
    if longest >= 2 {
      var k: nat :| k < n - 1 && Depth(parents, n, k) >= dpth - 2;
    }
  }

  lemma FirstLevel(keys: seq<int>, n: nat, parents: seq<nat>)
    requires 2 <= n == |keys| && Shallow(parents, n)
    requires forall k :: 0 <= k < n - 1 ==> keys[k] == Depth(parents, n, k)
    ensures LevelInv(keys, n, parents, n - 2, n - 1, 1, 0)
  {
    assert keys[n..] == [];
    assert Slots(1, 0) == Pow2(32);
  }

  lemma LastLevel(keys: seq<int>, n: nat, parents: seq<nat>, root: int, next: int, avbl: int, dpth: int)
    requires LevelInv(keys, n, parents, root, next, avbl, dpth)
    requires 2 <= n && avbl <= 0
    ensures root == -1 && next == -1
    ensures LengthsOk(keys) && Kraft(AsNat(keys), 32) == Pow2(32)
    ensures keys[0] < dpth
  {
    assert keys[0..] == keys;
    RoomIsKraft(keys);
  }

  method Level(keys: array<int>, n: nat, root0: int, next0: int, avbl0: int, dpth: int, ghost parents: seq<nat>,
               ghost freqs: seq<nat>, ghost m: Merge)
    returns (root: int, next: int, avbl: int)
    requires 2 <= n <= keys.Length && avbl0 > 0
    requires LevelInv(keys[..n], n, parents, root0, next0, avbl0, dpth)
    requires n == |freqs| && m.parents == parents && |m.weights| == n - 1 && AllBalanced(freqs, m)
    requires -1 <= next0 < n && Potential(freqs, m, keys[next0 + 1..n], root0, next0, dpth)
    modifies keys
    ensures LevelInv(keys[..n], n, parents, root, next, avbl, dpth + 1)
    ensures -1 <= next < n && Potential(freqs, m, keys[next + 1..n], root, next, dpth + 1)
    ensures -1 <= root && (root < root0 || (root == root0 == -1 && avbl == 0))
    ensures forall k :: n <= k < keys.Length ==> keys[k] == old(keys[k])
  {
    hide LevelInv;
    hide Potential;
    hide AllBalanced;
    hide Shape;
    hide Depth;
    hide Repeat;
    var used;
    ghost var keys0 := keys[..n];
    LevelShape(keys0, n, parents, root0, next0, avbl0, dpth);
    root, used := CountLevel(keys, n, root0, dpth, parents);
    LevelFacts(keys0, n, parents, root0, next0, avbl0, dpth, root, used);
    assert keys0[next0 + 1..] == keys[next0 + 1..n];
    next := FillLevel(keys, n, next0, avbl0, used, dpth);
    avbl := 2 * used;
    assert keys[..n][next + 1..] == keys[next + 1..n];
    LevelDone(keys0, keys[..n], n, parents, root0, next0, avbl0, dpth, root, next, used);
    LevelCost(keys0, keys[..n], n, parents, root0, next0, avbl0, dpth, root, next, used, freqs, m);
  }

  lemma LevelShape(keys: seq<int>, n: nat, parents: seq<nat>, root: int, next: int, avbl: int, dpth: int)
    requires LevelInv(keys, n, parents, root, next, avbl, dpth)
    ensures Shape(parents, n) && |keys| == n && 0 <= dpth && -1 <= root <= n - 2
    ensures forall k :: 0 <= k <= root ==> keys[k] == Depth(parents, n, k)
  {
    hide TailOk;
    hide LevelAbove;
  }

  /** The leaves of a level are exactly those its nodes consumed. */
  lemma LevelCost(keys0: seq<int>, keys: seq<int>, n: nat, parents: seq<nat>, root0: int, next0: int, avbl0: int,
                  dpth: int, root: int, next: int, used: int, freqs: seq<nat>, m: Merge)
    requires LevelInv(keys0, n, parents, root0, next0, avbl0, dpth)
    requires LevelInv(keys, n, parents, root, next, 2 * used, dpth + 1) && used == root0 - root && root <= root0
    requires n == |freqs| && m.parents == parents && |m.weights| == n - 1 && AllBalanced(freqs, m)
    requires Potential(freqs, m, keys0[next0 + 1..], root0, next0, dpth)
    requires next <= next0 && keys[next + 1..] == Repeat(dpth, next0 - next) + keys0[next0 + 1..]
    ensures Potential(freqs, m, keys[next + 1..], root, next, dpth + 1)
  {
    forall j: nat | j < n - 2
      ensures parents[j] <= root0 <==> j <= root
    {
      assert Depth(parents, n, j) == 1 + Depth(parents, n, parents[j]);
    }
    PotentialStep(freqs, m, keys0[next0 + 1..], root0, next0, dpth, root, next);
  }

  /** What one level offers: enough slots, at a depth of at most 22. */
  lemma LevelFacts(keys: seq<int>, n: nat, parents: seq<nat>, root0: int, next0: int, avbl0: int, dpth: int,
                   root: int, used: int)
    requires 2 <= n && avbl0 > 0 && LevelInv(keys, n, parents, root0, next0, avbl0, dpth)
    requires -1 <= root <= root0 && used == root0 - root
    requires forall k :: root < k <= root0 ==> Depth(parents, n, k) == dpth
    requires root >= 0 ==> Depth(parents, n, root) != dpth
    ensures 0 <= used <= avbl0 && dpth <= 22
    ensures dpth == 0 ==> used == avbl0
    ensures root0 >= 0 ==> used > 0
    ensures avbl0 - used <= next0 + 1
    ensures next0 - (avbl0 - used) >= root
  {
    EnoughSlots(n, parents, root0, root, avbl0, dpth);
    if root0 >= 0 {
      NextAtDepth(keys, n, parents, root0, next0, avbl0, dpth);
    }
    if dpth > 0 {
      assert Depth(parents, n, root0 + 1) == dpth - 1;
    }
  }

  lemma LevelDone(keys0: seq<int>, keys: seq<int>, n: nat, parents: seq<nat>, root0: int, next0: int, avbl0: int,
                  dpth: int, root: int, next: int, used: int)
    requires 2 <= n && avbl0 > 0 && LevelInv(keys0, n, parents, root0, next0, avbl0, dpth)
    requires -1 <= root <= root0 && used == root0 - root && 0 <= used <= avbl0 && dpth <= 22
    requires root0 >= 0 ==> used > 0
    requires forall k :: root < k <= root0 ==> Depth(parents, n, k) == dpth
    requires root >= 0 ==> Depth(parents, n, root) != dpth
    requires next == next0 - (avbl0 - used) >= root && |keys| == n
    requires forall k :: 0 <= k <= root ==> keys[k] == keys0[k]
    requires keys[next + 1..] == Repeat(dpth, avbl0 - used) + keys0[next0 + 1..]
    requires dpth == 0 ==> used == avbl0
    ensures LevelInv(keys, n, parents, root, next, 2 * used, dpth + 1)
  {
    PushLeaves(keys0[next0 + 1..], avbl0, avbl0 - used, dpth);
    NextLevel(n, parents, root0, root, dpth);
    SlotsDoubled(used, dpth);
  }

  lemma NextLevel(n: nat, parents: seq<nat>, root0: int, root: int, dpth: int)
    requires Shape(parents, n) && -1 <= root <= root0 <= n - 2
    requires forall k :: 0 <= k <= root0 ==> Depth(parents, n, k) >= dpth
    requires forall k :: root0 < k < n - 1 ==> Depth(parents, n, k) < dpth
    requires forall k :: root < k <= root0 ==> Depth(parents, n, k) == dpth
    requires root >= 0 ==> Depth(parents, n, root) != dpth
    ensures forall k :: 0 <= k <= root ==> Depth(parents, n, k) >= dpth + 1
    ensures forall k :: root < k < n - 1 ==> Depth(parents, n, k) < dpth + 1
    ensures dpth >= 0 ==> LevelAbove(n, parents, root, 2 * (root0 - root), dpth + 1)
  {
    forall k: nat | k <= root
      ensures Depth(parents, n, k) >= dpth + 1
    {
      DepthMonotone(parents, n, k, root);
    }
  }

  lemma {:induction false} SlotsDoubled(used: int, dpth: int)
    requires 0 <= dpth <= 31
    ensures Slots(2 * used, dpth + 1) == Slots(used, dpth)
  {
    if used > 0 {
      SlotsDoubled(used - 1, dpth);
      assert Slots(2 * used, dpth + 1) == Slots(2 * used - 1, dpth + 1) + Pow2(31 - dpth);
    }
  }

  lemma FewLengths(freqs: seq<nat>, lens: seq<int>)
    requires |freqs| == |lens| < 2 && (|lens| == 1 ==> lens[0] == 1)
    ensures LengthsOk(lens)
    ensures forall other: seq<nat>, d: nat :: CodeLengths(other, |freqs|, d) ==>
              CostFrom(freqs, 0, lens) <= CostFrom(freqs, 0, other)
  {
    if |lens| == 1 {
      OneLength(freqs, lens);
    }
  }

  /**
   Code lengths for n sorted, non-zero frequencies below 65536 in total: the
   array ends up with non-increasing lengths of at most 22 bits whose Kraft sum
   is exactly 1 (2^32 in units of 2^-32), and no other lengths that a prefix code can
   have make the coded data shorter. A single item gets length 1.
   */
  method CalculateMinimumRedundancy(keys: array<int>, n: nat, ghost freqs: seq<nat>)
    requires n <= keys.Length && n == |freqs| && keys[..n] == freqs
    requires SortedNonZero(freqs) && SumFrom(freqs, 0) < 65536
    modifies keys
    ensures LengthsOk(keys[..n])
    ensures n == 1 ==> keys[0] == 1
    ensures n >= 2 ==> Kraft(AsNat(keys[..n]), 32) == Pow2(32)
    ensures n >= 2 ==> keys[0] >= 1 && SumFrom(freqs, 0) >= Fib(keys[0] + 2)
    ensures forall other: seq<nat>, d: nat :: CodeLengths(other, n, d) ==>
              CostFrom(freqs, 0, keys[..n]) <= CostFrom(freqs, 0, other)
    ensures keys[n..] == old(keys[n..])
  {
    hide Kraft;
    hide AsNat;
    hide CostFrom;
    hide LengthsOk;
    if n == 0 {
      FewLengths(freqs, keys[..n]);
      return;
    } else if n == 1 {
      keys[0] := 1;
      FewLengths(freqs, keys[..n]);
      return;
    }
    ThreePhases(keys, n, freqs);
  }

  lemma LongestIsPositive(lens: seq<int>)
    requires LengthsOk(lens) && |lens| > 0
    ensures lens[0] >= 1
  {
  }

  method ThreePhases(keys: array<int>, n: nat, ghost freqs: seq<nat>)
    requires 2 <= n <= keys.Length && n == |freqs| && keys[..n] == freqs
    requires SortedNonZero(freqs) && SumFrom(freqs, 0) < 65536
    modifies keys
    ensures LengthsOk(keys[..n]) && Kraft(AsNat(keys[..n]), 32) == Pow2(32)
    ensures keys[0] >= 1 && SumFrom(freqs, 0) >= Fib(keys[0] + 2)
    ensures forall other: seq<nat>, d: nat :: CodeLengths(other, n, d) ==>
              CostFrom(freqs, 0, keys[..n]) <= CostFrom(freqs, 0, other)
    ensures keys[n..] == old(keys[n..])
  {
    hide Kraft;
    hide AsNat;
    hide CostFrom;
    hide LengthsOk;
    hide Optimal;
    hide AllBalanced;
    hide Shallow;
    hide Depth;
    hide Reached;
    hide Fib;
    hide Pow2;
    hide SumFrom;
    ghost var m := MergePhase(keys, n, freqs);
    OptimalBalanced(freqs, m);
    ShallowByWeight(m.parents, n, m.weights);
    DepthPhase(keys, n, m.parents);
    LengthPhase(keys, n, m.parents, freqs, m);
    LongestIsPositive(keys[..n]);
    LongestNeeds(m.parents, n, m.weights, keys[0]);
    OptimalLengths(freqs, m, keys[..n]);
  }
}
