/**
 What a table of code lengths costs for its frequencies, and how the cost for the sorted
 list of used symbols becomes the cost for the table.
 */
module TableCost {
  import opened Bits
  import opened CanonicalCodes
  import opened MergeCost

  /** The bits a message takes with these lengths. */
  function TotalCost(counts: seq<nat>, sizes: seq<nat>): nat
    requires |counts| == |sizes|
  {
    if counts == [] then 0
    else
      var n := |counts| - 1;
      TotalCost(counts[..n], sizes[..n]) + counts[n] * sizes[n]
  }

  /** The lengths of a prefix code for the symbols in use. */
  ghost predicate TableCode(counts: seq<nat>, sizes: seq<nat>, d: nat) {
    && |sizes| == |counts|
    && (forall p :: 0 <= p < |sizes| ==> sizes[p] <= d && (sizes[p] > 0 <==> counts[p] > 0))
    && Kraft(sizes, d) <= Pow2(d)
  }

  /** No prefix code makes the message shorter. */
  ghost predicate LeastCost(counts: seq<nat>, sizes: seq<nat>) {
    && |sizes| == |counts|
    && forall other: seq<nat>, d: nat :: TableCode(counts, other, d) ==> TotalCost(counts, sizes) <= TotalCost(counts, other)
  }

  // ---- the symbols in use, in some order ----

  ghost predicate Lists(counts: seq<nat>, order: seq<nat>) {
    && (forall k :: 0 <= k < |order| ==> order[k] < |counts| && counts[order[k]] > 0)
    && (forall j, k :: 0 <= j < k < |order| ==> order[j] != order[k])
    && (forall p :: 0 <= p < |counts| && counts[p] > 0 ==> p in order)
  }

  function At(xs: seq<nat>, order: seq<nat>): (r: seq<nat>)
    requires forall k :: 0 <= k < |order| ==> order[k] < |xs|
    ensures |r| == |order| && forall k :: 0 <= k < |r| ==> r[k] == xs[order[k]]
  {
    seq(|order|, k requires 0 <= k < |order| => xs[order[k]])
  }

  /** Without its last symbol. */
  lemma ListsLess(counts: seq<nat>, order: seq<nat>)
    requires Lists(counts, order) && order != []
    ensures Lists(counts[order[|order| - 1] := 0], order[..|order| - 1])
  {
    var p, rest := order[|order| - 1], order[..|order| - 1];
    forall q | 0 <= q < |counts| && counts[p := 0][q] > 0
      ensures q in rest
    {
      var k :| 0 <= k < |order| && order[k] == q;
      assert rest[k] == q;
    }
  }

  lemma AtLess(xs: seq<nat>, order: seq<nat>, x: nat)
    requires order != [] && forall k :: 0 <= k < |order| ==> order[k] < |xs|
    requires forall j, k :: 0 <= j < k < |order| ==> order[j] != order[k]
    ensures var n := |order| - 1;
            && At(xs, order)[..n] == At(xs[order[n] := x], order[..n]) == At(xs, order[..n])
            && At(xs, order) == At(xs, order[..n]) + [xs[order[n]]]
  {
  }

  lemma {:induction false} NoneUsed(counts: seq<nat>, sizes: seq<nat>)
    requires |counts| == |sizes| && forall p :: 0 <= p < |counts| ==> counts[p] == 0
    ensures TotalCost(counts, sizes) == 0
  {
    if counts != [] {
      NoneUsed(counts[..|counts| - 1], sizes[..|counts| - 1]);
    }
  }

  lemma {:induction false} CostLess(counts: seq<nat>, sizes: seq<nat>, p: nat)
    requires p < |counts| == |sizes|
    ensures TotalCost(counts, sizes) == TotalCost(counts[p := 0], sizes) + counts[p] * sizes[p]
  {
    var n := |counts| - 1;
    if p < n {
      assert counts[p := 0][..n] == counts[..n][p := 0];
      CostLess(counts[..n], sizes[..n], p);
    } else {
      assert counts[p := 0][..n] == counts[..n];
    }
  }

  lemma {:induction false} CostSnoc(freqs: seq<nat>, more: seq<nat>, from: nat, lens: seq<int>, x: int)
    requires from + |lens| < |freqs| && |more| >= |freqs|
    requires forall k :: 0 <= k < |freqs| ==> more[k] == freqs[k]
    ensures CostFrom(more, from, lens + [x]) == CostFrom(freqs, from, lens) + freqs[from + |lens|] * x
    decreases |lens|
  {
    if lens == [] {
      assert lens + [x] == [x] && [x][1..] == [];
    } else {
      assert (lens + [x])[1..] == lens[1..] + [x];
      CostSnoc(freqs, more, from + 1, lens[1..], x);
    }
  }

  lemma {:induction false} CostPrefix(freqs: seq<nat>, less: seq<nat>, from: nat, lens: seq<int>)
    requires from + |lens| <= |less| <= |freqs| && forall k :: 0 <= k < |less| ==> less[k] == freqs[k]
    ensures CostFrom(freqs, from, lens) == CostFrom(less, from, lens)
    decreases |lens|
  {
    if lens != [] {
      CostPrefix(freqs, less, from + 1, lens[1..]);
    }
  }

  lemma NoCost(freqs: seq<nat>, lens: seq<int>)
    requires lens == []
    ensures CostFrom(freqs, 0, lens) == 0
  {
  }

  lemma ListsRange(counts: seq<nat>, order: seq<nat>)
    requires Lists(counts, order)
    ensures forall k :: 0 <= k < |order| ==> order[k] < |counts|
    ensures forall j, k :: 0 <= j < k < |order| ==> order[j] != order[k]
  {
  }

  lemma {:induction false} ListedCost(counts: seq<nat>, sizes: seq<nat>, order: seq<nat>)
    requires Lists(counts, order) && |sizes| == |counts|
    ensures TotalCost(counts, sizes) == CostFrom(At(counts, order), 0, At(sizes, order))
    decreases |order|
  {
    hide TotalCost;
    hide CostFrom;
    if order == [] {
      NoneUsed(counts, sizes);
      NoCost(At(counts, order), At(sizes, order));
    } else {
      hide Lists;
      var n := |order| - 1;
      ListsRange(counts, order);
      var p, rest := order[n], order[..n];
      ListsLess(counts, order);
      ListedCost(counts[p := 0], sizes, rest);
      CostLess(counts, sizes, p);
      AtLess(counts, order, 0);
      AtLess(sizes, order, 0);
      var freqs := At(counts, order);
      CostSnoc(freqs, freqs, 0, At(sizes, rest), sizes[p]);
      CostPrefix(freqs, At(counts, rest), 0, At(sizes, rest));
    }
  }

  lemma {:induction false} KraftLess(lens: seq<nat>, p: nat, m: nat)
    requires p < |lens| && forall s :: 0 <= s < |lens| ==> lens[s] <= m
    ensures Kraft(lens, m) == Kraft(lens[p := 0], m) + if lens[p] == 0 then 0 else Pow2(m - lens[p])
  {
    var n := |lens| - 1;
    if p < n {
      assert lens[p := 0][..n] == lens[..n][p := 0];
      KraftLess(lens[..n], p, m);
    } else {
      assert lens[p := 0][..n] == lens[..n];
    }
  }

  lemma {:induction false} CountLess(lens: seq<nat>, p: nat, l: nat)
    requires p < |lens| && l >= 1
    ensures CountLen(lens, l) == CountLen(lens[p := 0], l) + if lens[p] == l then 1 else 0
  {
    var n := |lens| - 1;
    if p < n {
      assert lens[p := 0][..n] == lens[..n][p := 0];
      CountLess(lens[..n], p, l);
    } else {
      assert lens[p := 0][..n] == lens[..n];
    }
  }

  lemma {:induction false} NoLengths(lens: seq<nat>, m: nat, l: nat)
    requires l >= 1 && forall s :: 0 <= s < |lens| ==> lens[s] == 0
    ensures Kraft(lens, m) == 0 && CountLen(lens, l) == 0
  {
    if lens != [] {
      NoLengths(lens[..|lens| - 1], m, l);
    }
  }

  lemma AtLast(lens: seq<nat>, x: nat, m: nat, l: nat)
    requires x <= m && forall s :: 0 <= s < |lens| ==> lens[s] <= m
    ensures Kraft(lens + [x], m) == Kraft(lens, m) + if x == 0 then 0 else Pow2(m - x)
    ensures CountLen(lens + [x], l) == CountLen(lens, l) + if x == l then 1 else 0
  {
    assert (lens + [x])[..|lens|] == lens;
  }

  /** The Kraft sum and the counts of the table are those of the list. */
  lemma {:induction false} ListedKraft(sizes: seq<nat>, order: seq<nat>, m: nat, l: nat)
    requires Lists(sizes, order) && l >= 1 && forall p :: 0 <= p < |sizes| ==> sizes[p] <= m
    ensures Kraft(sizes, m) == Kraft(At(sizes, order), m) && CountLen(sizes, l) == CountLen(At(sizes, order), l)
    decreases |order|
  {
    hide Kraft;
    hide CountLen;
    if order == [] {
      NoLengths(sizes, m, l);
      NoLengths(At(sizes, order), m, l);
    } else {
      hide Lists;
      var n := |order| - 1;
      ListsRange(sizes, order);
      var p, rest := order[n], order[..n];
      var last := sizes[p];
      AtLast(At(sizes, rest), last, m, l);
      ListsLess(sizes, order);
      ListedKraft(sizes[p := 0], rest, m, l);
      KraftLess(sizes, p, m);
      CountLess(sizes, p, l);
      AtLess(sizes, order, 0);
    }
  }

  // ---- lists in order ----

  ghost predicate Falling(lens: seq<nat>) {
    forall i, j :: 0 <= i <= j < |lens| ==> lens[i] >= lens[j]
  }

  lemma {:induction false} CountHas(lens: seq<nat>, i: nat)
    requires i < |lens|
    ensures CountLen(lens, lens[i]) >= 1
  {
    if i < |lens| - 1 {
      CountHas(lens[..|lens| - 1], i);
    }
  }

  lemma {:induction false} CountNone(lens: seq<nat>, l: nat)
    requires forall i :: 0 <= i < |lens| ==> lens[i] != l
    ensures CountLen(lens, l) == 0
  {
    if lens != [] {
      CountNone(lens[..|lens| - 1], l);
    }
  }

  ghost predicate SameCounts(a: seq<nat>, b: seq<nat>) {
    forall l :: l >= 1 ==> CountLen(a, l) == CountLen(b, l)
  }

  /** Falling lists with the same number of codes of every length are the same. */
  lemma {:induction false} SameLists(a: seq<nat>, b: seq<nat>)
    requires |a| == |b| && Falling(a) && Falling(b) && SameCounts(a, b)
    requires forall i :: 0 <= i < |a| ==> a[i] >= 1 && b[i] >= 1
    ensures a == b
  {
    if a != [] {
      var n := |a| - 1;
      LastAtMost(a, b);
      LastAtMost(b, a);
      assert a[n] == b[n];
      forall l | l >= 1
        ensures CountLen(a[..n], l) == CountLen(b[..n], l)
      {
        assert CountLen(a, l) == CountLen(b, l);
      }
      SameLists(a[..n], b[..n]);
      assert a == a[..n] + [a[n]] && b == b[..n] + [b[n]];
    }
  }

  lemma LastAtMost(a: seq<nat>, b: seq<nat>)
    requires 0 < |a| == |b| && Falling(a) && Falling(b) && SameCounts(a, b)
    requires forall i :: 0 <= i < |a| ==> a[i] >= 1 && b[i] >= 1
    ensures a[|a| - 1] >= b[|b| - 1]
  {
    var n := |a| - 1;
    CountHas(a, n);
    assert CountLen(a, a[n]) == CountLen(b, a[n]);
    if a[n] < b[n] {
      CountNone(b, a[n]);
    }
  }

  // ---- the table ----

  /** Lengths that are least for the list are least for the table. */
  lemma {:induction false} LeastForTable(counts: seq<nat>, sizes: seq<nat>, order: seq<nat>)
    requires Lists(counts, order) && |sizes| == |counts|
    requires forall other: seq<nat>, d: nat :: CodeLengths(other, |order|, d) ==>
               CostFrom(At(counts, order), 0, At(sizes, order)) <= CostFrom(At(counts, order), 0, other)
    ensures LeastCost(counts, sizes)
  {
    ListedCost(counts, sizes, order);
    forall other: seq<nat>, d: nat | TableCode(counts, other, d)
      ensures TotalCost(counts, sizes) <= TotalCost(counts, other)
    {
      ListedCost(counts, other, order);
      assert Lists(other, order);
      ListedKraft(other, order, d, 1);
      assert CodeLengths(At(other, order), |order|, d);
    }
  }
}
