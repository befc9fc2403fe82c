/**
 The encoder's Huffman tables: from symbol frequencies to limited code lengths,
 and from lengths to reversed canonical codes.
 */
module EncoderTables {
  import opened Bits
  import opened CanonicalCodes
  import opened RadixSort
  import opened LimitedLengths
  import opened TableCost
  import MergeCost
  import MergeTree
  import MinimumRedundancy
  import InflateTables

  const MAX_SYMBOLS := InflateTables.MAX_SYMBOLS

  // ---- collecting and sorting the symbols in use ----

  ghost function UsedSyms(counts: seq<nat>, i: nat): seq<Sym>
    requires i <= |counts|
  {
    if i == 0 then []
    else UsedSyms(counts, i - 1) + (if counts[i - 1] > 0 then [Sym(counts[i - 1], i - 1)] else [])
  }

  ghost function SumTo(counts: seq<nat>, i: nat): nat
    requires i <= |counts|
  {
    if i == 0 then 0 else SumTo(counts, i - 1) + counts[i - 1]
  }

  ghost function SumKeys(s: seq<Sym>): nat {
    if s == [] then 0 else SumKeys(s[..|s| - 1]) + s[|s| - 1].key
  }

  lemma {:induction false} UsedSymsSum(counts: seq<nat>, i: nat)
    requires i <= |counts|
    ensures |UsedSyms(counts, i)| <= i && SumKeys(UsedSyms(counts, i)) == SumTo(counts, i)
  {
    if i > 0 {
      UsedSymsSum(counts, i - 1);
      var before, x := UsedSyms(counts, i - 1), Sym(counts[i - 1], i - 1);
      var all := before + [x];
      assert all[..|all| - 1] == before && all[|all| - 1] == x;
      assert SumKeys(all) == SumKeys(before) + x.key && before + [] == before;
    }
  }

  lemma {:induction false} UsedSymsMembers(counts: seq<nat>, i: nat)
    requires i <= |counts|
    ensures forall x :: x in UsedSyms(counts, i) <==> x.index < i && x.key == counts[x.index] > 0
  {
    if i > 0 {
      UsedSymsMembers(counts, i - 1);
      forall x
        ensures x in UsedSyms(counts, i) <==> x.index < i && x.key == counts[x.index] > 0
      {
        assert x in UsedSyms(counts, i - 1) <==> x.index < i - 1 && x.key == counts[x.index] > 0;
      }
    }
  }

  /** They are listed in the order of their numbers. */
  lemma {:induction false} UsedSymsOrdered(counts: seq<nat>, i: nat)
    requires i <= |counts|
    ensures forall k :: 0 <= k < |UsedSyms(counts, i)| ==> UsedSyms(counts, i)[k].index < i
    ensures forall j, k :: 0 <= j < k < |UsedSyms(counts, i)| ==> UsedSyms(counts, i)[j].index < UsedSyms(counts, i)[k].index
  {
    if i > 0 {
      UsedSymsOrdered(counts, i - 1);
    }
  }

  /** A list without repetitions holds nothing twice. */
  lemma {:induction false} DistinctOnce(u: seq<Sym>, x: Sym)
    requires forall j, k :: 0 <= j < k < |u| ==> u[j] != u[k]
    ensures multiset(u)[x] <= 1
  {
    if u != [] {
      var init, y := u[..|u| - 1], u[|u| - 1];
      DistinctOnce(init, x);
      assert u == init + [y];
      OnceMore(init, y, x);
    }
  }

  lemma OnceMore(before: seq<Sym>, y: Sym, x: Sym)
    requires y !in before && multiset(before)[x] <= 1
    ensures multiset(before + [y])[x] <= 1
  {
    assert multiset(before + [y]) == multiset(before) + multiset{y};
  }

  lemma {:induction false} SumKeysConcat(a: seq<Sym>, b: seq<Sym>)
    ensures SumKeys(a + b) == SumKeys(a) + SumKeys(b)
  {
    if b == [] {
      assert a + b == a;
    } else {
      assert (a + b)[..|a + b| - 1] == a + b[..|b| - 1];
      SumKeysConcat(a, b[..|b| - 1]);
    }
  }

  lemma {:induction false} SumKeysPermuted(a: seq<Sym>, b: seq<Sym>)
    requires multiset(a) == multiset(b)
    ensures SumKeys(a) == SumKeys(b)
  {
    if a == [] {
      assert |b| == |multiset(b)| == |multiset(a)| == 0;
    } else {
      var init, x := a[..|a| - 1], a[|a| - 1];
      assert a == init + [x];
      assert x in multiset(b);
      var i :| 0 <= i < |b| && b[i] == x;
      SumKeysWithout(b, i);
      SumKeysPermuted(init, b[..i] + b[i + 1..]);
    }
  }

  lemma {:induction false} SumKeysWithout(b: seq<Sym>, i: nat)
    requires i < |b|
    ensures SumKeys(b) == SumKeys(b[..i] + b[i + 1..]) + b[i].key
    ensures multiset(b[..i] + b[i + 1..]) == multiset(b) - multiset{b[i]}
  {
    assert b == b[..i] + ([b[i]] + b[i + 1..]);
    SumKeysConcat(b[..i], [b[i]] + b[i + 1..]);
    SumKeysConcat([b[i]], b[i + 1..]);
    SumKeysConcat(b[..i], b[i + 1..]);
    assert [b[i]][..0] == [];
  }

  /** The sorted list: every symbol in use once, by frequency. */
  ghost predicate Ranked(counts: seq<nat>, s: seq<Sym>) {
    && |s| <= |counts| && SortedByKey(s)
    && (forall k :: 0 <= k < |s| ==> s[k].index < |counts| && s[k].key == counts[s[k].index] > 0)
    && (forall j, k :: 0 <= j < k < |s| ==> s[j].index != s[k].index)
    && (forall i :: 0 <= i < |counts| && counts[i] > 0 ==> Listed(s, i))
  }

  ghost predicate Listed(s: seq<Sym>, i: nat) {
    exists k :: 0 <= k < |s| && s[k].index == i
  }

  lemma RankedBySort(counts: seq<nat>, s: seq<Sym>)
    requires multiset(s) == multiset(UsedSyms(counts, |counts|)) && SortedByKey(s)
    ensures Ranked(counts, s) && SumKeys(s) == SumTo(counts, |counts|)
  {
    hide UsedSyms;
    hide SumKeys;
    hide SumTo;
    var u := UsedSyms(counts, |counts|);
    UsedSymsSum(counts, |counts|);
    UsedSymsMembers(counts, |counts|);
    SumKeysPermuted(s, u);
    assert |s| == |multiset(s)| == |multiset(u)| == |u|;
    forall k | 0 <= k < |s|
      ensures s[k].index < |counts| && s[k].key == counts[s[k].index] > 0
    {
      assert s[k] in multiset(u);
    }
    forall j, k | 0 <= j < k < |s|
      ensures s[j].index != s[k].index
    {
      if s[j].index == s[k].index {
        Twice(s, j, k);
        UsedSymsOrdered(counts, |counts|);
        DistinctOnce(u, s[j]);
      }
    }
    forall i | 0 <= i < |counts| && counts[i] > 0
      ensures Listed(s, i)
    {
      var x := Sym(counts[i], i);
      assert x in multiset(s);
      var k :| 0 <= k < |s| && s[k] == x;
    }
  }

  lemma Twice(s: seq<Sym>, j: nat, k: nat)
    requires j < k < |s| && s[j] == s[k]
    ensures multiset(s)[s[j]] >= 2
  {
    assert s == s[..k] + s[k..];
    assert s[j] == s[..k][j] && s[j] == s[k..][0];
    assert s[j] in multiset(s[..k]) && s[j] in multiset(s[k..]);
  }

  method CollectSyms(counts: array<nat>, tableLen: nat, syms: array<Sym>) returns (n: nat)
    requires tableLen <= counts.Length && tableLen <= syms.Length
    modifies syms
    ensures n <= tableLen && syms[..n] == UsedSyms(counts[..tableLen], tableLen)
  {
    n := 0;
    var i := 0;
    while i < tableLen
      invariant 0 <= n <= i <= tableLen && syms[..n] == UsedSyms(counts[..tableLen], i)
    {
      if counts[i] > 0 {
        syms[n] := Sym(counts[i], i);
        n := n + 1;
      }
      i := i + 1;
    }
  }

  // ---- lengths for the sorted list ----

  ghost function Keys(s: seq<Sym>): (r: seq<nat>)
    ensures |r| == |s| && forall k :: 0 <= k < |s| ==> r[k] == s[k].key
  {
    seq(|s|, k requires 0 <= k < |s| => s[k].key)
  }

  lemma {:induction false} SumKeysFrom(s: seq<Sym>, i: nat)
    requires i <= |s|
    ensures MergeTree.SumFrom(Keys(s), i) == SumKeys(s) - SumKeys(s[..i])
    decreases |s| - i
  {
    if i == |s| {
      assert s[..i] == s;
    } else {
      SumKeysFrom(s, i + 1);
      assert s[..i + 1][..i] == s[..i];
    }
  }

  /** Counters that hold the number of codes of every length. */
  ghost predicate Counted(num: seq<int>, lens: seq<nat>) {
    |num| == 33 && forall l :: 1 <= l <= 32 ==> num[l] == CountLen(lens, l)
  }

  lemma {:induction false} TotalIsCount(num: seq<int>, lens: seq<nat>, k: nat)
    requires Counted(num, lens) && k <= 32
    ensures Total(num, k) == SumCounts(lens, k)
  {
    if k > 0 {
      TotalIsCount(num, lens, k - 1);
    }
  }

  lemma {:induction false} WeightIsLo(num: seq<int>, lens: seq<nat>, k: nat, m: nat)
    requires k < |num| && k <= m && forall l :: 1 <= l <= k ==> num[l] == CountLen(lens, l)
    ensures Weight(num, k, m) == Lo(lens, k + 1, m)
  {
    if k > 0 {
      WeightIsLo(num, lens, k - 1, m);
    }
  }

  lemma {:induction false} AllCounted(lens: seq<nat>, k: nat)
    requires forall i :: 0 <= i < |lens| ==> 1 <= lens[i] <= k
    ensures SumCounts(lens, k) == |lens|
  {
    if lens == [] {
      SumCountsEmpty(k);
    } else {
      var init, x := lens[..|lens| - 1], lens[|lens| - 1];
      AllCounted(init, k);
      SumCountsSnoc(init, x, k);
      assert init + [x] == lens;
    }
  }

  /** Counts the codes of every length: num_codes[length]++. */
  method CountCodes(keys: array<int>, n: nat) returns (num: array<int>)
    requires n <= keys.Length && MinimumRedundancy.LengthsOk(keys[..n])
    ensures fresh(num) && num.Length == 33 && NonNegative(num[..]) && num[0] == 0
    ensures Counted(num[..], MinimumRedundancy.AsNat(keys[..n]))
  {
    ghost var lens := MinimumRedundancy.AsNat(keys[..n]);
    num := new int[33](_ => 0);
    var i := 0;
    while i < n
      invariant 0 <= i <= n && NonNegative(num[..]) && num[0] == 0
      invariant forall l :: 1 <= l <= 32 ==> num[l] == CountLen(lens[..i], l)
    {
      assert keys[i] == keys[..n][i] == lens[i];
      InflateTables.CountStep(lens, i);
      num[keys[i]] := num[keys[i]] + 1;
      i := i + 1;
    }
    assert lens[..n] == lens;
  }

  /** The counters the length limiter starts from. */
  lemma CountedForLimit(num: seq<int>, lens: seq<nat>)
    requires Counted(num, lens) && NonNegative(num)
    requires forall i :: 0 <= i < |lens| ==> 1 <= lens[i] <= 32
    ensures Total(num, 32) == |lens| && Weight(num, 32, 32) == Kraft(lens, 32)
  {
    TotalIsCount(num, lens, 32);
    AllCounted(lens, 32);
    WeightIsLo(num, lens, 32, 32);
    KraftIsLo(lens, 32);
  }

  /** A single code of length 1 needs no limiting. */
  lemma SingleCode(num: seq<int>, lens: seq<nat>, limit: nat)
    requires Counted(num, lens) && |lens| == 1 && lens[0] == 1 && 1 <= limit <= 32
    ensures Total(num, limit) == 1 && num[1] == 1
  {
    TotalIsCount(num, lens, limit);
    AllCounted(lens, limit);
  }

  lemma NoCode(num: seq<int>, lens: seq<nat>, limit: nat)
    requires Counted(num, lens) && lens == [] && limit <= 32
    ensures Total(num, limit) == 0
  {
    TotalIsCount(num, lens, limit);
    SumCountsEmpty(limit);
  }

  /**
   num_codes after the minimum-redundancy pass and the limiter: n codes, none
   longer than the limit, with Kraft sum 1 when there are at least two.
   */
  ghost predicate GoodCounts(num: seq<int>, n: nat, limit: nat) {
    && |num| == 33 && 1 <= limit <= 15 && NonNegative(num) && Total(num, limit) == n
    && (n >= 2 ==> Weight(num, limit, limit) == Pow2(limit))
    && (n == 1 ==> num[1] == 1)
  }

  lemma KeysSorted(s: seq<Sym>)
    requires SortedByKey(s) && forall k :: 0 <= k < |s| ==> s[k].key >= 1
    ensures MergeTree.SortedNonZero(Keys(s))
  {
  }

  /** No lengths a prefix code can have cost less. */
  ghost predicate Least(freqs: seq<nat>, lens: seq<nat>) {
    && |lens| == |freqs|
    && forall other: seq<nat>, d: nat :: MergeCost.CodeLengths(other, |freqs|, d) ==>
         MergeCost.CostFrom(freqs, 0, lens) <= MergeCost.CostFrom(freqs, 0, other)
  }

  /** The least lengths of a sorted list; where none is over the limit, the counters are
      theirs, and so it is if the total is below a Fibonacci number. */
  ghost predicate FromLeast(s: seq<Sym>, limit: nat, num: seq<int>, lens: seq<nat>) {
    && Least(Keys(s), lens) && Falling(lens) && (forall k :: 0 <= k < |lens| ==> lens[k] >= 1)
    && limit < |num| == 33
    && (SumKeys(s) < MergeTree.Fib(limit + 3) ==>
          (forall k :: 0 <= k < |lens| ==> lens[k] <= limit) && forall l :: 1 <= l <= limit ==> num[l] == CountLen(lens, l))
  }

  /** The minimum-redundancy lengths of the sorted symbols, not limited yet. */
  method FullLengths(s: array<Sym>, n: nat) returns (keys: array<int>)
    requires n <= s.Length && SortedByKey(s[..n]) && SumKeys(s[..n]) < 65536
    requires forall k :: 0 <= k < n ==> s[k].key >= 1
    ensures fresh(keys) && keys.Length == n && MinimumRedundancy.LengthsOk(keys[..n])
    ensures n == 1 ==> keys[0] == 1
    ensures n >= 2 ==> Kraft(MinimumRedundancy.AsNat(keys[..n]), 32) == Pow2(32)
    ensures n >= 2 ==> keys[0] >= 1 && SumKeys(s[..n]) >= MergeTree.Fib(keys[0] + 2)
    ensures Least(Keys(s[..n]), MinimumRedundancy.AsNat(keys[..n]))
  {
    hide Kraft;
    hide SortedByKey;
    hide MergeTree.Fib;
    hide MinimumRedundancy.LengthsOk;
    hide MinimumRedundancy.AsNat;
    hide MergeCost.CostFrom;
    hide MergeCost.CodeLengths;
    hide Least;
    hide Pow2;
    ghost var list := s[..n];
    keys := new int[n];
    var i := 0;
    while i < n
      invariant 0 <= i <= n && forall k :: 0 <= k < i ==> keys[k] == s[k].key
    {
      keys[i] := s[i].key;
      i := i + 1;
    }
    SumKeysFrom(list, 0);
    assert list[..0] == [];
    assert keys[..n] == Keys(list);
    KeysSorted(list);
    MinimumRedundancy.CalculateMinimumRedundancy(keys, n, Keys(list));
    LengthsFall(keys[..n]);
    assert MinimumRedundancy.AsNat(keys[..n]) == keys[..n];
    LeastLengths(Keys(list), MinimumRedundancy.AsNat(keys[..n]));
  }

  lemma LeastLengths(freqs: seq<nat>, lens: seq<nat>)
    requires |lens| == |freqs|
    requires forall other: seq<nat>, d: nat :: MergeCost.CodeLengths(other, |freqs|, d) ==>
               MergeCost.CostFrom(freqs, 0, lens) <= MergeCost.CostFrom(freqs, 0, other)
    ensures Least(freqs, lens)
  {
  }

  /** The counts of those lengths, limited. */
  method LimitedCounts(s: array<Sym>, n: nat, limit: nat) returns (num: array<int>, ghost lens: seq<nat>)
    requires n <= s.Length && SortedByKey(s[..n]) && SumKeys(s[..n]) < 65536
    requires forall k :: 0 <= k < n ==> s[k].key >= 1
    requires 1 <= limit <= 15 && n <= Pow2(limit)
    ensures fresh(num) && num.Length == 33 && GoodCounts(num[..], n, limit)
    ensures FromLeast(s[..n], limit, num[..], lens)
  {
    hide CountLen;
    hide Kraft;
    hide Weight;
    hide Total;
    hide SortedByKey;
    hide Least;
    hide SumKeys;
    hide MergeTree.Fib;
    hide FromLeast;
    hide Falling;
    hide MinimumRedundancy.LengthsOk;
    hide MinimumRedundancy.AsNat;
    hide Counted;
    hide GoodCounts;
    hide Pow2;
    var keys := FullLengths(s, n);
    num := CountCodes(keys, n);
    lens := MinimumRedundancy.AsNat(keys[..n]);
    LengthsFall(keys[..n]);
    ReadyForLimit(num[..], lens, limit);
    ghost var below := SumKeys(s[..n]) < MergeTree.Fib(limit + 3);
    if below {
      WithinLimit(lens, limit, SumKeys(s[..n]));
      AllWithin(num[..], lens, limit);
    }
    ghost var all := num[..];
    EnforceMaxCodeSize(num, n, limit);
    LimitedGood(all, num[..], n, limit);
    LeastKept(s[..n], limit, all, num[..], lens);
  }

  /** What the limiter asks for, and what it leaves alone. */
  lemma ReadyForLimit(num: seq<int>, lens: seq<nat>, limit: nat)
    requires Counted(num, lens) && NonNegative(num) && 1 <= limit <= 15
    requires forall i :: 0 <= i < |lens| ==> 1 <= lens[i] <= 32
    requires |lens| == 1 ==> lens[0] == 1
    requires |lens| >= 2 ==> Kraft(lens, 32) == Pow2(32)
    ensures |num| == 33 && (|lens| <= 1 ==> GoodCounts(num, |lens|, limit))
    ensures |lens| >= 2 ==> Total(num, 32) == |lens| && Weight(num, 32, 32) == Pow2(32)
  {
    hide Kraft;
    hide Weight;
    hide Total;
    CountedForLimit(num, lens);
    if |lens| == 1 {
      SingleCode(num, lens, limit);
    } else if |lens| == 0 {
      NoCode(num, lens, limit);
    }
  }

  lemma LimitedGood(num: seq<int>, limited: seq<int>, n: nat, limit: nat)
    requires 1 <= limit <= 15 && |num| == |limited| == 33
    requires n <= 1 ==> limited == num && GoodCounts(num, n, limit)
    requires n > 1 ==> NonNegative(limited) && Total(limited, limit) == n && Weight(limited, limit, limit) == Pow2(limit)
    ensures GoodCounts(limited, n, limit)
  {
  }

  lemma LengthsFall(lens: seq<int>)
    requires MinimumRedundancy.LengthsOk(lens)
    ensures Falling(MinimumRedundancy.AsNat(lens))
    ensures forall k :: 0 <= k < |lens| ==> 1 <= MinimumRedundancy.AsNat(lens)[k] == lens[k] <= 32
  {
  }

  lemma LeastKept(s: seq<Sym>, limit: nat, num: seq<int>, limited: seq<int>, lens: seq<nat>)
    requires Least(Keys(s), lens) && Falling(lens) && forall k :: 0 <= k < |lens| ==> lens[k] >= 1
    requires Counted(num, lens) && |limited| == 33 && limit <= 32
    requires SumKeys(s) < MergeTree.Fib(limit + 3) ==>
               limited == num && forall k :: 0 <= k < |lens| ==> lens[k] <= limit
    ensures FromLeast(s, limit, limited, lens)
  {
  }

  /** A small total keeps the longest code within the limit. */
  lemma WithinLimit(lens: seq<nat>, limit: nat, sum: nat)
    requires Falling(lens) && 1 <= limit && sum < MergeTree.Fib(limit + 3)
    requires |lens| >= 2 ==> sum >= MergeTree.Fib(lens[0] + 2)
    requires |lens| == 1 ==> lens[0] == 1
    ensures forall k :: 0 <= k < |lens| ==> lens[k] <= limit
  {
    if |lens| >= 2 && lens[0] > limit {
      MergeTree.FibMonotone(limit + 3, lens[0] + 2);
    }
  }

  lemma AllWithin(num: seq<int>, lens: seq<nat>, limit: nat)
    requires Counted(num, lens) && 1 <= limit <= 32 && forall k :: 0 <= k < |lens| ==> 1 <= lens[k] <= limit
    ensures Total(num, limit) == |lens|
  {
    TotalIsCount(num, lens, limit);
    AllCounted(lens, limit);
  }

  // ---- handing the lengths out ----

  lemma {:induction false} CountUpdate(lens: seq<nat>, p: nat, x: nat, l: nat)
    requires p < |lens| && lens[p] == 0 && l >= 1
    ensures CountLen(lens[p := x], l) == CountLen(lens, l) + (if x == l then 1 else 0)
  {
    var init := lens[..|lens| - 1];
    if p == |lens| - 1 {
      assert lens[p := x][..|lens| - 1] == init;
    } else {
      assert lens[p := x][..|lens| - 1] == init[p := x];
      CountUpdate(init, p, x, l);
    }
  }

  lemma {:induction false} CountZeros(n: nat, l: nat)
    requires l >= 1
    ensures CountLen(seq(n, _ => 0), l) == 0
  {
    if n > 0 {
      assert (seq(n, _ => 0 as nat))[..n - 1] == seq(n - 1, _ => 0);
      CountZeros(n - 1, l);
    }
  }

  lemma {:induction false} TotalMonotone(num: seq<int>, a: nat, b: nat)
    requires NonNegative(num) && a <= b < |num|
    ensures Total(num, a) <= Total(num, b)
  {
    if a < b {
      TotalMonotone(num, a, b - 1);
    }
  }

  /** The symbols from rank j up have their lengths: i so far, `left` still to come. */
  ghost predicate HandedOut(counts: seq<nat>, s: seq<Sym>, num: seq<int>, limit: nat,
                            sizes: seq<nat>, i: nat, left: int, j: nat) {
    && Ranked(counts, s) && |sizes| == |counts| && GoodCounts(num, |s|, limit)
    && 1 <= i <= limit + 1 && 0 <= left && j <= |s|
    && (i <= limit ==> left <= num[i]) && (i == limit + 1 ==> left == 0)
    && |s| - j == Total(num, i - 1) + (if i <= limit then num[i] - left else 0)
    && (forall l :: 1 <= l < i ==> CountLen(sizes, l) == num[l])
    && (i <= limit ==> CountLen(sizes, i) == num[i] - left)
    && (forall l :: i < l ==> CountLen(sizes, l) == 0)
    && (forall p :: 0 <= p < |sizes| ==> sizes[p] <= limit && sizes[p] <= i)
    && (forall k :: j <= k < |s| ==> sizes[s[k].index] > 0)
    && (forall p :: 0 <= p < |sizes| && sizes[p] > 0 ==> RankedFrom(s, j, p))
    && (forall k, m :: j <= k <= m < |s| ==> sizes[s[k].index] >= sizes[s[m].index])
  }

  ghost predicate RankedFrom(s: seq<Sym>, j: nat, p: nat) {
    exists k :: j <= k < |s| && s[k].index == p
  }

  /** One more symbol of length i. */
  lemma HandOne(counts: seq<nat>, s: seq<Sym>, num: seq<int>, limit: nat,
                sizes: seq<nat>, i: nat, left: int, j: nat)
    requires HandedOut(counts, s, num, limit, sizes, i, left, j) && left > 0
    ensures j > 0 && HandedOut(counts, s, num, limit, sizes[s[j - 1].index := i], i, left - 1, j - 1)
  {
    TotalMonotone(num, i, limit);
    HandCounts(counts, s, num, limit, sizes, i, left, j);
    HandOrder(counts, s, num, limit, sizes, i, left, j);
    var sizes' := sizes[s[j - 1].index := i];
    forall l: nat | i < l
      ensures CountLen(sizes', l) == 0
    {
      assert CountLen(sizes, l) == 0;
    }
    assert forall l :: 1 <= l < i ==> CountLen(sizes', l) == num[l];
    assert i <= limit;
    assert CountLen(sizes', i) == num[i] - (left - 1);
    assert forall p :: 0 <= p < |sizes'| ==> sizes'[p] <= limit && sizes'[p] <= i;
  }

  lemma HandBounds(counts: seq<nat>, s: seq<Sym>, num: seq<int>, limit: nat, sizes: seq<nat>, i: nat, left: int, j: nat)
    requires HandedOut(counts, s, num, limit, sizes, i, left, j)
    ensures 0 <= left && j <= |s|
  {
  }

  lemma HandIndex(counts: seq<nat>, s: seq<Sym>, num: seq<int>, limit: nat,
                  sizes: seq<nat>, i: nat, left: int, j: nat)
    requires HandedOut(counts, s, num, limit, sizes, i, left, j)
    requires left > 0
    ensures 0 < j <= |s| && s[j - 1].index < |counts| == |sizes|
    ensures HandedOut(counts, s, num, limit, sizes[s[j - 1].index := i], i, left - 1, j - 1)
  {
    HandOne(counts, s, num, limit, sizes, i, left, j);
  }

  lemma FreshSymbol(counts: seq<nat>, s: seq<Sym>, sizes: seq<nat>, j: nat)
    requires Ranked(counts, s) && |sizes| == |counts| && 0 < j <= |s|
    requires forall p :: 0 <= p < |sizes| && sizes[p] > 0 ==> RankedFrom(s, j, p)
    ensures sizes[s[j - 1].index] == 0
  {
    var p := s[j - 1].index;
    assert forall k :: j <= k < |s| ==> s[k].index != p;
    assert !RankedFrom(s, j, p);
  }

  lemma HandCounts(counts: seq<nat>, s: seq<Sym>, num: seq<int>, limit: nat,
                   sizes: seq<nat>, i: nat, left: int, j: nat)
    requires HandedOut(counts, s, num, limit, sizes, i, left, j) && left > 0 && j > 0
    ensures forall l :: l >= 1 ==>
              CountLen(sizes[s[j - 1].index := i], l) == CountLen(sizes, l) + (if l == i then 1 else 0)
  {
    FreshSymbol(counts, s, sizes, j);
    forall l | l >= 1
      ensures CountLen(sizes[s[j - 1].index := i], l) == CountLen(sizes, l) + (if l == i then 1 else 0)
    {
      CountUpdate(sizes, s[j - 1].index, i, l);
    }
  }

  lemma HandOrder(counts: seq<nat>, s: seq<Sym>, num: seq<int>, limit: nat,
                  sizes: seq<nat>, i: nat, left: int, j: nat)
    requires HandedOut(counts, s, num, limit, sizes, i, left, j) && left > 0 && j > 0
    ensures var sizes' := sizes[s[j - 1].index := i];
            && (forall k :: j - 1 <= k < |s| ==> sizes'[s[k].index] > 0)
            && (forall p :: 0 <= p < |sizes'| && sizes'[p] > 0 ==> RankedFrom(s, j - 1, p))
            && (forall k, m :: j - 1 <= k <= m < |s| ==> sizes'[s[k].index] >= sizes'[s[m].index])
  {
    var sizes', j' := sizes[s[j - 1].index := i], j - 1;
    forall p | 0 <= p < |sizes'| && sizes'[p] > 0
      ensures RankedFrom(s, j', p)
    {
      if p != s[j - 1].index {
        assert RankedFrom(s, j, p);
        var k :| j <= k < |s| && s[k].index == p;
        assert s[k].index == p;
      } else {
        assert s[j'].index == p;
      }
    }
  }

  lemma HandNext(counts: seq<nat>, s: seq<Sym>, num: seq<int>, limit: nat, sizes: seq<nat>, i: nat, j: nat)
    requires HandedOut(counts, s, num, limit, sizes, i, 0, j) && i <= limit
    ensures HandedOut(counts, s, num, limit, sizes, i + 1, if i < limit then num[i + 1] else 0, j)
  {
  }

  // ---- the finished table ----

  /** What the table promises for its frequencies. */
  ghost predicate SizesOk(counts: seq<nat>, limit: nat, sizes: seq<nat>) {
    && |sizes| == |counts|
    && (forall p :: 0 <= p < |sizes| ==> sizes[p] <= limit && (sizes[p] > 0 <==> counts[p] > 0))
    && InflateTables.Acceptable(sizes)
    && (forall p, q :: 0 <= p < |counts| && 0 <= q < |counts| && counts[p] > counts[q] >= 1
          ==> sizes[p] <= sizes[q])
  }

  /** More frequent symbols come later in the list and get shorter codes. */
  ghost predicate Descending(s: seq<Sym>, sizes: seq<nat>) {
    && (forall k :: 0 <= k < |s| ==> s[k].index < |sizes| && sizes[s[k].index] > 0)
    && forall k, m :: 0 <= k <= m < |s| ==> sizes[s[k].index] >= sizes[s[m].index]
  }

  lemma HandedAll(counts: seq<nat>, s: seq<Sym>, num: seq<int>, limit: nat, sizes: seq<nat>, j: nat)
    requires HandedOut(counts, s, num, limit, sizes, limit + 1, 0, j) && |counts| <= MAX_SYMBOLS
    ensures j == 0 && SizesOk(counts, limit, sizes)
    ensures |s| >= 2 ==> Complete(sizes)
    ensures forall l :: 1 <= l <= limit ==> num[l] == CountLen(sizes, l)
    ensures Descending(s, sizes)
  {
    assert ValidLens(sizes);
    forall p | 0 <= p < |sizes|
      ensures sizes[p] > 0 <==> counts[p] > 0
    {
      if sizes[p] > 0 {
        assert RankedFrom(s, 0, p);
      }
      if counts[p] > 0 {
        assert Listed(s, p);
      }
    }
    SizesAccepted(counts, s, num, limit, sizes);
    MoreFrequentNotLonger(counts, s, sizes);
  }

  lemma SizesAccepted(counts: seq<nat>, s: seq<Sym>, num: seq<int>, limit: nat, sizes: seq<nat>)
    requires HandedOut(counts, s, num, limit, sizes, limit + 1, 0, 0) && |counts| <= MAX_SYMBOLS
    requires ValidLens(sizes)
    ensures InflateTables.Acceptable(sizes) && (|s| >= 2 ==> Complete(sizes))
  {
    if |s| >= 2 {
      CompleteByWeight(num, limit, sizes);
    } else {
      forall p: nat, q: nat | Used(sizes, p) && Used(sizes, q)
        ensures p == q
      {
        assert RankedFrom(s, 0, p) && RankedFrom(s, 0, q);
      }
      assert InflateTables.AtMostOne(sizes);
    }
  }

  lemma CompleteByWeight(num: seq<int>, limit: nat, sizes: seq<nat>)
    requires limit <= 15 && |num| == 33 && Weight(num, limit, limit) == Pow2(limit)
    requires forall p :: 0 <= p < |sizes| ==> sizes[p] <= limit
    requires forall l :: 1 <= l <= limit ==> num[l] == CountLen(sizes, l)
    ensures Complete(sizes)
  {
    KraftByWeight(num, limit, sizes);
    WholeRescaled(sizes, limit, MAX_BITS - limit);
  }

  lemma KraftByWeight(num: seq<int>, limit: nat, sizes: seq<nat>)
    requires limit < |num| == 33 && Weight(num, limit, limit) == Pow2(limit)
    requires forall p :: 0 <= p < |sizes| ==> sizes[p] <= limit
    requires forall l :: 1 <= l <= limit ==> num[l] == CountLen(sizes, l)
    ensures Kraft(sizes, limit) == Pow2(limit)
  {
    WeightIsLo(num, sizes, limit, limit);
    KraftIsLo(sizes, limit);
  }

  lemma WholeRescaled(sizes: seq<nat>, m: nat, e: nat)
    requires forall p :: 0 <= p < |sizes| ==> sizes[p] <= m
    requires Kraft(sizes, m) == Pow2(m)
    ensures Kraft(sizes, m + e) == Pow2(m + e)
  {
    hide Kraft;
    hide Pow2;
    KraftRescale(sizes, m, e);
    Pow2Add(m, e);
  }

  lemma MoreFrequentNotLonger(counts: seq<nat>, s: seq<Sym>, sizes: seq<nat>)
    requires Ranked(counts, s) && |sizes| == |counts|
    requires forall k, m :: 0 <= k <= m < |s| ==> sizes[s[k].index] >= sizes[s[m].index]
    ensures forall p, q :: 0 <= p < |counts| && 0 <= q < |counts| && counts[p] > counts[q] >= 1
              ==> sizes[p] <= sizes[q]
  {
    forall p, q | 0 <= p < |counts| && 0 <= q < |counts| && counts[p] > counts[q] >= 1
      ensures sizes[p] <= sizes[q]
    {
      assert Listed(s, p) && Listed(s, q);
      var a :| 0 <= a < |s| && s[a].index == p;
      var b :| 0 <= b < |s| && s[b].index == q;
    }
  }

  // ---- the least table ----

  ghost function Order(s: seq<Sym>): (r: seq<nat>)
    ensures |r| == |s| && forall k :: 0 <= k < |r| ==> r[k] == s[k].index
  {
    seq(|s|, k requires 0 <= k < |s| => s[k].index)
  }

  lemma RankedLists(counts: seq<nat>, s: seq<Sym>)
    requires Ranked(counts, s)
    ensures Lists(counts, Order(s)) && At(counts, Order(s)) == Keys(s)
  {
    forall p | 0 <= p < |counts| && counts[p] > 0
      ensures p in Order(s)
    {
      assert Listed(s, p);
      var k :| 0 <= k < |s| && s[k].index == p;
      assert Order(s)[k] == p;
    }
  }

  /** Unlimited lengths are handed out as they are. */
  lemma {:induction false} HandedLens(counts: seq<nat>, s: seq<Sym>, limit: nat, lens: seq<nat>, sizes: seq<nat>)
    requires Ranked(counts, s) && Descending(s, sizes) && SizesOk(counts, limit, sizes)
    requires Falling(lens) && |lens| == |s| && forall k :: 0 <= k < |lens| ==> 1 <= lens[k] <= limit
    requires forall l :: 1 <= l <= limit ==> CountLen(sizes, l) == CountLen(lens, l)
    ensures Lists(counts, Order(s)) && At(sizes, Order(s)) == lens
  {
    hide CountLen;
    RankedLists(counts, s);
    var order := Order(s);
    assert Lists(sizes, order);
    forall l | l >= 1
      ensures CountLen(At(sizes, order), l) == CountLen(lens, l)
    {
      ListedKraft(sizes, order, limit, l);
      if l > limit {
        CountNone(sizes, l);
        CountNone(lens, l);
      }
    }
    SameLists(At(sizes, order), lens);
  }

  lemma LeastTable(counts: seq<nat>, s: seq<Sym>, limit: nat, num: seq<int>, lens: seq<nat>, sizes: seq<nat>)
    requires limit < |num| && Ranked(counts, s) && Descending(s, sizes) && SizesOk(counts, limit, sizes)
    requires FromLeast(s, limit, num, lens) && SumKeys(s) < MergeTree.Fib(limit + 3)
    requires forall l :: 1 <= l <= limit ==> num[l] == CountLen(sizes, l)
    ensures LeastCost(counts, sizes)
  {
    hide CountLen;
    hide LeastCost;
    RankedLists(counts, s);
    HandedLens(counts, s, limit, lens, sizes);
    LeastForTable(counts, sizes, Order(s));
  }

  class HuffCoder {
    const counts: array<nat>
    const codeSizes: array<nat>
    const codes: array<nat>

    ghost predicate Valid() {
      counts.Length == MAX_SYMBOLS && codeSizes.Length == MAX_SYMBOLS && codes.Length == MAX_SYMBOLS
      && counts != codeSizes && counts != codes && codeSizes != codes
    }

    constructor ()
      ensures Valid() && fresh(counts) && fresh(codeSizes) && fresh(codes)
    {
      counts := new nat[MAX_SYMBOLS](_ => 0);
      codeSizes := new nat[MAX_SYMBOLS](_ => 0);
      codes := new nat[MAX_SYMBOLS](_ => 0);
    }

    /** The codes are the canonical ones, low bit first. */
    ghost predicate CodesOk(tableLen: nat)
      reads codeSizes, codes
    {
      && Valid() && tableLen <= MAX_SYMBOLS
      && forall p :: 0 <= p < tableLen && codeSizes[p] > 0 ==>
                       codes[p] == LsbVal(CodeWord(codeSizes[..tableLen], p))
    }

    /**
     Lengths and codes for the given frequencies: only used symbols get codes,
     none longer than the limit, more frequent symbols never longer ones, and the
     code is complete as soon as two symbols are used.
     */
    method OptimizeTable(tableLen: nat, limit: nat)
      requires Valid() && tableLen <= MAX_SYMBOLS && 1 <= limit <= 15 && tableLen <= Pow2(limit)
      requires SumTo(counts[..tableLen], tableLen) < 65536
      modifies codeSizes, codes
      ensures SizesOk(counts[..tableLen], limit, codeSizes[..tableLen])
      ensures |UsedSyms(counts[..tableLen], tableLen)| >= 2 ==> Complete(codeSizes[..tableLen])
      ensures SumTo(counts[..tableLen], tableLen) < MergeTree.Fib(limit + 3) ==>
                LeastCost(counts[..tableLen], codeSizes[..tableLen])
      ensures CodesOk(tableLen)
    {
      hide SizesOk;
      hide Complete;
      hide GoodCounts;
      hide Ranked;
      hide FromLeast;
      hide LeastCost;
      hide Descending;
      hide MergeTree.Fib;
      hide CountLen;
      ghost var list := counts[..tableLen];
      var s, n := SortSyms(tableLen);
      UsedSize(list, s[..n]);
      var num;
      ghost var lens;
      num, lens := LimitedCounts(s, n, limit);
      ghost var nums := num[..];
      FillTable(tableLen, limit, s, n, num);
      if SumKeys(s[..n]) < MergeTree.Fib(limit + 3) {
        LeastTable(list, s[..n], limit, nums, lens, codeSizes[..tableLen]);
      }
    }

    method FillTable(tableLen: nat, limit: nat, s: array<Sym>, n: nat, num: array<int>)
      requires Valid() && tableLen <= MAX_SYMBOLS && n <= s.Length && num.Length == 33
      requires Ranked(counts[..tableLen], s[..n])
      requires GoodCounts(num[..], n, limit)
      modifies codeSizes, codes
      ensures SizesOk(counts[..tableLen], limit, codeSizes[..tableLen])
      ensures n >= 2 ==> Complete(codeSizes[..tableLen])
      ensures forall l :: 1 <= l <= limit ==> num[l] == CountLen(codeSizes[..tableLen], l)
      ensures Descending(s[..n], codeSizes[..tableLen])
      ensures CodesOk(tableLen)
    {
      HandOut(tableLen, limit, s, n, num);
      InflateTables.AcceptableNotOversubscribed(codeSizes[..tableLen]);
      AssignCodes(tableLen, limit, num);
    }

    method SortSyms(tableLen: nat) returns (s: array<Sym>, n: nat)
      requires Valid() && tableLen <= MAX_SYMBOLS
      requires SumTo(counts[..tableLen], tableLen) < 65536
      ensures fresh(s) && n <= s.Length && n <= tableLen
      ensures multiset(s[..n]) == multiset(UsedSyms(counts[..tableLen], tableLen))
      ensures Ranked(counts[..tableLen], s[..n]) && SumKeys(s[..n]) == SumTo(counts[..tableLen], tableLen)
    {
      var syms0 := new Sym[MAX_SYMBOLS](_ => Sym(0, 0));
      var syms1 := new Sym[MAX_SYMBOLS](_ => Sym(0, 0));
      ghost var list := counts[..tableLen];
      n := CollectSyms(counts, tableLen, syms0);
      UsedFit(list, tableLen);
      s := RadixSortSyms(syms0, syms1, n);
      RankedBySort(list, s[..n]);
    }

    /** The fixed tables: lengths are given, only the codes are assigned. */
    method StaticTable(tableLen: nat, limit: nat)
      requires Valid() && tableLen <= MAX_SYMBOLS && 1 <= limit <= 15
      requires forall p :: 0 <= p < tableLen ==> codeSizes[p] <= limit
      requires NotOversubscribed(codeSizes[..tableLen])
      modifies codes
      ensures CodesOk(tableLen)
    {
      ghost var sizes := codeSizes[..tableLen];
      var num := new int[33](_ => 0);
      var i := 0;
      while i < tableLen
        invariant 0 <= i <= tableLen && codeSizes[..tableLen] == sizes
        invariant forall l :: 0 <= l <= 32 ==> num[l] == CountLen(sizes[..i], l)
      {
        assert codeSizes[i] == sizes[i];
        InflateTables.CountStep(sizes, i);
        num[codeSizes[i]] := num[codeSizes[i]] + 1;
        i := i + 1;
      }
      assert sizes[..tableLen] == sizes;
      AssignCodes(tableLen, limit, num);
    }

    /** Lengths 1, 2, ... go to the symbols from the most frequent down. */
    method HandOut(tableLen: nat, limit: nat, s: array<Sym>, n: nat, num: array<int>)
      requires Valid() && tableLen <= MAX_SYMBOLS && n <= s.Length && num.Length == 33
      requires Ranked(counts[..tableLen], s[..n]) && GoodCounts(num[..], n, limit)
      modifies codeSizes
      ensures SizesOk(counts[..tableLen], limit, codeSizes[..tableLen])
      ensures n >= 2 ==> Complete(codeSizes[..tableLen])
      ensures forall l :: 1 <= l <= limit ==> num[l] == CountLen(codeSizes[..tableLen], l)
      ensures Descending(s[..n], codeSizes[..tableLen])
    {
      ghost var list, ranked, nums := counts[..tableLen], s[..n], num[..];
      Clear(codeSizes);
      StartHanding(list, ranked, nums, limit, codeSizes[..tableLen]);
      var i, j := 1, n;
      while i <= limit
        invariant 1 <= i <= limit + 1 && 0 <= j <= n
        invariant counts[..tableLen] == list && s[..n] == ranked && num[..] == nums
        invariant HandedOut(list, ranked, nums, limit, codeSizes[..tableLen], i,
                            if i <= limit then nums[i] else 0, j)
      {
        j := HandLevel(tableLen, limit, s, n, num, i, j);
        HandNext(list, ranked, nums, limit, codeSizes[..tableLen], i, j);
        i := i + 1;
      }
      HandedAll(list, ranked, nums, limit, codeSizes[..tableLen], j);
    }

    method HandLevel(tableLen: nat, limit: nat, s: array<Sym>, n: nat, num: array<int>, i: nat, j0: nat)
      returns (j: nat)
      requires Valid() && tableLen <= MAX_SYMBOLS && n <= s.Length && num.Length == 33 && 1 <= i <= limit <= 32
      requires HandedOut(counts[..tableLen], s[..n], num[..], limit, codeSizes[..tableLen], i, num[i], j0)
      modifies codeSizes
      ensures HandedOut(counts[..tableLen], s[..n], num[..], limit, codeSizes[..tableLen], i, 0, j)
      ensures j <= n
    {
      hide HandedOut;
      hide CountLen;
      hide Ranked;
      ghost var list, ranked, nums := counts[..tableLen], s[..n], num[..];
      var l := num[i];
      HandBounds(list, ranked, nums, limit, codeSizes[..tableLen], i, l, j0);
      j := j0;
      while l > 0
        invariant 0 <= l && 0 <= j <= n
        invariant counts[..tableLen] == list && s[..n] == ranked && num[..] == nums
        invariant HandedOut(list, ranked, nums, limit, codeSizes[..tableLen], i, l, j)
      {
        ghost var sizes := codeSizes[..tableLen];
        HandIndex(list, ranked, nums, limit, sizes, i, l, j);
        j := j - 1;
        WriteSize(tableLen, s, n, j, i);
        l := l - 1;
      }
    }

    /** codeSizes[s[j].index] := i. */
    method WriteSize(tableLen: nat, s: array<Sym>, n: nat, j: nat, i: nat)
      requires Valid() && tableLen <= MAX_SYMBOLS && j < n <= s.Length && s[j].index < tableLen
      modifies codeSizes
      ensures codeSizes[..tableLen] == old(codeSizes[..tableLen])[s[..n][j].index := i]
    {
      codeSizes[s[j].index] := i;
    }

    /** First codes per length, then one code per symbol, bits reversed. */
    method AssignCodes(tableLen: nat, limit: nat, num: array<int>)
      requires Valid() && tableLen <= MAX_SYMBOLS && 1 <= limit <= 15 && num.Length == 33
      requires forall p :: 0 <= p < tableLen ==> codeSizes[p] <= limit
      requires NotOversubscribed(codeSizes[..tableLen])
      requires forall l :: 1 <= l <= limit ==> num[l] == CountLen(codeSizes[..tableLen], l)
      modifies codes
      ensures CodesOk(tableLen)
    {
      ghost var sizes := codeSizes[..tableLen];
      var nextCode := FirstCodes(limit, num, sizes);
      assert sizes[..0] == [];
      var i := 0;
      while i < tableLen
        invariant 0 <= i <= tableLen && codeSizes[..tableLen] == sizes
        invariant forall l :: 1 <= l <= limit ==> nextCode[l] == InflateTables.NextCodeAt(sizes, i, l)
        invariant forall p :: 0 <= p < i && sizes[p] > 0 ==> codes[p] == LsbVal(CodeWord(sizes, p))
      {
        AssignCode(i, sizes, limit, nextCode);
        i := i + 1;
      }
    }

    method AssignCode(i: nat, ghost sizes: seq<nat>, limit: nat, nextCode: array<nat>)
      requires Valid() && i < |sizes| <= MAX_SYMBOLS && sizes == codeSizes[..|sizes|]
      requires limit <= 15 && nextCode.Length == 33 && ValidLens(sizes) && sizes[i] <= limit
      requires nextCode != codes
      requires forall l :: 1 <= l <= limit ==> nextCode[l] == InflateTables.NextCodeAt(sizes, i, l)
      modifies codes, nextCode
      ensures forall l :: 1 <= l <= limit ==> nextCode[l] == InflateTables.NextCodeAt(sizes, i + 1, l)
      ensures sizes[i] > 0 ==> codes[i] == LsbVal(CodeWord(sizes, i))
      ensures forall p :: 0 <= p < codes.Length && p != i ==> codes[p] == old(codes[p])
    {
      var size := codeSizes[i];
      assert size == sizes[i];
      InflateTables.NextCodeStep(sizes, i);
      if size == 0 {
        return;
      }
      var code := nextCode[size];
      nextCode[size] := nextCode[size] + 1;
      var rev := InflateTables.ReverseBits(code, size);
      RevFits(sizes, i, rev);
      codes[i] := rev % 65536;
    }

    method FirstCodes(limit: nat, num: array<int>, ghost sizes: seq<nat>) returns (nextCode: array<nat>)
      requires 1 <= limit <= 15 && num.Length == 33
      requires forall l :: 1 <= l <= limit ==> num[l] == CountLen(sizes, l)
      ensures fresh(nextCode) && nextCode.Length == 33
      ensures forall l :: 1 <= l <= limit ==> nextCode[l] == FirstCode(sizes, l)
    {
      hide FirstCode;
      hide CountLen;
      InflateTables.CountsStart(sizes);
      nextCode := new nat[33](_ => 0);
      var j, i := 0, 2;
      while i <= limit
        invariant 2 <= i <= limit + 1
        invariant j == FirstCode(sizes, i - 1)
        invariant forall l :: 1 <= l < i && l <= limit ==> nextCode[l] == FirstCode(sizes, l)
      {
        InflateTables.CountsStep(sizes, i - 1);
        j := (j + num[i - 1]) * 2;
        nextCode[i] := j;
        i := i + 1;
      }
    }
  }

  method Clear(a: array<nat>)
    modifies a
    ensures a[..] == seq(a.Length, _ => 0)
  {
    var i := 0;
    while i < a.Length
      invariant 0 <= i <= a.Length && forall k :: 0 <= k < i ==> a[k] == 0
    {
      a[i] := 0;
      i := i + 1;
    }
  }

  lemma RevFits(lens: seq<nat>, s: nat, rev: nat)
    requires ValidLens(lens) && Used(lens, s) && rev == LsbVal(CodeWord(lens, s))
    ensures rev < 65536
  {
    LsbBound(CodeWord(lens, s));
    Pow2Monotone(lens[s], 16);
    Pow2Values();
  }

  lemma {:induction false} CountsBelowSum(counts: seq<nat>, n: nat)
    requires n <= |counts|
    ensures forall i :: 0 <= i < n ==> counts[i] <= SumTo(counts, n)
  {
    if n > 0 {
      CountsBelowSum(counts, n - 1);
    }
  }

  lemma UsedFit(counts: seq<nat>, n: nat)
    requires n == |counts| && SumTo(counts, n) < 65536
    ensures Fits(UsedSyms(counts, n))
  {
    CountsBelowSum(counts, n);
    UsedSymsMembers(counts, n);
    var u := UsedSyms(counts, n);
    forall i | 0 <= i < |u|
      ensures u[i].key < 65536
    {
      assert u[i] in u;
    }
  }

  lemma StartHanding(counts: seq<nat>, s: seq<Sym>, num: seq<int>, limit: nat, sizes: seq<nat>)
    requires Ranked(counts, s) && GoodCounts(num, |s|, limit)
    requires sizes == seq(|counts|, _ => 0)
    ensures HandedOut(counts, s, num, limit, sizes, 1, num[1], |s|)
  {
    forall l | l >= 1
      ensures CountLen(sizes, l) == 0
    {
      CountZeros(|counts|, l);
    }
  }

  lemma UsedSize(counts: seq<nat>, s: seq<Sym>)
    requires multiset(s) == multiset(UsedSyms(counts, |counts|))
    ensures |s| == |UsedSyms(counts, |counts|)|
  {
    assert |multiset(s)| == |s|;
  }
}
