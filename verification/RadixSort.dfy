/**
 The encoder's stable radix sort of (frequency, symbol) pairs by 16-bit frequency:
 one or two counting passes between two arrays.
 */
module RadixSort {

  datatype Sym = Sym(key: nat, index: nat)

  function Digit(x: Sym, pass: nat): (d: nat)
    ensures d < 256
  {
    if pass == 0 then x.key % 256 else x.key / 256 % 256
  }

  /** The elements with digit d, in order. */
  ghost function Filter(s: seq<Sym>, pass: nat, d: nat): seq<Sym> {
    if s == [] then []
    else
      Filter(s[..|s| - 1], pass, d)
      + (if Digit(s[|s| - 1], pass) == d then [s[|s| - 1]] else [])
  }

  /** The elements with digits below k, grouped by digit. */
  ghost function Buckets(s: seq<Sym>, pass: nat, k: nat): seq<Sym> {
    if k == 0 then [] else Buckets(s, pass, k - 1) + Filter(s, pass, k - 1)
  }

  ghost function Start(s: seq<Sym>, pass: nat, d: nat): nat {
    |Buckets(s, pass, d)|
  }

  ghost predicate SortedByKey(s: seq<Sym>) {
    forall i, j :: 0 <= i <= j < |s| ==> s[i].key <= s[j].key
  }

  ghost predicate SortedByDigit(s: seq<Sym>, pass: nat) {
    forall i, j :: 0 <= i <= j < |s| ==> Digit(s[i], pass) <= Digit(s[j], pass)
  }

  ghost predicate Fits(s: seq<Sym>) {
    forall i :: 0 <= i < |s| ==> s[i].key < 65536
  }

  lemma {:induction false} FilterConcat(a: seq<Sym>, b: seq<Sym>, pass: nat, d: nat)
    ensures Filter(a + b, pass, d) == Filter(a, pass, d) + Filter(b, pass, d)
  {
    if b == [] {
      assert a + b == a;
    } else {
      assert (a + b)[..|a + b| - 1] == a + b[..|b| - 1];
      FilterConcat(a, b[..|b| - 1], pass, d);
    }
  }

  lemma {:induction false} FilterMembers(s: seq<Sym>, pass: nat, d: nat)
    ensures forall x :: x in Filter(s, pass, d) ==> x in s && Digit(x, pass) == d
  {
    if s != [] {
      FilterMembers(s[..|s| - 1], pass, d);
    }
  }

  lemma {:induction false} FilterLength(s: seq<Sym>, i: nat, pass: nat, d: nat)
    requires i <= |s|
    ensures |Filter(s[..i], pass, d)| <= |Filter(s, pass, d)|
    ensures i < |s| && Digit(s[i], pass) == d ==> |Filter(s[..i], pass, d)| < |Filter(s, pass, d)|
  {
    assert s == s[..i] + s[i..];
    FilterConcat(s[..i], s[i..], pass, d);
    if i < |s| {
      assert s[i..] == [s[i]] + s[i + 1..];
      FilterConcat([s[i]], s[i + 1..], pass, d);
    }
  }

  /** Appending an element adds it to exactly one bucket. */
  lemma {:induction false} BucketsSnoc(s: seq<Sym>, x: Sym, pass: nat, k: nat)
    ensures multiset(Buckets(s + [x], pass, k))
         == multiset(Buckets(s, pass, k)) + (if Digit(x, pass) < k then multiset{x} else multiset{})
  {
    if k > 0 {
      BucketsSnoc(s, x, pass, k - 1);
      assert (s + [x])[..|s|] == s;
      var f := Filter(s, pass, k - 1);
      assert multiset(f + [x]) == multiset(f) + multiset{x};
    }
  }

  lemma {:induction false} BucketsEmpty(pass: nat, k: nat)
    ensures Buckets([], pass, k) == []
  {
    if k > 0 {
      BucketsEmpty(pass, k - 1);
    }
  }

  /** A pass permutes. */
  lemma {:induction false} BucketsPermute(s: seq<Sym>, pass: nat)
    ensures multiset(Buckets(s, pass, 256)) == multiset(s)
  {
    if s == [] {
      BucketsEmpty(pass, 256);
    } else {
      var init, x := s[..|s| - 1], s[|s| - 1];
      assert s == init + [x];
      BucketsPermute(init, pass);
      BucketsSnoc(init, x, pass, 256);
    }
  }

  /** Equal contents have equal bucket sizes, so one histogram serves both passes. */
  lemma {:induction false} PermutedFilter(a: seq<Sym>, b: seq<Sym>, pass: nat, d: nat)
    requires multiset(a) == multiset(b)
    ensures |Filter(a, pass, d)| == |Filter(b, pass, d)|
  {
    if a == [] {
      assert |b| == |multiset(b)| == |multiset(a)| == 0;
    } else {
      var init, x := a[..|a| - 1], a[|a| - 1];
      assert a == init + [x];
      assert x in multiset(b);
      var i :| 0 <= i < |b| && b[i] == x;
      var b' := b[..i] + b[i + 1..];
      assert b == b[..i] + ([x] + b[i + 1..]);
      assert multiset(b') == multiset(b) - multiset{x};
      PermutedFilter(init, b', pass, d);
      FilterConcat(b[..i], [x] + b[i + 1..], pass, d);
      FilterConcat([x], b[i + 1..], pass, d);
      FilterConcat(b[..i], b[i + 1..], pass, d);
    }
  }

  lemma {:induction false} FilterKeepsOrder(s: seq<Sym>, pass: nat, d: nat)
    requires SortedByDigit(s, 0)
    ensures SortedByDigit(Filter(s, pass, d), 0)
  {
    if s != [] {
      var init, x := s[..|s| - 1], s[|s| - 1];
      FilterKeepsOrder(init, pass, d);
      FilterMembers(init, pass, d);
      var f := Filter(init, pass, d);
      forall i | 0 <= i < |f|
        ensures Digit(f[i], 0) <= Digit(x, 0)
      {
        assert f[i] in init;
      }
    }
  }

  lemma {:induction false} BucketsMembers(s: seq<Sym>, pass: nat, k: nat)
    ensures forall x :: x in Buckets(s, pass, k) ==> x in s && Digit(x, pass) < k
  {
    if k > 0 {
      BucketsMembers(s, pass, k - 1);
      FilterMembers(s, pass, k - 1);
    }
  }

  lemma {:induction false} BucketsSorted(s: seq<Sym>, pass: nat, k: nat)
    ensures SortedByDigit(Buckets(s, pass, k), pass)
  {
    hide Digit;
    hide Filter;
    if k > 0 {
      BucketsSorted(s, pass, k - 1);
      BucketsMembers(s, pass, k - 1);
      FilterMembers(s, pass, k - 1);
      DigitsOf(Buckets(s, pass, k - 1), Filter(s, pass, k - 1), pass, k - 1);
    }
  }

  lemma DigitsOf(a: seq<Sym>, f: seq<Sym>, pass: nat, d: nat)
    requires SortedByDigit(a, pass)
    requires forall x :: x in a ==> Digit(x, pass) < d
    requires forall x :: x in f ==> Digit(x, pass) == d
    ensures SortedByDigit(a + f, pass)
  {
    forall i, j | 0 <= i <= j < |a + f|
      ensures Digit((a + f)[i], pass) <= Digit((a + f)[j], pass)
    {
      if i < |a| <= j {
        assert a[i] in a && f[j - |a|] in f;
      } else if |a| <= i {
        assert f[i - |a|] in f && f[j - |a|] in f;
      }
    }
  }

  lemma KeyOrder(x: Sym, y: Sym)
    requires x.key < 65536 && y.key < 65536
    ensures Digit(x, 1) < Digit(y, 1) ==> x.key <= y.key
    ensures Digit(x, 1) == Digit(y, 1) && Digit(x, 0) <= Digit(y, 0) ==> x.key <= y.key
  {
  }

  /** The second pass orders what the first left ordered by low byte. */
  lemma {:induction false} TwoPassesSort(s: seq<Sym>, k: nat)
    requires SortedByDigit(s, 0) && Fits(s)
    ensures SortedByKey(Buckets(s, 1, k))
  {
    hide Digit;
    hide Filter;
    hide Fits;
    if k > 0 {
      TwoPassesSort(s, k - 1);
      BucketsMembers(s, 1, k - 1);
      FilterMembers(s, 1, k - 1);
      FilterKeepsOrder(s, 1, k - 1);
      MembersAt(s, Buckets(s, 1, k - 1));
      MembersAt(s, Filter(s, 1, k - 1));
      ConcatSorted(Buckets(s, 1, k - 1), Filter(s, 1, k - 1), k - 1);
    }
  }

  lemma MembersAt(s: seq<Sym>, t: seq<Sym>)
    requires Fits(s) && forall x :: x in t ==> x in s
    ensures Fits(t)
  {
    forall i | 0 <= i < |t|
      ensures t[i].key < 65536
    {
      assert t[i] in s;
    }
  }

  lemma ConcatSorted(a: seq<Sym>, f: seq<Sym>, d: nat)
    requires SortedByKey(a) && Fits(a) && Fits(f) && SortedByDigit(f, 0)
    requires forall i :: 0 <= i < |a| ==> Digit(a[i], 1) < d
    requires forall i :: 0 <= i < |f| ==> Digit(f[i], 1) == d
    ensures SortedByKey(a + f)
  {
    forall i: int, j: int | 0 <= i <= j < |a + f|
      ensures (a + f)[i].key <= (a + f)[j].key
    {
      if i < |a| <= j {
        KeyOrder(a[i], f[j - |a|]);
      } else if |a| <= i {
        KeyOrder(f[i - |a|], f[j - |a|]);
      }
    }
  }

  /** One pass is enough when every high byte is zero. */
  lemma OnePassSorts(s: seq<Sym>)
    requires Fits(s) && SortedByDigit(s, 0) && |Filter(s, 1, 0)| == |s|
    ensures SortedByKey(s)
  {
    AllInFilter(s);
    forall i, j | 0 <= i <= j < |s|
      ensures s[i].key <= s[j].key
    {
      KeyOrder(s[i], s[j]);
    }
  }

  lemma {:induction false} AllInFilter(s: seq<Sym>)
    ensures |Filter(s, 1, 0)| <= |s|
    ensures |Filter(s, 1, 0)| == |s| ==> forall i :: 0 <= i < |s| ==> Digit(s[i], 1) == 0
  {
    if s != [] {
      AllInFilter(s[..|s| - 1]);
    }
  }

  lemma {:induction false} StartMonotone(s: seq<Sym>, pass: nat, a: nat, b: nat)
    requires a <= b
    ensures Start(s, pass, a) <= Start(s, pass, b)
  {
    if a < b {
      StartMonotone(s, pass, a, b - 1);
    }
  }

  ghost predicate BucketAt(s: seq<Sym>, pass: nat, d: nat, out: seq<Sym>) {
    Start(s, pass, d + 1) <= |out|
    && out[Start(s, pass, d)..Start(s, pass, d + 1)] == Filter(s, pass, d)
  }

  /** Buckets placed side by side are the sorted sequence. */
  lemma {:induction false} SideBySide(s: seq<Sym>, pass: nat, k: nat, out: seq<Sym>)
    requires forall d: nat :: d < k ==> BucketAt(s, pass, d, out)
    ensures Start(s, pass, k) <= |out| && out[..Start(s, pass, k)] == Buckets(s, pass, k)
  {
    if k > 0 {
      SideBySide(s, pass, k - 1, out);
      assert BucketAt(s, pass, k - 1, out);
      var a, b := Start(s, pass, k - 1), Start(s, pass, k);
      assert out[..b] == out[..a] + out[a..b];
    }
  }

  /** The first i elements fit into bucket d. */
  ghost predicate Room(s: seq<Sym>, pass: nat, i: nat, d: nat)
    requires i <= |s|
  {
    Start(s, pass, d) + |Filter(s[..i], pass, d)| <= Start(s, pass, d + 1) <= |s|
  }

  /** Element i of the input goes right behind the earlier elements of its bucket,
      and inside its own bucket. */
  lemma PlaceInBucket(s: seq<Sym>, pass: nat, i: nat)
    requires i < |s|
    ensures var d := Digit(s[i], pass);
            Start(s, pass, d) + |Filter(s[..i], pass, d)| < Start(s, pass, d + 1) <= |s|
    ensures forall d: nat :: d < 256 ==> Room(s, pass, i, d)
  {
    BucketsPermute(s, pass);
    assert |multiset(s)| == |s| == Start(s, pass, 256);
    forall d: nat | d < 256
      ensures Room(s, pass, i, d)
    {
      FilterLength(s, i, pass, d);
      StartMonotone(s, pass, d + 1, 256);
    }
    var e := Digit(s[i], pass);
    assert Room(s, pass, i, e);
    FilterLength(s, i, pass, e);
  }

  /** What has been scattered of the first i elements. */
  ghost predicate Scattered(s: seq<Sym>, pass: nat, i: nat, offsets: seq<nat>, out: seq<Sym>) {
    && |offsets| == 256 && i <= |s| && |s| <= |out|
    && forall d: nat :: d < 256 ==> InBucket(s, pass, i, d, offsets[d], out)
  }

  ghost predicate InBucket(s: seq<Sym>, pass: nat, i: nat, d: nat, offset: nat, out: seq<Sym>)
    requires i <= |s|
  {
    && offset == Start(s, pass, d) + |Filter(s[..i], pass, d)|
    && offset <= Start(s, pass, d + 1) <= |s| <= |out|
    && out[Start(s, pass, d)..offset] == Filter(s[..i], pass, d)
  }

  lemma ScatterOne(s: seq<Sym>, pass: nat, i: nat, offsets: seq<nat>, out: seq<Sym>)
    requires Scattered(s, pass, i, offsets, out) && i < |s|
    ensures var d := Digit(s[i], pass); var o := offsets[d];
            o < |out| && Scattered(s, pass, i + 1, offsets[d := o + 1], out[o := s[i]])
  {
    var e := Digit(s[i], pass);
    var o := offsets[e];
    PlaceInBucket(s, pass, i);
    assert InBucket(s, pass, i, e, o, out);
    var i' := i + 1;
    var offsets', out' := offsets[e := o + 1], out[o := s[i]];
    forall d: nat | d < 256
      ensures InBucket(s, pass, i', d, offsets'[d], out')
    {
      assert InBucket(s, pass, i, d, offsets[d], out);
      ScatterBucket(s, pass, i, d, offsets[d], o, out);
    }
  }

  /** Bucket d before and after element i is written at o. */
  lemma ScatterBucket(s: seq<Sym>, pass: nat, i: nat, d: nat, offset: nat, o: nat, out: seq<Sym>)
    requires i < |s| && d < 256 && InBucket(s, pass, i, d, offset, out)
    requires var e := Digit(s[i], pass);
             Start(s, pass, e) <= o < Start(s, pass, e + 1) <= |s|
    requires d == Digit(s[i], pass) ==> o == offset
    ensures InBucket(s, pass, i + 1, d, if d == Digit(s[i], pass) then offset + 1 else offset, out[o := s[i]])
  {
    FilterStep(s, pass, i, d);
    if d == Digit(s[i], pass) {
      UpdateEnd(out, o, s[i], Start(s, pass, d));
    } else {
      OutsideBucket(s, pass, d, Digit(s[i], pass), o);
      UpdateOutside(out, o, s[i], Start(s, pass, d), offset);
    }
  }

  /** A place in one bucket is outside every other. */
  lemma OutsideBucket(s: seq<Sym>, pass: nat, d: nat, e: nat, o: nat)
    requires d != e && Start(s, pass, e) <= o < Start(s, pass, e + 1)
    ensures o < Start(s, pass, d) || Start(s, pass, d + 1) <= o
  {
    if d < e {
      StartMonotone(s, pass, d + 1, e);
    } else {
      StartMonotone(s, pass, e + 1, d);
    }
  }

  lemma FilterStep(s: seq<Sym>, pass: nat, i: nat, d: nat)
    requires i < |s|
    ensures Filter(s[..i + 1], pass, d)
         == Filter(s[..i], pass, d) + (if Digit(s[i], pass) == d then [s[i]] else [])
  {
    assert s[..i + 1][..i] == s[..i];
  }

  lemma UpdateOutside(out: seq<Sym>, o: nat, x: Sym, a: nat, b: nat)
    requires o < |out| && a <= b <= |out| && (o < a || b <= o)
    ensures out[o := x][a..b] == out[a..b]
  {
  }

  lemma UpdateEnd(out: seq<Sym>, o: nat, x: Sym, a: nat)
    requires a <= o < |out|
    ensures out[o := x][a..o + 1] == out[a..o] + [x]
  {
  }

  lemma ScatterDone(s: seq<Sym>, pass: nat, offsets: seq<nat>, out: seq<Sym>)
    requires Scattered(s, pass, |s|, offsets, out)
    ensures out[..|s|] == Buckets(s, pass, 256)
  {
    BucketsPermute(s, pass);
    assert |multiset(s)| == |s| == Start(s, pass, 256);
    forall d: nat | d < 256
      ensures BucketAt(s, pass, d, out)
    {
      assert s[..|s|] == s;
      assert InBucket(s, pass, |s|, d, offsets[d], out);
    }
    SideBySide(s, pass, 256, out);
  }

  /** The counters of one pass. */
  ghost predicate HistOk(hist: seq<nat>, s: seq<Sym>, pass: nat)
    requires pass < 2
  {
    |hist| == 512
    && forall k :: 256 * pass <= k < 256 * pass + 256 ==> hist[k] == |Filter(s, pass, k - 256 * pass)|
  }

  /** Where every bucket begins. */
  method Offsets(hist: array<nat>, pass: nat, ghost s: seq<Sym>) returns (offsets: array<nat>)
    requires pass < 2 && hist.Length == 512
    requires HistOk(hist[..], s, pass)
    ensures fresh(offsets) && offsets.Length == 256
    ensures forall d :: 0 <= d < 256 ==> offsets[d] == Start(s, pass, d)
  {
    offsets := new nat[256](_ => 0);
    var curOfs, i := 0, 0;
    while i < 256
      invariant 0 <= i <= 256 && curOfs == Start(s, pass, i)
      invariant forall d :: 0 <= d < i ==> offsets[d] == Start(s, pass, d)
    {
      offsets[i] := curOfs;
      curOfs := curOfs + hist[256 * pass + i];
      i := i + 1;
    }
  }

  /** One counting pass from cur to out. */
  method Pass(cur: array<Sym>, out: array<Sym>, n: nat, pass: nat, hist: array<nat>)
    requires n <= cur.Length && n <= out.Length && cur != out && pass < 2 && hist.Length == 512
    requires HistOk(hist[..], cur[..n], pass)
    modifies out
    ensures out[..n] == Buckets(cur[..n], pass, 256)
  {
    hide Scattered;
    hide Buckets;
    hide HistOk;
    ghost var s := cur[..n];
    var offsets := Offsets(hist, pass, s);
    StartScatter(s, pass, offsets[..], out[..]);
    var i := 0;
    while i < n
      invariant 0 <= i <= n && cur[..n] == s
      invariant Scattered(s, pass, i, offsets[..], out[..])
    {
      ghost var was, done := offsets[..], out[..];
      ScatterOne(s, pass, i, was, done);
      var d := Digit(cur[i], pass);
      out[offsets[d]] := cur[i];
      offsets[d] := offsets[d] + 1;
      assert out[..] == done[was[d] := s[i]] && offsets[..] == was[d := was[d] + 1];
      i := i + 1;
    }
    ScatterDone(s, pass, offsets[..], out[..]);
  }

  lemma StartScatter(s: seq<Sym>, pass: nat, offsets: seq<nat>, out: seq<Sym>)
    requires |offsets| == 256 && |s| <= |out|
    requires forall d :: 0 <= d < 256 ==> offsets[d] == Start(s, pass, d)
    ensures Scattered(s, pass, 0, offsets, out)
  {
    BucketsPermute(s, pass);
    assert |multiset(s)| == |s| == Start(s, pass, 256);
    forall d: nat | d < 256
      ensures InBucket(s, pass, 0, d, offsets[d], out)
    {
      StartMonotone(s, pass, d, d + 1);
      StartMonotone(s, pass, d + 1, 256);
    }
  }

  method Histogram(syms: array<Sym>, n: nat) returns (hist: array<nat>)
    requires n <= syms.Length
    ensures fresh(hist) && hist.Length == 512
    ensures HistOk(hist[..], syms[..n], 0) && HistOk(hist[..], syms[..n], 1)
  {
    hist := new nat[512](_ => 0);
    var i := 0;
    while i < n
      invariant 0 <= i <= n
      invariant HistOk(hist[..], syms[..i], 0) && HistOk(hist[..], syms[..i], 1)
    {
      assert syms[..i + 1][..i] == syms[..i];
      var lo, hi := Digit(syms[i], 0), Digit(syms[i], 1);
      hist[lo] := hist[lo] + 1;
      hist[256 + hi] := hist[256 + hi] + 1;
      i := i + 1;
    }
  }

  /** Sorts the first n pairs; the result is in one of the two arrays. */
  method RadixSortSyms(syms0: array<Sym>, syms1: array<Sym>, n: nat) returns (cur: array<Sym>)
    requires n <= syms0.Length && n <= syms1.Length && syms0 != syms1
    requires Fits(syms0[..n])
    modifies syms0, syms1
    ensures cur == syms0 || cur == syms1
    ensures multiset(cur[..n]) == multiset(old(syms0[..n])) && SortedByKey(cur[..n])
  {
    ghost var s := syms0[..n];
    var hist := Histogram(syms0, n);
    HighByteCount(hist[..], s);
    var totalPasses := 2;
    while totalPasses > 1 && n == hist[(totalPasses - 1) * 256]
      invariant 1 <= totalPasses <= 2
      invariant totalPasses == 1 ==> |Filter(s, 1, 0)| == n
    {
      totalPasses := totalPasses - 1;
    }
    FirstPass(s, hist[..]);
    Pass(syms0, syms1, n, 0, hist);
    if totalPasses == 1 {
      return syms1;
    }
    Pass(syms1, syms0, n, 1, hist);
    return syms0;
  }

  lemma HighByteCount(hist: seq<nat>, s: seq<Sym>)
    requires HistOk(hist, s, 1)
    ensures hist[256] == |Filter(s, 1, 0)|
  {
  }

  /** What each pass leaves, and why the counters of the input serve the second. */
  lemma FirstPass(s: seq<Sym>, hist: seq<nat>)
    requires Fits(s) && HistOk(hist, s, 1)
    ensures var t := Buckets(s, 0, 256);
            && HistOk(hist, t, 1) && multiset(t) == multiset(s)
            && (|Filter(s, 1, 0)| == |s| ==> SortedByKey(t))
            && multiset(Buckets(t, 1, 256)) == multiset(s) && SortedByKey(Buckets(t, 1, 256))
  {
    hide Buckets;
    hide Filter;
    hide HistOk;
    hide Fits;
    hide SortedByKey;
    var t := Buckets(s, 0, 256);
    BucketsPermute(s, 0);
    BucketsSorted(s, 0, 256);
    FitsPermuted(s, t);
    if |Filter(s, 1, 0)| == |s| {
      PermutedFilter(s, t, 1, 0);
      OnePassSorts(t);
    }
    HistPermuted(s, t, hist);
    BucketsPermute(t, 1);
    TwoPassesSort(t, 256);
  }

  lemma HistPermuted(s: seq<Sym>, t: seq<Sym>, hist: seq<nat>)
    requires multiset(s) == multiset(t) && HistOk(hist, s, 1)
    ensures HistOk(hist, t, 1)
  {
    hide Filter;
    forall k | 256 <= k < 512
      ensures hist[k] == |Filter(t, 1, k - 256)|
    {
      PermutedFilter(s, t, 1, k - 256);
    }
  }

  lemma FitsPermuted(s: seq<Sym>, t: seq<Sym>)
    requires multiset(s) == multiset(t) && Fits(s)
    ensures Fits(t) && |t| == |s|
  {
    assert |multiset(s)| == |s| && |multiset(t)| == |t|;
    forall i | 0 <= i < |t|
      ensures t[i].key < 65536
    {
      assert t[i] in multiset(s);
      assert t[i] in s;
    }
  }
}
