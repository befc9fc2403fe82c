/**
 Canonical Huffman codes (section 3.2.2 of RFC 1951): the reference that the
 encoder's code assignment and the inflater's decode tables are measured against.
 `lens[s]` is the code length of symbol s, 0 when the symbol is not used.
 */
module CanonicalCodes {
  import opened Bits

  const MAX_BITS := 15

  ghost predicate ValidLens(lens: seq<nat>) {
    forall s :: 0 <= s < |lens| ==> lens[s] <= MAX_BITS
  }

  /** How many symbols have code length l. */
  function CountLen(lens: seq<nat>, l: nat): nat {
    if lens == [] then 0
    else CountLen(lens[..|lens| - 1], l) + (if lens[|lens| - 1] == l then 1 else 0)
  }

  function FirstCode(lens: seq<nat>, l: nat): nat
    requires l >= 1
  {
    if l == 1 then 0 else 2 * (FirstCode(lens, l - 1) + CountLen(lens, l - 1))
  }

  predicate Used(lens: seq<nat>, s: nat) {
    s < |lens| && lens[s] > 0
  }

  function Code(lens: seq<nat>, s: nat): nat
    requires Used(lens, s)
  {
    FirstCode(lens, lens[s]) + CountLen(lens[..s], lens[s])
  }

  function CodeWord(lens: seq<nat>, s: nat): (w: seq<bool>)
    requires Used(lens, s)
    ensures |w| == lens[s]
  {
    MsbBits(Code(lens, s), lens[s])
  }

  /** The Kraft sum in units of 2^-m, symbol by symbol. */
  function Kraft(lens: seq<nat>, m: nat): nat
    requires forall s :: 0 <= s < |lens| ==> lens[s] <= m
  {
    if lens == [] then 0
    else
      var l := lens[|lens| - 1];
      Kraft(lens[..|lens| - 1], m) + (if l == 0 then 0 else Pow2(m - l))
  }

  ghost predicate NotOversubscribed(lens: seq<nat>) {
    ValidLens(lens) && Kraft(lens, MAX_BITS) <= Pow2(MAX_BITS)
  }

  ghost predicate Complete(lens: seq<nat>) {
    ValidLens(lens) && Kraft(lens, MAX_BITS) == Pow2(MAX_BITS)
  }

  /** Where the codes of length l begin on the scale of 2^m leaves. */
  function Lo(lens: seq<nat>, l: nat, m: nat): nat
    requires 1 <= l <= m + 1
  {
    if l == 1 then 0 else Lo(lens, l - 1, m) + CountLen(lens, l - 1) * Pow2(m - (l - 1))
  }

  lemma {:induction false} LoIsFirstCode(lens: seq<nat>, l: nat, m: nat)
    requires 1 <= l <= m
    ensures Lo(lens, l, m) == FirstCode(lens, l) * Pow2(m - l)
  {
    if l > 1 {
      LoIsFirstCode(lens, l - 1, m);
      var f, c, p := FirstCode(lens, l - 1), CountLen(lens, l - 1), Pow2(m - l);
      assert Pow2(m - (l - 1)) == 2 * p;
      DoubleSum(f, c, p);
    }
  }

  lemma DoubleSum(f: nat, c: nat, p: nat)
    ensures f * (2 * p) + c * (2 * p) == (2 * (f + c)) * p
  {
  }

  lemma {:induction false} LoMonotone(lens: seq<nat>, a: nat, b: nat, m: nat)
    requires 1 <= a <= b <= m + 1
    ensures Lo(lens, a, m) <= Lo(lens, b, m)
  {
    if a < b {
      LoMonotone(lens, a, b - 1, m);
    }
  }

  /** Appending one symbol moves the codes of longer lengths up by its share. */
  lemma {:induction false} LoSnoc(lens: seq<nat>, x: nat, l: nat, m: nat)
    requires 1 <= l <= m + 1
    ensures Lo(lens + [x], l, m) == Lo(lens, l, m) + (if 0 < x < l then Pow2(m - x) else 0)
  {
    assert (lens + [x])[..|lens|] == lens;
    if l > 1 {
      LoSnoc(lens, x, l - 1, m);
      var c, p := CountLen(lens, l - 1), Pow2(m - (l - 1));
      assert (c + 1) * p == c * p + p;
    }
  }

  /** The Kraft sum is where the codes of length m would end. */
  lemma {:induction false} KraftIsLo(lens: seq<nat>, m: nat)
    requires forall s :: 0 <= s < |lens| ==> lens[s] <= m
    ensures Kraft(lens, m) == Lo(lens, m + 1, m)
  {
    if lens == [] {
      LoEmpty(m + 1, m);
    } else {
      var init, x := lens[..|lens| - 1], lens[|lens| - 1];
      KraftIsLo(init, m);
      LoSnoc(init, x, m + 1, m);
      assert init + [x] == lens;
    }
  }

  lemma {:induction false} LoEmpty(l: nat, m: nat)
    requires 1 <= l <= m + 1
    ensures Lo([], l, m) == 0
  {
    if l > 1 {
      LoEmpty(l - 1, m);
    }
  }

  lemma {:induction false} CountSplit(lens: seq<nat>, s: nat, l: nat)
    requires s <= |lens|
    ensures CountLen(lens, l) == CountLen(lens[..s], l) + CountLen(lens[s..], l)
  {
    if s == |lens| {
      assert lens[..s] == lens;
    } else {
      var init := lens[..|lens| - 1];
      CountSplit(init, s, l);
      assert init[..s] == lens[..s];
      assert lens[s..][..|lens[s..]| - 1] == init[s..];
    }
  }

  lemma CountRank(lens: seq<nat>, s: nat, t: nat)
    requires s < t <= |lens|
    ensures CountLen(lens[..s], lens[s]) + 1 <= CountLen(lens[..t], lens[s])
  {
    assert lens[..t][..s + 1] == lens[..s + 1];
    CountSplit(lens[..t], s + 1, lens[s]);
    assert lens[..s + 1][..s] == lens[..s];
  }

  /** The j-th symbol of length l exists. */
  lemma {:induction false} NthOfLength(lens: seq<nat>, l: nat, j: nat) returns (s: nat)
    requires j < CountLen(lens, l)
    ensures s < |lens| && lens[s] == l && CountLen(lens[..s], l) == j
  {
    var init := lens[..|lens| - 1];
    if j < CountLen(init, l) {
      s := NthOfLength(init, l, j);
      assert init[..s] == lens[..s];
    } else {
      s := |lens| - 1;
    }
  }

  /** The leaves covered by the code of s, on the scale of 2^MAX_BITS. */
  ghost predicate Covers(lens: seq<nat>, s: nat, v: nat)
    requires ValidLens(lens) && Used(lens, s)
  {
    var p := Pow2(MAX_BITS - lens[s]);
    Code(lens, s) * p <= v < (Code(lens, s) + 1) * p
  }

  /** A code lies between the start of its length and the start of the next. */
  lemma CodeRange(lens: seq<nat>, s: nat)
    requires ValidLens(lens) && Used(lens, s)
    ensures var p := Pow2(MAX_BITS - lens[s]);
            Lo(lens, lens[s], MAX_BITS) <= Code(lens, s) * p
            && (Code(lens, s) + 1) * p <= Lo(lens, lens[s] + 1, MAX_BITS)
  {
    var l := lens[s];
    var p := Pow2(MAX_BITS - l);
    LoIsFirstCode(lens, l, MAX_BITS);
    CountRank(lens, s, |lens|);
    assert lens[..|lens|] == lens;
    var f, r, c := FirstCode(lens, l), CountLen(lens[..s], l), CountLen(lens, l);
    RangeArith(f, r, c, p);
  }

  lemma RangeArith(f: nat, r: nat, c: nat, p: nat)
    requires r + 1 <= c
    ensures f * p <= (f + r) * p && (f + r + 1) * p <= f * p + c * p
  {
    assert (f + c) * p == f * p + c * p;
    MulLe(f, f + r, p);
    MulLe(f + r + 1, f + c, p);
  }

  /** Exactly one block of size p holds h * p + r. */
  lemma BlockArith(c: nat, h: nat, r: nat, p: nat)
    requires r < p
    ensures c * p <= h * p + r < (c + 1) * p <==> c == h
  {
    assert (c + 1) * p == c * p + p && (h + 1) * p == h * p + p;
    if c < h {
      MulLe(c + 1, h, p);
    } else if h < c {
      MulLe(h + 1, c, p);
    }
  }

  // ---- the order of the codes ----

  /** Symbol s comes before symbol t: its code is shorter, or as long and its number lower. */
  predicate Precedes(lens: seq<nat>, s: nat, t: nat)
    requires s < |lens| && t < |lens|
  {
    0 < lens[s] < lens[t] || (0 < lens[s] == lens[t] && s < t)
  }

  /** The leaves of the tree of depth 15 under those of the first k symbols that come
      before t. */
  ghost function LeavesBefore(lens: seq<nat>, t: nat, k: nat): nat
    requires ValidLens(lens) && t < |lens| && k <= |lens|
  {
    if k == 0 then 0
    else LeavesBefore(lens, t, k - 1) + (if Precedes(lens, k - 1, t) then Pow2(15 - lens[k - 1]) else 0)
  }

  lemma {:induction false} LeavesAreLo(lens: seq<nat>, t: nat, k: nat)
    requires ValidLens(lens) && Used(lens, t) && k <= |lens|
    ensures LeavesBefore(lens, t, k)
         == Lo(lens[..k], lens[t], 15)
          + CountLen(lens[..if k < t then k else t], lens[t]) * Pow2(15 - lens[t])
  {
    var l, p := lens[t], Pow2(15 - lens[t]);
    if k == 0 {
      LoEmpty(l, 15);
      assert lens[..0] == [];
    } else {
      LeavesAreLo(lens, t, k - 1);
      LoSnoc(lens[..k - 1], lens[k - 1], l, 15);
      assert lens[..k] == lens[..k - 1] + [lens[k - 1]];
      if k <= t {
        assert lens[..k][..k - 1] == lens[..k - 1];
        OneMore(CountLen(lens[..k - 1], l), p);
      }
    }
  }

  lemma OneMore(c: nat, p: nat)
    ensures (c + 1) * p == c * p + p
  {
  }

  /**
   The rule of section 3.2.2 of RFC 1951, without its algorithm: the codes stand side by
   side from the left of the tree, shorter ones first and those of one length in the order
   of their symbols. Each begins where those before it end.
   */
  lemma {:induction false} CanonicalPlace(lens: seq<nat>, t: nat)
    requires ValidLens(lens) && Used(lens, t)
    ensures Code(lens, t) * Pow2(15 - lens[t]) == LeavesBefore(lens, t, |lens|)
  {
    var l, p := lens[t], Pow2(15 - lens[t]);
    LeavesAreLo(lens, t, |lens|);
    LoIsFirstCode(lens, l, 15);
    assert lens[..|lens|] == lens;
    Spread(FirstCode(lens, l), CountLen(lens[..t], l), p);
  }

  lemma Spread(a: nat, b: nat, p: nat)
    ensures (a + b) * p == a * p + b * p
  {
  }

  lemma CodeFits(lens: seq<nat>, s: nat)
    requires NotOversubscribed(lens) && Used(lens, s)
    ensures Code(lens, s) < Pow2(lens[s])
    ensures MsbVal(CodeWord(lens, s)) == Code(lens, s)
  {
    var l := lens[s];
    var p := Pow2(MAX_BITS - l);
    CodeRange(lens, s);
    LoMonotone(lens, l + 1, MAX_BITS + 1, MAX_BITS);
    KraftIsLo(lens, MAX_BITS);
    Pow2Add(l, MAX_BITS - l);
    MulLeCancel(Code(lens, s) + 1, Pow2(l), p);
    MsbBitsVal(Code(lens, s), l);
  }

  lemma MulLeCancel(a: nat, b: nat, p: nat)
    requires p > 0 && a * p <= b * p
    ensures a <= b
  {
  }

  /** No leaf is covered by two codes. */
  lemma CoverUnique(lens: seq<nat>, s: nat, t: nat, v: nat)
    requires ValidLens(lens) && Used(lens, s) && Used(lens, t)
    requires Covers(lens, s, v) && Covers(lens, t, v)
    ensures s == t
  {
    if lens[s] < lens[t] {
      CoverOrdered(lens, s, t, v);
    } else if lens[t] < lens[s] {
      CoverOrdered(lens, t, s, v);
    } else if s < t {
      CountRank(lens, s, t);
      MulLe(Code(lens, s) + 1, Code(lens, t), Pow2(MAX_BITS - lens[s]));
    } else if t < s {
      CountRank(lens, t, s);
      MulLe(Code(lens, t) + 1, Code(lens, s), Pow2(MAX_BITS - lens[s]));
    }
  }

  lemma MulLe(a: nat, b: nat, p: nat)
    requires a <= b
    ensures a * p <= b * p
  {
  }

  lemma CoverOrdered(lens: seq<nat>, s: nat, t: nat, v: nat)
    requires ValidLens(lens) && Used(lens, s) && Used(lens, t) && lens[s] < lens[t]
    requires Covers(lens, s, v)
    ensures !Covers(lens, t, v)
  {
    CodeRange(lens, s);
    CodeRange(lens, t);
    LoMonotone(lens, lens[s] + 1, lens[t], MAX_BITS);
  }

  /** A code word is a prefix of a 15-bit word exactly when it covers the word's number. */
  lemma PrefixIsCover(lens: seq<nat>, s: nat, w: seq<bool>)
    requires NotOversubscribed(lens) && Used(lens, s)
    requires |w| == MAX_BITS
    ensures CodeWord(lens, s) <= w <==> Covers(lens, s, MsbVal(w))
  {
    var l := lens[s];
    var p := Pow2(MAX_BITS - l);
    var head, tail := w[..l], w[l..];
    assert w == head + tail;
    MsbConcat(head, tail);
    MsbBound(tail);
    CodeFits(lens, s);
    var c, h, r := Code(lens, s), MsbVal(head), MsbVal(tail);
    BlockArith(c, h, r, p);
    if c == h {
      MsbInjective(head, CodeWord(lens, s));
    }
    if CodeWord(lens, s) <= w {
      assert head == CodeWord(lens, s);
    }
  }

  function Zeros(n: nat): (w: seq<bool>)
    ensures |w| == n
  {
    seq(n, _ => false)
  }

  /** Canonical codes are prefix-free whenever the Kraft sum is at most 1. */
  lemma PrefixFree(lens: seq<nat>, s: nat, t: nat)
    requires NotOversubscribed(lens) && Used(lens, s) && Used(lens, t)
    requires CodeWord(lens, s) <= CodeWord(lens, t)
    ensures s == t
  {
    var w := CodeWord(lens, t) + Zeros(MAX_BITS - lens[t]);
    assert CodeWord(lens, s) <= w;
    PrefixIsCover(lens, s, w);
    PrefixIsCover(lens, t, w);
    CoverUnique(lens, s, t, MsbVal(w));
  }

  /** With Kraft sum exactly 1, every 15-bit word starts with some code word. */
  lemma SomeCodeWord(lens: seq<nat>, w: seq<bool>) returns (s: nat)
    requires Complete(lens)
    requires |w| == MAX_BITS
    ensures Used(lens, s) && CodeWord(lens, s) <= w
  {
    var v := MsbVal(w);
    MsbBound(w);
    KraftIsLo(lens, MAX_BITS);
    var l := 1;
    while Lo(lens, l + 1, MAX_BITS) <= v
      invariant 1 <= l <= MAX_BITS
      invariant Lo(lens, l, MAX_BITS) <= v
      decreases MAX_BITS - l
    {
      assert l != MAX_BITS;
      l := l + 1;
    }
    s := CodeAt(lens, l, v);
    PrefixIsCover(lens, s, w);
  }

  lemma CodeAt(lens: seq<nat>, l: nat, v: nat) returns (s: nat)
    requires ValidLens(lens) && 1 <= l <= MAX_BITS
    requires Lo(lens, l, MAX_BITS) <= v < Lo(lens, l + 1, MAX_BITS)
    ensures Used(lens, s) && Covers(lens, s, v)
  {
    var p := Pow2(MAX_BITS - l);
    LoIsFirstCode(lens, l, MAX_BITS);
    var f, c := FirstCode(lens, l), CountLen(lens, l);
    var j := QuotientArith(f, c, p, v);
    s := NthOfLength(lens, l, j);
  }

  lemma QuotientArith(f: nat, c: nat, p: nat, v: nat) returns (j: nat)
    requires p > 0 && f * p <= v < f * p + c * p
    ensures j < c && (f + j) * p <= v < (f + j + 1) * p
  {
    var d := v - f * p;
    j := d / p;
    var r := d % p;
    DivisionBasic(d, p);
    assert d == j * p + r;
    MulLtCancel(j, c, p);
    assert (f + j) * p == f * p + j * p;
    BlockArith(f + j, f + j, r, p);
  }

  lemma MulLtCancel(a: nat, b: nat, p: nat)
    requires a * p < b * p
    ensures a < b
  {
  }

  /** How many symbols have a code of at most k bits. */
  function SumCounts(lens: seq<nat>, k: nat): nat {
    if k == 0 then 0 else SumCounts(lens, k - 1) + CountLen(lens, k)
  }

  lemma {:induction false} SumCountsSnoc(lens: seq<nat>, x: nat, k: nat)
    ensures SumCounts(lens + [x], k) == SumCounts(lens, k) + (if 0 < x <= k then 1 else 0)
  {
    assert (lens + [x])[..|lens|] == lens;
    if k > 0 {
      SumCountsSnoc(lens, x, k - 1);
    }
  }

  lemma {:induction false} SumCountsEmpty(k: nat)
    ensures SumCounts([], k) == 0
  {
    if k > 0 {
      SumCountsEmpty(k - 1);
    }
  }

  /** The same code measured in finer units. */
  lemma {:induction false} KraftRescale(lens: seq<nat>, m: nat, e: nat)
    requires forall s :: 0 <= s < |lens| ==> lens[s] <= m
    ensures Kraft(lens, m + e) == Pow2(e) * Kraft(lens, m)
  {
    if lens != [] {
      var l := lens[|lens| - 1];
      KraftRescale(lens[..|lens| - 1], m, e);
      if l > 0 {
        Pow2Add(m - l, e);
        DistributeLeft(Pow2(e), Kraft(lens[..|lens| - 1], m), Pow2(m - l));
      }
    }
  }

  /** The Kraft sum from the front. */
  lemma {:induction false} KraftCons(x: nat, lens: seq<nat>, m: nat)
    requires x <= m && forall s :: 0 <= s < |lens| ==> lens[s] <= m
    ensures forall s :: 0 <= s < |[x] + lens| ==> ([x] + lens)[s] <= m
    ensures Kraft([x] + lens, m) == (if x == 0 then 0 else Pow2(m - x)) + Kraft(lens, m)
  {
    var all := [x] + lens;
    if lens == [] {
      assert all[..|all| - 1] == [];
    } else {
      assert all[..|all| - 1] == [x] + lens[..|lens| - 1];
      KraftCons(x, lens[..|lens| - 1], m);
    }
  }
}
