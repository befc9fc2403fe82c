/**
 Limiting the longest code: all codes beyond the limit are cut to it, then single
 codes are moved down one level until the Kraft sum is 1 again.
 */
module LimitedLengths {
  import opened Bits

  const MAX_SUPPORTED := 32
  const WORD := 0x1_0000_0000

  /** How many codes have length 1 .. hi. */
  ghost function Total(num: seq<int>, hi: nat): int
    requires hi < |num|
  {
    if hi == 0 then 0 else Total(num, hi - 1) + num[hi]
  }

  /** Their Kraft sum in units of 2^-m. */
  ghost function Weight(num: seq<int>, hi: nat, m: nat): int
    requires hi < |num| && hi <= m
  {
    if hi == 0 then 0 else Weight(num, hi - 1, m) + num[hi] * Pow2(m - hi)
  }

  ghost predicate NonNegative(num: seq<int>) {
    forall i :: 0 <= i < |num| ==> num[i] >= 0
  }

  lemma {:induction false} TotalBump(num: seq<int>, i: nat, d: int, hi: nat)
    requires 1 <= i < |num| && hi < |num|
    ensures Total(num[i := num[i] + d], hi) == Total(num, hi) + (if i <= hi then d else 0)
  {
    if hi > 0 {
      TotalBump(num, i, d, hi - 1);
    }
  }

  lemma {:induction false} WeightBump(num: seq<int>, i: nat, d: int, hi: nat, m: nat)
    requires 1 <= i < |num| && hi < |num| && hi <= m
    ensures i <= m
         ==> Weight(num[i := num[i] + d], hi, m) == Weight(num, hi, m) + (if i <= hi then d * Pow2(m - i) else 0)
  {
    if hi > 0 {
      WeightBump(num, i, d, hi - 1, m);
      if hi == i {
        Distribute(num[i], d, Pow2(m - i));
      }
    }
  }

  /** The same codes measured in finer units. */
  lemma {:induction false} WeightRescale(num: seq<int>, hi: nat, m: nat, e: nat)
    requires hi < |num| && hi <= m
    ensures Weight(num, hi, m + e) == Pow2(e) * Weight(num, hi, m)
  {
    if hi > 0 {
      WeightRescale(num, hi - 1, m, e);
      Pow2Add(m - hi, e);
      Rearrange(Pow2(e), Weight(num, hi - 1, m), num[hi], Pow2(m - hi));
    }
  }

  lemma Rearrange(p: int, w: int, n: int, q: int)
    ensures p * (w + n * q) == p * w + n * (q * p)
  {
    assert p * (w + n * q) == p * w + p * (n * q);
    assert p * (n * q) == n * (q * p);
  }

  /** What lies beyond the limit weighs less than as many codes at the limit. */
  lemma {:induction false} TailWeight(num: seq<int>, lo: nat, hi: nat, m: nat)
    requires lo <= hi < |num| && hi <= m && NonNegative(num)
    ensures 0 <= Weight(num, hi, m) - Weight(num, lo, m) <= (Total(num, hi) - Total(num, lo)) * Pow2(m - lo)
    ensures Total(num, hi) >= Total(num, lo)
  {
    if lo < hi {
      TailWeight(num, lo, hi - 1, m);
      Pow2Monotone(m - hi, m - lo);
      var c := Total(num, hi - 1) - Total(num, lo);
      Distribute(c, num[hi], Pow2(m - lo));
      MulBound(num[hi], Pow2(m - hi), Pow2(m - lo));
    }
  }

  lemma MulBound(n: int, p: int, q: int)
    requires n >= 0 && 0 <= p <= q
    ensures 0 <= n * p <= n * q
  {
  }

  /** With no code shorter than the limit the weight is the number of codes. */
  lemma {:induction false} NoneShorter(num: seq<int>, hi: nat, m: nat)
    requires hi < |num| && hi <= m
    requires forall i :: 1 <= i <= hi ==> num[i] == 0
    ensures Weight(num, hi, m) == 0 && Total(num, hi) == 0
  {
    if hi > 0 {
      NoneShorter(num, hi - 1, m);
    }
  }

  /** Cutting the long codes leaves an excess the codes at the limit can pay for. */
  lemma CutExcess(num: seq<int>, max: nat, cut: seq<int>)
    requires |num| == 33 && 1 <= max <= 32 && NonNegative(num)
    requires Weight(num, 32, 32) == Pow2(32)
    requires cut == num[max := num[max] + (Total(num, 32) - Total(num, max))]
    ensures Total(cut, max) == Total(num, 32)
    ensures 0 <= Weight(cut, max, max) - Pow2(max) <= cut[max]
  {
    var far := Total(num, 32) - Total(num, max);
    var w := Weight(num, max, max);
    TotalBump(num, max, far, max);
    WeightTop(num, max, far);
    TotalWithin(num, max);
    ExcessBounds(num, max, far, w);
  }

  lemma WeightTop(num: seq<int>, max: nat, d: int)
    requires 1 <= max < |num|
    ensures Weight(num[max := num[max] + d], max, max) == Weight(num, max, max) + d
  {
    WeightBump(num, max, d, max, max);
    TimesOne(d, max - max);
  }

  lemma TimesOne(d: int, z: nat)
    requires z == 0
    ensures d * Pow2(z) == d
  {
  }

  lemma TotalWithin(num: seq<int>, max: nat)
    requires |num| == 33 && 1 <= max <= 32 && NonNegative(num)
    ensures Total(num, 32) >= Total(num, max)
  {
    TailWeight(num, max, 32, 32);
  }

  lemma ExcessBounds(num: seq<int>, max: nat, far: int, w: int)
    requires |num| == 33 && 1 <= max <= 32 && NonNegative(num)
    requires Weight(num, 32, 32) == Pow2(32)
    requires far == Total(num, 32) - Total(num, max) && w == Weight(num, max, max)
    ensures 0 <= w + far - Pow2(max) <= far
  {
    hide Weight;
    hide Total;
    hide NonNegative;
    hide Pow2;
    var p := Pow2(32 - max);
    WeightRescale(num, max, max, 32 - max);
    TailWeight(num, max, 32, 32);
    Pow2Add(max, 32 - max);
    var tail := Weight(num, 32, 32) - Weight(num, max, 32);
    assert 0 <= tail <= far * p;
    ExcessArith(Pow2(max), w, far, p, tail);
  }

  lemma ExcessArith(whole: int, w: int, far: int, p: int, tail: int)
    requires p > 0 && whole * p == p * w + tail && 0 <= tail <= far * p
    ensures 0 <= w + far - whole <= far
  {
    assert p * (whole - w) == tail;
    assert p * (far - (whole - w)) == far * p - tail >= 0;
    MulSign(p, whole - w);
    MulSign(p, far - (whole - w));
  }

  lemma MulSign(p: int, x: int)
    requires p > 0 && p * x >= 0
    ensures x >= 0
  {
  }

  /** The limiting loop between two rounds. */
  ghost predicate Limiting(num: seq<int>, listLen: int, max: nat, total: int) {
    && |num| == 33 && 1 <= max <= 32 && NonNegative(num)
    && Total(num, max) == listLen <= Pow2(max)
    && Weight(num, max, max) == total
    && 0 <= total - Pow2(max) <= num[max]
  }

  /** One code moves down from level i, one code at the limit moves up beside it. */
  lemma OneRound(num: seq<int>, listLen: int, max: nat, total: int, i: nat)
    requires Limiting(num, listLen, max, total) && total > Pow2(max)
    requires 1 <= i < max && num[i] > 0
    ensures num[max] > 0
    ensures var a := num[max := num[max] - 1]; var b := a[i := a[i] - 1];
            Limiting(b[i + 1 := b[i + 1] + 2], listLen, max, total - 1)
  {
    hide Total;
    hide Weight;
    var a := num[max := num[max] - 1];
    var b := a[i := a[i] - 1];
    TotalBump(num, max, -1, max);
    TotalBump(a, i, -1, max);
    TotalBump(b, i + 1, 2, max);
    RoundWeight(num, a, b, max, i);
  }

  lemma {:induction false} RoundWeight(num: seq<int>, a: seq<int>, b: seq<int>, max: nat, i: nat)
    requires max < |num| && 1 <= i < max
    requires a == num[max := num[max] - 1] && b == a[i := a[i] - 1]
    ensures Weight(b[i + 1 := b[i + 1] + 2], max, max) == Weight(num, max, max) - 1
  {
    hide Weight;
    WeightBump(num, max, -1, max, max);
    WeightBump(a, i, -1, max, max);
    WeightBump(b, i + 1, 2, max, max);
    assert Pow2(max - i) == 2 * Pow2(max - (i + 1));
    assert Pow2(max - max) == 1;
  }

  /** While the sum is too large some code is shorter than the limit. */
  lemma ShorterExists(num: seq<int>, listLen: int, max: nat, total: int)
    requires Limiting(num, listLen, max, total) && total > Pow2(max)
    ensures exists i :: 1 <= i < max && num[i] > 0
  {
    if forall i :: 1 <= i < max ==> num[i] == 0 {
      NoneShorter(num, max - 1, max);
    }
  }

  /** The sum fits 32 bits. */
  lemma LimitingFits(num: seq<int>, listLen: int, max: nat, total: int)
    requires Limiting(num, listLen, max, total) && max <= 31
    ensures total < WORD
  {
    Pow2Values();
    Pow2Add(16, 15);
    Pow2Monotone(max, 31);
    if total > Pow2(max) {
      ShorterExists(num, listLen, max, total);
      var i :| 1 <= i < max && num[i] > 0;
      TailWeight(num, 0, i - 1, max);
      TailWeight(num, i, max - 1, max);
    }
  }

  /** The limiting loop stops at this 32-bit sum. */
  predicate StopsAt(total: nat, max: nat) {
    total < WORD && total == Pow2(max)
  }

  /** There is a sum at which it stops exactly for limits below 32. */
  lemma LoopCanEnd(max: nat)
    requires 1 <= max <= 32
    ensures (exists total: nat :: StopsAt(total, max)) <==> max <= 31
  {
    Pow2Values();
    Pow2Add(16, 15);
    Pow2Add(16, 16);
    if max <= 31 {
      Pow2Monotone(max, 31);
      var total := Pow2(max);
      assert StopsAt(total, max);
    }
  }

  /**
   The counts of code lengths are changed so that no code is longer than max
   while their number stays the same and the Kraft sum is again exactly 1. No
   count goes negative and the search for a shorter code never fails. Nothing is
   changed when no code is longer than max.
   */
  method EnforceMaxCodeSize(num: array<int>, listLen: int, max: nat)
    requires num.Length == 33 && 1 <= max <= 32 && NonNegative(num[..]) && (listLen > 1 ==> max <= 31)
    requires listLen > 1 ==> Total(num[..], 32) == listLen <= Pow2(max) && Weight(num[..], 32, 32) == Pow2(32)
    modifies num
    ensures listLen <= 1 ==> num[..] == old(num[..])
    ensures listLen > 1 ==> NonNegative(num[..]) && Total(num[..], max) == listLen
    ensures listLen > 1 ==> Weight(num[..], max, max) == Pow2(max)
    ensures Total(old(num[..]), max) == listLen ==> num[..] == old(num[..])
  {
    if listLen <= 1 {
      return;
    }
    ghost var whole := Total(num[..], max) == listLen;
    if whole {
      ExcessBounds(num[..], max, 0, Weight(num[..], max, max));
    }
    CutLongCodes(num, max);
    CutExcess(old(num[..]), max, num[..]);
    LimitingFits(num[..], listLen, max, Weight(num[..], max, max));
    var total := TotalWeight(num, max);
    while total != Pow2(max)
      invariant Limiting(num[..], listLen, max, total)
      invariant whole ==> num[..] == old(num[..]) && total == Pow2(max)
      decreases total - Pow2(max)
    {
      OneStep(num, listLen, max, total);
      total := total - 1;
    }
  }

  method CutLongCodes(num: array<int>, max: nat)
    requires num.Length == 33 && 1 <= max <= 32
    modifies num
    ensures num[..] == old(num[..])[max := old(num[max]) + (Total(old(num[..]), 32) - Total(old(num[..]), max))]
  {
    ghost var num0 := num[..];
    var i := max + 1;
    while i <= MAX_SUPPORTED
      invariant max + 1 <= i <= 33
      invariant num[max] == num0[max] + (Total(num0, i - 1) - Total(num0, max))
      invariant forall k :: 0 <= k < 33 && k != max ==> num[k] == num0[k]
    {
      num[max] := num[max] + num[i];
      i := i + 1;
    }
  }

  /** The 32-bit sum of shifted counts. */
  method TotalWeight(num: array<int>, max: nat) returns (total: int)
    requires num.Length == 33 && 1 <= max <= 31 && NonNegative(num[..]) && Weight(num[..], max, max) < WORD
    ensures total == Weight(num[..], max, max)
  {
    total := 0;
    var i := max;
    while i > 0
      invariant 0 <= i <= max && total == Weight(num[..], max, max) - Weight(num[..], i, max)
    {
      TailWeight(num[..], i, max, max);
      TailWeight(num[..], 0, i - 1, max);
      MulBound(num[i], 0, Pow2(max - i));
      NoWrap(total, num[i] * Pow2(max - i));
      total := (total + num[i] * Pow2(max - i) % WORD) % WORD;
      i := i - 1;
    }
  }

  lemma NoWrap(a: int, b: int)
    requires 0 <= a && 0 <= b && a + b < WORD
    ensures (a + b % WORD) % WORD == a + b
  {
  }

  method OneStep(num: array<int>, ghost listLen: int, max: nat, ghost total: int)
    requires num.Length == 33 && Limiting(num[..], listLen, max, total) && total > Pow2(max)
    modifies num
    ensures Limiting(num[..], listLen, max, total - 1)
  {
    ghost var num0 := num[..];
    ShorterExists(num0, listLen, max, total);
    num[max] := num[max] - 1;
    var i := max - 1;
    while i > 0 && num[i] == 0
      invariant 0 <= i < max && num[..] == num0[max := num0[max] - 1]
      invariant exists j :: 1 <= j <= i && num0[j] > 0
    {
      i := i - 1;
    }
    num[i] := num[i] - 1;
    num[i + 1] := num[i + 1] + 2;
    OneRound(num0, listLen, max, total, i);
  }
}
