/**
 Bit strings and their two readings as numbers: most significant bit first (how
 a canonical Huffman code is numbered) and least significant bit first (how a
 code sits in the bit buffer and in the reversed codes of the tables).
 */
module Bits {

  function Pow2(n: nat): (r: nat)
    ensures r >= 1
  {
    if n == 0 then 1 else 2 * Pow2(n - 1)
  }

  function BitVal(b: bool): nat {
    if b then 1 else 0
  }

  /** The number written by a bit string, most significant bit first. */
  function MsbVal(w: seq<bool>): nat {
    if w == [] then 0 else 2 * MsbVal(w[..|w| - 1]) + BitVal(w[|w| - 1])
  }

  /** The last n bits of v, most significant bit first. */
  function MsbBits(v: nat, n: nat): (w: seq<bool>)
    ensures |w| == n
  {
    if n == 0 then [] else MsbBits(v / 2, n - 1) + [v % 2 == 1]
  }

  /** The number written by a bit string, least significant bit first. */
  function LsbVal(w: seq<bool>): nat {
    if w == [] then 0 else BitVal(w[0]) + 2 * LsbVal(w[1..])
  }

  /** The last n bits of v, least significant bit first. */
  function LsbBits(v: nat, n: nat): (w: seq<bool>)
    ensures |w| == n
  {
    if n == 0 then [] else [v % 2 == 1] + LsbBits(v / 2, n - 1)
  }

  lemma Pow2Values()
    ensures Pow2(9) == 512 && Pow2(10) == 1024 && Pow2(15) == 32768 && Pow2(16) == 65536
  {
    assert Pow2(1) == 2;
    assert Pow2(2) == 4;
    assert Pow2(3) == 8;
    assert Pow2(4) == 16;
    assert Pow2(5) == 32;
    assert Pow2(6) == 64;
    assert Pow2(7) == 128;
    assert Pow2(8) == 256;
    assert Pow2(9) == 512;
    assert Pow2(10) == 1024;
    assert Pow2(11) == 2048;
    assert Pow2(12) == 4096;
    assert Pow2(13) == 8192;
    assert Pow2(14) == 16384;
  }

  lemma {:induction false} Pow2Add(a: nat, b: nat)
    ensures Pow2(a + b) == Pow2(a) * Pow2(b)
  {
    if a > 0 {
      Pow2Add(a - 1, b);
      assert Pow2(a + b) == 2 * Pow2(a - 1 + b);
      assert 2 * (Pow2(a - 1) * Pow2(b)) == (2 * Pow2(a - 1)) * Pow2(b);
    }
  }

  lemma {:induction false} Pow2Monotone(a: nat, b: nat)
    requires a <= b
    ensures Pow2(a) <= Pow2(b)
  {
    if a < b {
      Pow2Monotone(a, b - 1);
    }
  }

  lemma {:induction false} MsbBound(w: seq<bool>)
    ensures MsbVal(w) < Pow2(|w|)
  {
    if w != [] {
      MsbBound(w[..|w| - 1]);
    }
  }

  lemma {:induction false} MsbConcat(a: seq<bool>, b: seq<bool>)
    ensures MsbVal(a + b) == MsbVal(a) * Pow2(|b|) + MsbVal(b)
  {
    if b == [] {
      assert a + b == a;
    } else {
      var b' := b[..|b| - 1];
      assert (a + b)[..|a + b| - 1] == a + b';
      MsbConcat(a, b');
      assert MsbVal(a) * Pow2(|b|) == 2 * (MsbVal(a) * Pow2(|b'|));
    }
  }

  lemma {:induction false} MsbBitsVal(v: nat, n: nat)
    requires v < Pow2(n)
    ensures MsbVal(MsbBits(v, n)) == v
  {
    if n > 0 {
      MsbBitsVal(v / 2, n - 1);
      assert MsbBits(v, n)[..n - 1] == MsbBits(v / 2, n - 1);
    }
  }

  lemma {:induction false} MsbValBits(w: seq<bool>)
    ensures MsbBits(MsbVal(w), |w|) == w
  {
    if w != [] {
      MsbValBits(w[..|w| - 1]);
      assert MsbVal(w) / 2 == MsbVal(w[..|w| - 1]);
    }
  }

  /** Two bit strings of one length that write the same number are equal. */
  lemma MsbInjective(a: seq<bool>, b: seq<bool>)
    requires |a| == |b| && MsbVal(a) == MsbVal(b)
    ensures a == b
  {
    MsbValBits(a);
    MsbValBits(b);
  }

  lemma {:induction false} LsbBound(w: seq<bool>)
    ensures LsbVal(w) < Pow2(|w|)
  {
    if w != [] {
      LsbBound(w[1..]);
    }
  }

  lemma {:induction false} LsbBitsVal(w: seq<bool>)
    ensures LsbBits(LsbVal(w), |w|) == w
  {
    if w != [] {
      LsbBitsVal(w[1..]);
      assert LsbVal(w) / 2 == LsbVal(w[1..]);
    }
  }

  lemma MulAssoc(x: int, y: int, z: int)
    ensures x * (y * z) == (x * y) * z
  {
  }

  lemma {:induction false} LsbConcat(a: seq<bool>, b: seq<bool>)
    ensures LsbVal(a + b) == LsbVal(a) + Pow2(|a|) * LsbVal(b)
  {
    if a == [] {
      assert a + b == b;
    } else {
      assert (a + b)[1..] == a[1..] + b;
      LsbConcat(a[1..], b);
      MulAssoc(2, Pow2(|a| - 1), LsbVal(b));
    }
  }

  /** Masking with 2^n - 1 keeps exactly the first n bits. */
  lemma {:induction false} LsbMod(v: nat, n: nat)
    ensures v % Pow2(n) == LsbVal(LsbBits(v, n))
  {
    if n > 0 {
      LsbMod(v / 2, n - 1);
      ModHalf(v, Pow2(n - 1));
    }
  }

  lemma ModHalf(v: nat, p: nat)
    requires p >= 1
    ensures v % (2 * p) == v % 2 + 2 * ((v / 2) % p)
  {
    var q, r := (v / 2) / p, (v / 2) % p;
    assert v / 2 == p * q + r;
    assert v == (2 * p) * q + (2 * r + v % 2);
    ModUnique(v, 2 * p, q, 2 * r + v % 2);
  }

  lemma Distribute(a: int, b: int, p: int)
    ensures (a + b) * p == a * p + b * p
  {
  }

  lemma DistributeLeft(p: int, a: int, b: int)
    ensures p * (a + b) == p * a + b * p
  {
  }

  lemma ModUnique(v: int, m: int, q: int, r: int)
    requires 0 <= r < m && v == m * q + r
    ensures v % m == r && v / m == q
  {
    var q', r' := v / m, v % m;
    DivisionBasic(v, m);
    assert m * (q - q') == r' - r by { assert m * (q - q') == m * q - m * q'; }
    MultipleSmall(m, q - q', r' - r);
  }

  lemma DivisionBasic(v: int, m: int)
    requires m > 0
    ensures v == m * (v / m) + v % m && 0 <= v % m < m
  {
  }

  lemma MultipleSmall(m: int, k: int, d: int)
    requires m > 0 && m * k == d && -m < d < m
    ensures k == 0
  {
    if k >= 1 {
      MulAtLeast(m, k);
    } else if k <= -1 {
      MulAtLeast(m, -k);
    }
  }

  lemma MulAtLeast(m: int, k: int)
    requires m > 0 && k >= 1
    ensures m * k >= m
  {
  }

  /** Reading more bits of the same number extends the bit string. */
  lemma {:induction false} LsbPrefix(v: nat, k: nat, n: nat)
    requires k <= n
    ensures LsbBits(v, n)[..k] == LsbBits(v, k)
  {
    if k > 0 {
      LsbPrefix(v / 2, k - 1, n - 1);
    }
  }

  /** Bit i of v is the low bit of v shifted right by i. */
  lemma {:induction false} LsbBitAt(v: nat, n: nat, i: nat)
    requires i < n
    ensures LsbBits(v, n)[i] == ((v / Pow2(i)) % 2 == 1)
  {
    if i > 0 {
      LsbBitAt(v / 2, n - 1, i - 1);
      DivDiv(v, Pow2(i - 1));
    }
  }

  lemma DivDiv(v: nat, p: nat)
    requires p >= 1
    ensures (v / 2) / p == v / (2 * p)
  {
    var q, r := (v / 2) / p, (v / 2) % p;
    assert v / 2 == p * q + r;
    assert v == (2 * p) * q + (2 * r + v % 2);
    ModUnique(v, 2 * p, q, 2 * r + v % 2);
  }
}
