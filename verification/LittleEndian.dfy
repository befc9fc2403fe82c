/** Bytes as numbers, and integers stored low byte first. */
module LittleEndian {

  type Byte = b: nat | b < 256
  type Bytes = seq<Byte>

  function Pow256(w: nat): (r: nat)
    ensures r > 0
  {
    if w == 0 then 1 else 256 * Pow256(w - 1)
  }

  function LeVal(d: Bytes): nat {
    if |d| == 0 then 0 else d[0] + 256 * LeVal(d[1..])
  }

  function LeBytes(n: nat, w: nat): (r: Bytes)
    ensures |r| == w
  {
    if w == 0 then [] else [n % 256] + LeBytes(n / 256, w - 1)
  }

  lemma {:induction false} LeRoundTrip(n: nat, w: nat)
    requires n < Pow256(w)
    ensures LeVal(LeBytes(n, w)) == n
  {
    if w == 0 {
    } else {
      var r := LeBytes(n, w);
      assert r[1..] == LeBytes(n / 256, w - 1);
      LeRoundTrip(n / 256, w - 1);
    }
  }

  lemma {:induction false} LeOnto(d: Bytes)
    ensures LeVal(d) < Pow256(|d|) && LeBytes(LeVal(d), |d|) == d
  {
    if |d| == 0 {
    } else {
      LeOnto(d[1..]);
      var v := LeVal(d[1..]);
      LowByte(d[0], v);
      assert d == [d[0]] + d[1..];
    }
  }

  lemma LowByte(b: Byte, v: nat)
    ensures (b + 256 * v) % 256 == b && (b + 256 * v) / 256 == v
  {
  }

  /** Byte i of a number stored low byte first. */
  lemma {:induction false} LeByte(n: nat, w: nat, i: nat)
    requires i < w
    ensures LeBytes(n, w)[i] == n / Pow256(i) % 256
  {
    if i > 0 {
      LeByte(n / 256, w - 1, i - 1);
      DivTwice(n, Pow256(i - 1));
    }
  }

  /** Dividing by 256 and then by p is dividing by both. */
  lemma DivTwice(n: nat, p: nat)
    requires p > 0
    ensures n / 256 / p == n / (256 * p)
  {
    var m, l := n / 256, n % 256;
    var d, e := m / p, m % p;
    Euclid(m, p);
    SpreadOut(p, d, e);
    DivUnique(256 * p, d, 256 * e + l);
  }

  lemma Euclid(m: nat, p: nat)
    requires p > 0
    ensures m == p * (m / p) + m % p && m % p < p
  {
  }

  lemma SpreadOut(p: int, d: int, e: int)
    ensures 256 * (p * d + e) == (256 * p) * d + 256 * e
  {
  }

  lemma DivUnique(p: nat, q: nat, s: nat)
    requires s < p
    ensures (p * q + s) / p == q
  {
    var d := (p * q + s) / p;
    var r := (p * q + s) % p;
    assert p * q + s == p * d + r;
    if d < q {
      Further(p, d, q);
    } else if d > q {
      Further(p, q, d);
    }
  }

  lemma Further(p: nat, a: nat, b: nat)
    requires a < b
    ensures p * a + p <= p * b
  {
    var k := b - a - 1;
    Distribute(p, a, k);
    NotNegative(p, k);
  }

  lemma Distribute(p: int, a: int, k: int)
    ensures p * (a + 1 + k) == p * a + p + p * k
  {
  }

  lemma NotNegative(p: nat, k: nat)
    ensures p * k >= 0
  {
  }
}
