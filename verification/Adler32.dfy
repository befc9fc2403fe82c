/**
 Adler-32 with delayed reduction: sums are reduced once per block of 5552 bytes.
 All running sums are 32-bit; that none of them wraps is part of what is proved.
 */
module Adler32 {

  newtype uint32 = x: int | 0 <= x < 0x1_0000_0000
  newtype byte = x: int | 0 <= x < 256

  const BASE := 65521
  const BLOCK := 5552

  /** The two sums of section 8.2 of RFC 1950, reduced after every byte. */
  datatype Sums = Sums(s1: int, s2: int)

  function Step(s: Sums, x: byte): Sums {
    var a := (s.s1 + x as int) % BASE;
    Sums(a, (s.s2 + a) % BASE)
  }

  function Fold(s: Sums, data: seq<byte>): Sums {
    if data == [] then s else Step(Fold(s, data[..|data| - 1]), data[|data| - 1])
  }

  /** The value packs s2 above s1. */
  function Low(adler: uint32): (r: int)
    ensures 0 <= r < 65536
  {
    adler as int % 65536
  }

  function High(adler: uint32): (r: int)
    ensures 0 <= r < 65536
  {
    adler as int / 65536
  }

  /** The checksum of data continued from adler; an empty buffer leaves it as it is. */
  function Checksum(adler: uint32, data: seq<byte>): (r: uint32) {
    if data == [] then adler
    else
      var s := Fold(Sums(Low(adler) % BASE, High(adler) % BASE), data);
      FoldReduced(Sums(Low(adler) % BASE, High(adler) % BASE), data);
      (s.s2 * 65536 + s.s1) as uint32
  }

  lemma {:induction false} FoldReduced(s: Sums, data: seq<byte>)
    requires data != []
    ensures 0 <= Fold(s, data).s1 < BASE && 0 <= Fold(s, data).s2 < BASE
  {
  }

  // ---- the closed form ----

  function Sum(data: seq<byte>): int {
    if data == [] then 0 else data[0] as int + Sum(data[1..])
  }

  /** Each byte counted as often as there are bytes from it on. */
  function Weighted(data: seq<byte>): int {
    if data == [] then 0 else |data| * (data[0] as int) + Weighted(data[1..])
  }

  lemma {:induction false} SumsOfLast(data: seq<byte>, x: byte)
    ensures Sum(data + [x]) == Sum(data) + x as int
    ensures Weighted(data + [x]) == Weighted(data) + Sum(data) + x as int
  {
    if data == [] {
      assert data + [x] == [x] && [x][1..] == [];
    } else {
      assert (data + [x])[1..] == data[1..] + [x];
      SumsOfLast(data[1..], x);
      OnceMore(|data|, data[0] as int);
    }
  }

  lemma OnceMore(n: int, x: int)
    ensures (n + 1) * x == n * x + x
  {
  }

  lemma ModSum(a: int, b: int)
    ensures (a % 65521 + b) % 65521 == (a + b) % 65521
  {
    var q, r := a / 65521, a % 65521;
    assert a + b == 65521 * q + (r + b);
    ModWhole(q, r + b);
  }

  lemma ModWhole(q: int, r: int)
    ensures (65521 * q + r) % 65521 == r % 65521
  {
  }

  /**
   The two sums, reduced once at the end by the largest prime below 2^16: the first is that
   of the bytes, the second that of the first sums after every byte.
   */
  lemma {:induction false} ClosedForm(s: Sums, data: seq<byte>)
    requires data != []
    ensures Fold(s, data)
         == Sums((s.s1 + Sum(data)) % 65521, (s.s2 + |data| * s.s1 + Weighted(data)) % 65521)
  {
    hide Step;
    hide Sum;
    hide Weighted;
    var n := |data| - 1;
    var most, x := data[..n], data[n];
    assert data == most + [x];
    SumsOfLast(most, x);
    OnceMore(n, s.s1);
    if most == [] {
      NoSums(s.s1);
    } else {
      ClosedForm(s, most);
    }
    StepReduced(s.s1 + Sum(most), s.s2 + n * s.s1 + Weighted(most), x);
  }

  lemma NoSums(x: int)
    ensures Sum([]) == Weighted([]) == 0 * x == 0
  {
  }

  /** It does not matter whether the sums were reduced before a step. */
  lemma StepReduced(a: int, b: int, x: byte)
    ensures Step(Sums(a, b), x) == Step(Sums(a % 65521, b % 65521), x)
         == Sums((a + x as int) % 65521, (b + a + x as int) % 65521)
  {
    var c := a + x as int;
    ModSum(a, x as int);
    ModSum(b, c % 65521);
    ModSum(c, b);
  }

  lemma {:induction false} FoldConcat(s: Sums, a: seq<byte>, b: seq<byte>)
    ensures Fold(s, a + b) == Fold(Fold(s, a), b)
  {
    if b == [] {
      assert a + b == a;
    } else {
      assert (a + b)[..|a + b| - 1] == a + b[..|b| - 1];
      FoldConcat(s, a, b[..|b| - 1]);
    }
  }

  /** The checksum of a concatenation is the checksum of the second part continued
      from that of the first, whatever value it starts from. */
  lemma ChecksumConcat(adler: uint32, a: seq<byte>, b: seq<byte>)
    ensures Checksum(adler, a + b) == Checksum(Checksum(adler, a), b)
  {
    if a == [] {
      assert a + b == b;
    } else if b == [] {
      assert a + b == a;
    } else {
      var s := Sums(Low(adler) % BASE, High(adler) % BASE);
      FoldReduced(s, a);
      var t := Fold(s, a);
      Unpack(t.s1, t.s2);
      SmallMod(t.s1, t.s2);
      FoldConcat(s, a, b);
      assert Checksum(adler, a + b) == Checksum((t.s2 * 65536 + t.s1) as uint32, b);
    }
  }

  lemma Unpack(s1: int, s2: int)
    requires 0 <= s1 < BASE && 0 <= s2 < BASE
    ensures var v := (s2 * 65536 + s1) as uint32; Low(v) == s1 && High(v) == s2
  {
  }

  /** The sums before any reduction. */
  ghost function Raw(a: int, b: int, data: seq<byte>): Sums {
    if data == [] then Sums(a, b)
    else
      var s := Raw(a, b, data[..|data| - 1]);
      var s1 := s.s1 + data[|data| - 1] as int;
      Sums(s1, s.s2 + s1)
  }

  /** How large the sums of k bytes can get from 16-bit values. */
  lemma {:induction false} RawBound(a: int, b: int, data: seq<byte>)
    requires 0 <= a < 65536 && 0 <= b < 65536
    ensures var k := |data|;
            0 <= Raw(a, b, data).s1 <= 65535 + 255 * k
            && 0 <= 2 * Raw(a, b, data).s2 <= 131070 * (k + 1) + 255 * (k * (k + 1))
  {
    var k := |data|;
    if k > 0 {
      RawBound(a, b, data[..k - 1]);
      Triangle(k);
    }
  }

  lemma Triangle(k: int)
    ensures k * (k + 1) == (k - 1) * k + 2 * k
  {
  }

  lemma BlockFits(a: int, b: int, data: seq<byte>)
    requires 0 <= a < 65536 && 0 <= b < 65536 && |data| <= BLOCK
    ensures 0 <= Raw(a, b, data).s1 < 0x1_0000_0000 && 0 <= Raw(a, b, data).s2 < 0x1_0000_0000
  {
    RawBound(a, b, data);
    var k := |data|;
    SquareBound(k, BLOCK);
  }

  lemma SquareBound(k: int, m: int)
    requires 0 <= k <= m
    ensures k * (k + 1) <= m * (m + 1)
  {
    assert k * (k + 1) <= m * (k + 1) <= m * (m + 1);
  }

  /** Reducing at the end is reducing after every byte. */
  lemma {:induction false} RawIsFold(a: int, b: int, data: seq<byte>)
    requires 0 <= a && 0 <= b
    ensures var r := Raw(a, b, data); var f := Fold(Sums(a % BASE, b % BASE), data);
            r.s1 % BASE == f.s1 && r.s2 % BASE == f.s2
  {
    if data != [] {
      var init, x := data[..|data| - 1], data[|data| - 1] as int;
      RawIsFold(a, b, init);
      var r := Raw(a, b, init);
      ModAdd(r.s1, x);
      ModAdd2(r.s2, r.s1 + x);
    }
  }

  lemma ModAdd(u: int, v: int)
    ensures (u % BASE + v) % BASE == (u + v) % BASE
  {
  }

  lemma ModAdd2(u: int, v: int)
    ensures (u % BASE + v % BASE) % BASE == (u + v) % BASE
  {
  }

  /** s1 += *ptr++, s2 += s1. */
  method Add(s1: uint32, s2: uint32, data: seq<byte>, at: nat, ghost a: int, ghost b: int, ghost start: nat)
    returns (t1: uint32, t2: uint32)
    requires start <= at < |data| && at - start < BLOCK && 0 <= a < 65536 && 0 <= b < 65536
    requires Sums(s1 as int, s2 as int) == Raw(a, b, data[start..at])
    ensures Sums(t1 as int, t2 as int) == Raw(a, b, data[start..at + 1])
  {
    assert data[start..at + 1][..at - start] == data[start..at];
    BlockFits(a, b, data[start..at + 1]);
    t1 := s1 + data[at] as uint32;
    t2 := s2 + t1;
  }

  method AddEight(s1: uint32, s2: uint32, data: seq<byte>, at: nat, ghost a: int, ghost b: int, ghost start: nat)
    returns (t1: uint32, t2: uint32)
    requires start <= at && at + 8 <= |data| && at + 8 - start <= BLOCK && 0 <= a < 65536 && 0 <= b < 65536
    requires Sums(s1 as int, s2 as int) == Raw(a, b, data[start..at])
    ensures Sums(t1 as int, t2 as int) == Raw(a, b, data[start..at + 8])
  {
    t1, t2 := Add(s1, s2, data, at, a, b, start);
    t1, t2 := Add(t1, t2, data, at + 1, a, b, start);
    t1, t2 := Add(t1, t2, data, at + 2, a, b, start);
    t1, t2 := Add(t1, t2, data, at + 3, a, b, start);
    t1, t2 := Add(t1, t2, data, at + 4, a, b, start);
    t1, t2 := Add(t1, t2, data, at + 5, a, b, start);
    t1, t2 := Add(t1, t2, data, at + 6, a, b, start);
    t1, t2 := Add(t1, t2, data, at + 7, a, b, start);
  }

  method Compute(adler: uint32, data: seq<byte>) returns (r: uint32)
    ensures r == Checksum(adler, data)
  {
    var s1, s2 := adler % 65536, adler / 65536;
    var bufLen := |data|;
    var blockLen := bufLen % BLOCK;
    var at := 0;
    ghost var blocks := |data| / BLOCK;
    while bufLen > 0
      invariant 0 <= bufLen && at == |data| - bufLen && 0 <= blockLen <= BLOCK && 0 <= blocks
      invariant bufLen > 0 ==> bufLen == blockLen + blocks * BLOCK
      invariant blockLen == BLOCK || at == 0
      invariant Running(adler, data, at, s1, s2)
      decreases bufLen, BLOCK - blockLen
    {
      s1, s2 := Block(s1, s2, data, at, blockLen);
      assert data[..at + blockLen] == data[..at] + data[at..at + blockLen];
      FoldConcat(Start(adler), data[..at], data[at..at + blockLen]);
      SmallMod(s1 as int, s2 as int);
      at := at + blockLen;
      bufLen := bufLen - blockLen;
      blockLen := BLOCK;
      blocks := blocks - 1;
      if blocks < 0 {
        blocks := 0;
      }
    }
    Finish(adler, data, s1, s2);
    r := (s2 * 65536) + s1;
  }

  ghost function Start(adler: uint32): Sums {
    Sums(Low(adler) % BASE, High(adler) % BASE)
  }

  /** The sums after the first `at` bytes: reduced, unless nothing was summed yet. */
  ghost predicate Running(adler: uint32, data: seq<byte>, at: nat, s1: uint32, s2: uint32) {
    && at <= |data| && s1 < 65536 && s2 < 65536
    && Sums(s1 as int % BASE, s2 as int % BASE) == Fold(Start(adler), data[..at])
    && (at > 0 ==> s1 as int < BASE && s2 as int < BASE)
    && (data == [] ==> s1 as int == Low(adler) && s2 as int == High(adler))
  }

  lemma Finish(adler: uint32, data: seq<byte>, s1: uint32, s2: uint32)
    requires Running(adler, data, |data|, s1, s2)
    ensures s2 as int * 65536 + s1 as int == Checksum(adler, data) as int
  {
    if data == [] {
      Whole(adler as int);
    } else {
      assert data[..|data|] == data;
      SmallMod(s1 as int, s2 as int);
    }
  }

  lemma Whole(v: int)
    ensures v / 65536 * 65536 + v % 65536 == v
  {
  }

  lemma SmallMod(x: int, y: int)
    requires 0 <= x < BASE && 0 <= y < BASE
    ensures x % BASE == x && y % BASE == y
  {
  }

  /** One block: eight bytes at a time, then the rest, then one reduction. */
  method Block(a: uint32, b: uint32, data: seq<byte>, start: nat, blockLen: nat) returns (s1: uint32, s2: uint32)
    requires a < 65536 && b < 65536 && start + blockLen <= |data| && blockLen <= BLOCK
    ensures s1 as int < BASE && s2 as int < BASE
    ensures Sums(s1 as int, s2 as int)
         == Fold(Sums(a as int % BASE, b as int % BASE), data[start..start + blockLen])
  {
    s1, s2 := a, b;
    var i := 0;
    while i + 7 < blockLen
      invariant 0 <= i <= blockLen
      invariant Sums(s1 as int, s2 as int) == Raw(a as int, b as int, data[start..start + i])
    {
      s1, s2 := AddEight(s1, s2, data, start + i, a as int, b as int, start);
      i := i + 8;
    }
    while i < blockLen
      invariant 0 <= i <= blockLen
      invariant Sums(s1 as int, s2 as int) == Raw(a as int, b as int, data[start..start + i])
    {
      s1, s2 := Add(s1, s2, data, start + i, a as int, b as int, start);
      i := i + 1;
    }
    RawIsFold(a as int, b as int, data[start..start + blockLen]);
    s1 := s1 % 65521;
    s2 := s2 % 65521;
  }
}
