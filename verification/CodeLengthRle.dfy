/**
 Run-length packing of code lengths in a dynamic block header, against the
 inflater's unpacking rules (section 3.2.7 of RFC 1951). A packed sequence holds
 symbols 0 to 15 for themselves, and 16, 17, 18 each followed by a repeat field.
 */
module CodeLengthRle {
  import opened Wrappers

  const NO_PREVIOUS := 0xFF

  function Repeat(x: nat, n: nat): (r: seq<nat>)
    ensures |r| == n
  {
    seq(n, _ => x)
  }

  /** What the inflater makes of the packed symbols, having already put `out`;
      a repeat with nothing before it, or a field too wide for its bits, is refused. */
  function Unpack(packed: seq<nat>, out: seq<nat>): Option<seq<nat>> {
    if packed == [] then Some(out)
    else if packed[0] < 16 then Unpack(packed[1..], out + [packed[0]])
    else if |packed| < 2 then None
    else if packed[0] == 16 then
      if out == [] || packed[1] > 3 then None
      else Unpack(packed[2..], out + Repeat(out[|out| - 1], 3 + packed[1]))
    else if packed[0] == 17 then
      if packed[1] > 7 then None else Unpack(packed[2..], out + Repeat(0, 3 + packed[1]))
    else if packed[0] == 18 then
      if packed[1] > 127 then None else Unpack(packed[2..], out + Repeat(0, 11 + packed[1]))
    else None
  }

  /** How often a symbol is used as a symbol (not as a repeat field). */
  function Uses(packed: seq<nat>, sym: nat): nat {
    if packed == [] then 0
    else
      (if packed[0] == sym then 1 else 0)
      + (if packed[0] < 16 || |packed| < 2 then Uses(packed[1..], sym) else Uses(packed[2..], sym))
  }

  lemma {:induction false} UnpackConcat(a: seq<nat>, b: seq<nat>, out: seq<nat>)
    requires Unpack(a, out).Some?
    ensures Unpack(a + b, out) == Unpack(b, Unpack(a, out).value)
    decreases |a|
  {
    if a == [] {
      assert a + b == b;
    } else if a[0] < 16 {
      assert (a + b)[1..] == a[1..] + b;
      UnpackConcat(a[1..], b, out + [a[0]]);
    } else {
      assert (a + b)[2..] == a[2..] + b;
      if a[0] == 16 {
        UnpackConcat(a[2..], b, out + Repeat(out[|out| - 1], 3 + a[1]));
      } else if a[0] == 17 {
        UnpackConcat(a[2..], b, out + Repeat(0, 3 + a[1]));
      } else {
        UnpackConcat(a[2..], b, out + Repeat(0, 11 + a[1]));
      }
    }
  }

  lemma {:induction false} UsesConcat(a: seq<nat>, b: seq<nat>, out: seq<nat>, sym: nat)
    requires Unpack(a, out).Some?
    ensures Uses(a + b, sym) == Uses(a, sym) + Uses(b, sym)
    decreases |a|
  {
    if a == [] {
      assert a + b == b;
    } else if a[0] < 16 {
      assert (a + b)[1..] == a[1..] + b;
      UsesConcat(a[1..], b, out + [a[0]], sym);
    } else {
      assert (a + b)[2..] == a[2..] + b;
      if a[0] == 16 {
        UsesConcat(a[2..], b, out + Repeat(out[|out| - 1], 3 + a[1]), sym);
      } else if a[0] == 17 {
        UsesConcat(a[2..], b, out + Repeat(0, 3 + a[1]), sym);
      } else {
        UsesConcat(a[2..], b, out + Repeat(0, 11 + a[1]), sym);
      }
    }
  }

  lemma {:induction false} Literals(x: nat, n: nat, out: seq<nat>)
    requires x < 16
    ensures Unpack(Repeat(x, n), out) == Some(out + Repeat(x, n))
    ensures forall sym :: Uses(Repeat(x, n), sym) == if sym == x then n else 0
  {
    if n == 0 {
      assert out + Repeat(x, 0) == out;
    } else {
      assert Repeat(x, n)[1..] == Repeat(x, n - 1);
      Literals(x, n - 1, out + [x]);
      assert out + [x] + Repeat(x, n - 1) == out + Repeat(x, n);
    }
  }

  /** The packed symbols stand for `out`, are no longer than it, and are counted. */
  ghost predicate Packed(packed: seq<nat>, counts: seq<nat>, out: seq<nat>) {
    && Unpack(packed, []) == Some(out) && |packed| <= |out|
    && |counts| == 19 && forall sym :: 0 <= sym < 19 ==> counts[sym] == Uses(packed, sym)
  }

  /** Adding one chunk of symbols. */
  lemma Append(packed: seq<nat>, counts: seq<nat>, out: seq<nat>, chunk: seq<nat>, more: seq<nat>, sym: nat, n: nat)
    requires Packed(packed, counts, out) && |chunk| <= |more| && sym < 19
    requires Unpack(chunk, out) == Some(out + more)
    requires forall s :: 0 <= s < 19 ==> Uses(chunk, s) == if s == sym then n else 0
    ensures Packed(packed + chunk, counts[sym := counts[sym] + n], out + more)
  {
    UnpackConcat(packed, chunk, []);
    forall s | 0 <= s < 19
      ensures Uses(packed + chunk, s) == Uses(packed, s) + Uses(chunk, s)
    {
      UsesConcat(packed, chunk, [], s);
    }
  }

  lemma AppendLiterals(packed: seq<nat>, counts: seq<nat>, out: seq<nat>, x: nat, n: nat)
    requires Packed(packed, counts, out) && x < 16
    ensures Packed(packed + Repeat(x, n), counts[x := counts[x] + n], out + Repeat(x, n))
  {
    Literals(x, n, out);
    Append(packed, counts, out, Repeat(x, n), Repeat(x, n), x, n);
  }

  lemma AppendRun(packed: seq<nat>, counts: seq<nat>, out: seq<nat>, sym: nat, field: nat, x: nat, n: nat)
    requires Packed(packed, counts, out)
    requires (sym == 16 && field <= 3 && n == 3 + field && out != [] && x == out[|out| - 1])
             || (sym == 17 && field <= 7 && n == 3 + field && x == 0)
             || (sym == 18 && field <= 127 && n == 11 + field && x == 0)
    ensures Packed(packed + [sym, field], counts[sym := counts[sym] + 1], out + Repeat(x, n))
  {
    var chunk := [sym, field];
    assert chunk[2..] == [];
    Append(packed, counts, out, chunk, Repeat(x, n), sym, 1);
  }

  // ---- the packed form ----

  /** n zeros: chunks of 138, then one chunk for what is left, or fewer than three literals. */
  function ZeroRun(n: nat): seq<nat> {
    if n >= 138 then [18, 127] + ZeroRun(n - 138)
    else if n > 10 then [18, n - 11]
    else if n >= 3 then [17, n - 3]
    else Repeat(0, n)
  }

  /** n more of a length: chunks of six, then one chunk, or fewer than three literals. */
  function RepeatRun(x: nat, n: nat): seq<nat> {
    if n >= 6 then [16, 3] + RepeatRun(x, n - 6)
    else if n >= 3 then [16, n - 3]
    else Repeat(x, n)
  }

  /** How many of a length stand in front. */
  function Leading(lens: seq<nat>, x: nat): (r: nat)
    ensures r <= |lens| && (forall k :: 0 <= k < r ==> lens[k] == x) && (r < |lens| ==> lens[r] != x)
  {
    if lens == [] || lens[0] != x then 0 else 1 + Leading(lens[1..], x)
  }

  /** The packed form of a list, run by run: zeros in their chunks, another length once and
      then its repeats. */
  function PackedForm(lens: seq<nat>): seq<nat>
    decreases |lens|
  {
    if lens == [] then []
    else
      var n := Leading(lens, lens[0]);
      (if lens[0] == 0 then ZeroRun(n) else [lens[0]] + RepeatRun(lens[0], n - 1)) + PackedForm(lens[n..])
  }

  function RunOf(x: nat, n: nat): seq<nat> {
    if x == 0 then ZeroRun(n) else RepeatRun(x, n)
  }

  /** What is still to be put out, with n of the last length pending. */
  function ToCome(n: nat, prev: nat, rest: seq<nat>): seq<nat> {
    RunOf(prev, n + Leading(rest, prev)) + PackedForm(rest[Leading(rest, prev)..])
  }

  lemma {:induction false} SameLength(n: nat, prev: nat, rest: seq<nat>)
    requires rest != [] && rest[0] == prev
    ensures ToCome(n, prev, rest) == ToCome(n + 1, prev, rest[1..])
  {
    hide RunOf;
    hide PackedForm;
    var m := Leading(rest[1..], prev);
    assert Leading(rest, prev) == m + 1;
    assert rest[m + 1..] == rest[1..][m..];
  }

  lemma {:induction false} NewLength(n: nat, prev: nat, rest: seq<nat>)
    requires rest != [] && rest[0] != prev
    ensures ToCome(n, prev, rest)
         == RunOf(prev, n) + if rest[0] == 0 then ToCome(1, 0, rest[1..]) else [rest[0]] + ToCome(0, rest[0], rest[1..])
  {
    hide ZeroRun;
    hide RepeatRun;
    var x := rest[0];
    var m := Leading(rest[1..], x);
    assert Leading(rest, prev) == 0 && Leading(rest, x) == m + 1;
    assert rest[0..] == rest && rest[m + 1..] == rest[1..][m..];
    Associate([x], RepeatRun(x, m), PackedForm(rest[1..][m..]));
  }

  lemma {:induction false} FullChunk(prev: nat, rest: seq<nat>)
    ensures prev == 0 ==> ToCome(138, prev, rest) == [18, 127] + ToCome(0, prev, rest)
    ensures prev != 0 ==> ToCome(6, prev, rest) == [16, 3] + ToCome(0, prev, rest)
  {
    hide PackedForm;
    var m := Leading(rest, prev);
    var after := PackedForm(rest[m..]);
    if prev == 0 {
      Associate([18, 127], ZeroRun(m), after);
    } else {
      Associate([16, 3], RepeatRun(prev, m), after);
    }
  }

  lemma {:induction false} NoneToCome(n: nat, prev: nat)
    ensures ToCome(n, prev, []) == RunOf(prev, n)
  {
  }

  lemma {:induction false} AllToCome(lens: seq<nat>)
    requires forall i :: 0 <= i < |lens| ==> lens[i] < 16
    ensures ToCome(0, NO_PREVIOUS, lens) == PackedForm(lens)
  {
    hide PackedForm;
    assert Leading(lens, NO_PREVIOUS) == 0 && lens[0..] == lens;
  }

  lemma Associate(a: seq<nat>, b: seq<nat>, c: seq<nat>)
    ensures (a + b) + c == a + (b + c)
  {
  }

  // ---- the code ----

  /** Writes pending repeats of the previous length. */
  method FlushRepeats(packed: array<nat>, num0: nat, counts: array<nat>, prev: nat, repeats: nat, ghost out: seq<nat>)
    returns (num: nat)
    requires num0 + repeats <= packed.Length && packed != counts && repeats <= 6
    requires counts.Length == 19 && Packed(packed[..num0], counts[..], out)
    requires repeats > 0 ==> out != [] && prev == out[|out| - 1] < 16
    modifies packed, counts
    ensures num0 <= num <= num0 + repeats
    ensures Packed(packed[..num], counts[..], out + Repeat(prev, repeats))
    ensures packed[..num] == old(packed[..num0]) + RepeatRun(prev, repeats)
  {
    num := num0;
    if repeats == 0 {
      assert out + Repeat(prev, 0) == out;
      return;
    }
    if repeats < 3 {
      ghost var was := counts[..];
      AppendLiterals(packed[..num0], was, out, prev, repeats);
      counts[prev] := counts[prev] + repeats;
      var left := repeats;
      while left > 0
        invariant 0 <= left <= repeats && num == num0 + (repeats - left)
        invariant packed[..num0] == old(packed[..num0])
        invariant forall k :: num0 <= k < num ==> packed[k] == prev
        invariant counts[..] == was[prev := was[prev] + repeats]
      {
        packed[num] := prev;
        num := num + 1;
        left := left - 1;
      }
      assert packed[..num] == packed[..num0] + Repeat(prev, repeats);
    } else {
      assert RepeatRun(prev, 6) == [16, 3] + [];
      num := WriteRun(packed, num0, counts, 16, repeats - 3, prev, repeats, out);
    }
  }

  method WriteRun(packed: array<nat>, num0: nat, counts: array<nat>, sym: nat, field: nat, ghost x: nat, ghost n: nat,
                  ghost out: seq<nat>)
    returns (num: nat)
    requires num0 + 2 <= packed.Length && packed != counts && 16 <= sym <= 18
    requires counts.Length == 19 && Packed(packed[..num0], counts[..], out)
    requires (sym == 16 && field <= 3 && n == 3 + field && out != [] && x == out[|out| - 1])
             || (sym == 17 && field <= 7 && n == 3 + field && x == 0)
             || (sym == 18 && field <= 127 && n == 11 + field && x == 0)
    modifies packed, counts
    ensures num == num0 + 2 && Packed(packed[..num], counts[..], out + Repeat(x, n))
    ensures packed[..num] == old(packed[..num0]) + [sym, field]
  {
    ghost var was, done := counts[..], packed[..num0];
    AppendRun(done, was, out, sym, field, x, n);
    counts[sym] := counts[sym] + 1;
    packed[num0] := sym;
    packed[num0 + 1] := field;
    num := num0 + 2;
    assert packed[..num] == done + [sym, field];
    assert counts[..] == was[sym := was[sym] + 1];
  }

  /** Writes pending zeros. */
  method FlushZeros(packed: array<nat>, num0: nat, counts: array<nat>, zeros: nat, ghost out: seq<nat>)
    returns (num: nat)
    requires num0 + zeros <= packed.Length && packed != counts && zeros <= 138
    requires counts.Length == 19 && Packed(packed[..num0], counts[..], out)
    modifies packed, counts
    ensures num0 <= num <= num0 + zeros
    ensures Packed(packed[..num], counts[..], out + Repeat(0, zeros))
    ensures packed[..num] == old(packed[..num0]) + ZeroRun(zeros)
  {
    num := num0;
    if zeros == 0 {
      assert out + Repeat(0, 0) == out;
      return;
    }
    if zeros < 3 {
      ghost var was := counts[..];
      AppendLiterals(packed[..num0], was, out, 0, zeros);
      counts[0] := counts[0] + zeros;
      var left := zeros;
      while left > 0
        invariant 0 <= left <= zeros && num == num0 + (zeros - left)
        invariant packed[..num0] == old(packed[..num0])
        invariant forall k :: num0 <= k < num ==> packed[k] == 0
        invariant counts[..] == was[0 := was[0] + zeros]
      {
        packed[num] := 0;
        num := num + 1;
        left := left - 1;
      }
      assert packed[..num] == packed[..num0] + Repeat(0, zeros);
    } else if zeros <= 10 {
      num := WriteRun(packed, num0, counts, 17, zeros - 3, 0, zeros, out);
    } else {
      assert ZeroRun(138) == [18, 127] + [];
      num := WriteRun(packed, num0, counts, 18, zeros - 11, 0, zeros, out);
    }
  }

  method WriteLiteral(packed: array<nat>, num0: nat, counts: array<nat>, x: nat, ghost out: seq<nat>)
    returns (num: nat)
    requires num0 < packed.Length && packed != counts && x < 16
    requires counts.Length == 19 && Packed(packed[..num0], counts[..], out)
    modifies packed, counts
    ensures num == num0 + 1 && Packed(packed[..num], counts[..], out + [x])
    ensures packed[..num] == old(packed[..num0]) + [x]
  {
    ghost var was, done := counts[..], packed[..num0];
    AppendLiterals(done, was, out, x, 1);
    counts[x] := counts[x] + 1;
    packed[num0] := x;
    num := num0 + 1;
    assert packed[..num] == done + [x] && Repeat(x, 1) == [x];
    assert counts[..] == was[x := was[x] + 1];
  }

  /** The packer between two code lengths: what is written, and what is pending. */
  ghost predicate Pending(lens: seq<nat>, i: nat, out: seq<nat>, zeros: nat, repeats: nat, prev: nat) {
    && i <= |lens| && zeros <= 137 && repeats <= 5 && (zeros == 0 || repeats == 0)
    && lens[..i] == out + Repeat(0, zeros) + Repeat(prev, repeats)
    && prev == (if i == 0 then NO_PREVIOUS else lens[i - 1])
    && (repeats > 0 ==> out != [] && out[|out| - 1] == prev && prev > 0)
    && (zeros > 0 ==> prev == 0)
    && (zeros == 0 && i > 0 && prev > 0 ==> out != [] && out[|out| - 1] == prev)
  }

  /**
   Packs the code lengths, run by run, into their packed form. Unpacking gives back
   exactly the lengths; the packed form is never longer than they are; and the counters
   are those of its symbols.
   */
  method Pack(lens: seq<nat>, packed: array<nat>, counts: array<nat>) returns (num: nat)
    requires forall i :: 0 <= i < |lens| ==> lens[i] < 16
    requires |lens| <= packed.Length && counts.Length == 19 && packed != counts
    modifies packed, counts
    ensures num <= |lens| && packed[..num] == PackedForm(lens)
    ensures Unpack(packed[..num], []) == Some(lens)
    ensures forall sym :: 0 <= sym < 19 ==> counts[sym] == Uses(packed[..num], sym)
  {
    hide PackedForm;
    hide ToCome;
    hide ZeroRun;
    hide RepeatRun;
    hide Unpack;
    hide Uses;
    hide Packed;
    hide Pending;
    var k := 0;
    while k < 19
      invariant 0 <= k <= 19 && forall sym :: 0 <= sym < k ==> counts[sym] == 0
    {
      counts[k] := 0;
      k := k + 1;
    }
    num := 0;
    var zeros: nat, repeats: nat, prev: nat := 0, 0, NO_PREVIOUS;
    ghost var out: seq<nat> := [];
    var i := 0;
    NothingPacked(counts[..]);
    NothingPending(lens);
    assert packed[..num] == [];
    AllToCome(lens);
    assert lens[0..] == lens && [] + PackedForm(lens) == PackedForm(lens);
    while i < |lens|
      invariant 0 <= i <= |lens| && num <= |out| <= |lens|
      invariant Packed(packed[..num], counts[..], out)
      invariant Pending(lens, i, out, zeros, repeats, prev)
      invariant packed[..num] + ToCome(zeros + repeats, prev, lens[i..]) == PackedForm(lens)
    {
      if lens[i] == 0 {
        num, zeros, repeats, out := PackZero(lens, i, packed, num, counts, zeros, repeats, prev, out);
      } else {
        num, zeros, repeats, out := PackSize(lens, i, packed, num, counts, zeros, repeats, prev, out);
      }
      prev := lens[i];
      i := i + 1;
    }
    assert lens[i..] == [];
    LastPending(lens, out, zeros, repeats, prev);
    LastRun(zeros, repeats, prev);
    if repeats != 0 {
      num := FlushRepeats(packed, num, counts, prev, repeats, out);
    } else {
      num := FlushZeros(packed, num, counts, zeros, out);
    }
    AllPacked(packed[..num], counts[..], lens);
  }

  /** One zero. */
  method PackZero(lens: seq<nat>, i: nat, packed: array<nat>, num0: nat, counts: array<nat>,
                  zeros0: nat, repeats0: nat, prev: nat, ghost out0: seq<nat>)
    returns (num: nat, zeros: nat, repeats: nat, ghost out: seq<nat>)
    requires i < |lens| <= packed.Length && counts.Length == 19 && packed != counts && lens[i] == 0
    requires forall j :: 0 <= j < |lens| ==> lens[j] < 16
    requires num0 <= |out0| <= |lens| && Packed(packed[..num0], counts[..], out0)
    requires Pending(lens, i, out0, zeros0, repeats0, prev)
    modifies packed, counts
    ensures num <= |out| <= |lens| && Packed(packed[..num], counts[..], out)
    ensures Pending(lens, i + 1, out, zeros, repeats, lens[i])
    ensures packed[..num] + ToCome(zeros + repeats, lens[i], lens[i + 1..])
         == old(packed[..num0]) + ToCome(zeros0 + repeats0, prev, lens[i..])
  {
    hide ToCome;
    hide ZeroRun;
    hide RepeatRun;
    hide Packed;
    var size := lens[i];
    num, zeros, repeats, out := num0, zeros0, repeats0, out0;
    StepToCome(lens, i, zeros0, repeats0, prev);
    FullChunk(size, lens[i + 1..]);
    NoRun(prev);
    FullRuns(prev);
    ghost var after := ToCome(0, size, lens[i + 1..]);
    assert |lens[..i]| == |out0| + zeros0 + repeats0;
    assert lens[..i + 1] == lens[..i] + [size];
    num := FlushRepeats(packed, num, counts, prev, repeats, out);
    out := out + Repeat(prev, repeats);
    repeats := 0;
    zeros := zeros + 1;
    if zeros == 138 {
      num := FlushZeros(packed, num, counts, zeros, out);
      out := out + Repeat(0, zeros);
      zeros := 0;
    }
    ZeroStep(lens, i, out0, zeros0, repeats0, prev);
  }

  /** One length that is not zero. */
  method PackSize(lens: seq<nat>, i: nat, packed: array<nat>, num0: nat, counts: array<nat>,
                  zeros0: nat, repeats0: nat, prev: nat, ghost out0: seq<nat>)
    returns (num: nat, zeros: nat, repeats: nat, ghost out: seq<nat>)
    requires i < |lens| <= packed.Length && counts.Length == 19 && packed != counts && lens[i] != 0
    requires forall j :: 0 <= j < |lens| ==> lens[j] < 16
    requires num0 <= |out0| <= |lens| && Packed(packed[..num0], counts[..], out0)
    requires Pending(lens, i, out0, zeros0, repeats0, prev)
    modifies packed, counts
    ensures num <= |out| <= |lens| && Packed(packed[..num], counts[..], out)
    ensures Pending(lens, i + 1, out, zeros, repeats, lens[i])
    ensures packed[..num] + ToCome(zeros + repeats, lens[i], lens[i + 1..])
         == old(packed[..num0]) + ToCome(zeros0 + repeats0, prev, lens[i..])
  {
    hide ToCome;
    hide ZeroRun;
    hide RepeatRun;
    hide Packed;
    var size := lens[i];
    num, zeros, repeats, out := num0, zeros0, repeats0, out0;
    StepToCome(lens, i, zeros0, repeats0, prev);
    FullChunk(size, lens[i + 1..]);
    NoRun(prev);
    FullRuns(prev);
    ghost var after := ToCome(0, size, lens[i + 1..]);
    assert |lens[..i]| == |out0| + zeros0 + repeats0;
    assert lens[..i + 1] == lens[..i] + [size];
    num := FlushZeros(packed, num, counts, zeros, out);
    out := out + Repeat(0, zeros);
    zeros := 0;
    if size != prev {
      num := FlushRepeats(packed, num, counts, prev, repeats, out);
      out := out + Repeat(prev, repeats);
      repeats := 0;
      num := WriteLiteral(packed, num, counts, size, out);
      out := out + [size];
    } else {
      repeats := repeats + 1;
      if repeats == 6 {
        num := FlushRepeats(packed, num, counts, prev, repeats, out);
        out := out + Repeat(prev, repeats);
        repeats := 0;
      }
    }
    SizeStep(lens, i, out0, zeros0, repeats0, prev);
  }

  /** What one more length changes in what is to come. */
  lemma {:induction false} StepToCome(lens: seq<nat>, i: nat, zeros: nat, repeats: nat, prev: nat)
    requires i < |lens| && (zeros > 0 ==> prev == 0) && (repeats > 0 ==> prev > 0)
    ensures var x, rest, all := lens[i], lens[i + 1..], ToCome(zeros + repeats, prev, lens[i..]);
            && (x == 0 ==> all == RepeatRun(prev, repeats) + ToCome(zeros + 1, 0, rest))
            && (x != 0 && x != prev ==> all == ZeroRun(zeros) + RepeatRun(prev, repeats) + [x] + ToCome(0, x, rest))
            && (x != 0 && x == prev ==> all == ZeroRun(zeros) + ToCome(repeats + 1, x, rest))
  {
    hide ToCome;
    assert lens[i..][1..] == lens[i + 1..];
    NoRun(prev);
    if lens[i] == prev {
      SameLength(zeros + repeats, prev, lens[i..]);
    } else {
      NewLength(zeros + repeats, prev, lens[i..]);
      Associate(RunOf(prev, zeros + repeats), [lens[i]], ToCome(0, lens[i], lens[i + 1..]));
    }
  }

  lemma NothingPending(lens: seq<nat>)
    ensures Pending(lens, 0, [], 0, 0, NO_PREVIOUS)
  {
  }

  lemma LastPending(lens: seq<nat>, out: seq<nat>, zeros: nat, repeats: nat, prev: nat)
    requires Pending(lens, |lens|, out, zeros, repeats, prev) && forall i :: 0 <= i < |lens| ==> lens[i] < 16
    ensures zeros <= 137 && repeats <= 5 && (zeros > 0 ==> prev == 0) && |lens| == |out| + zeros + repeats
    ensures repeats > 0 ==> out != [] && 0 < prev == out[|out| - 1] < 16
    ensures lens == if repeats > 0 then out + Repeat(prev, repeats) else out + Repeat(0, zeros)
  {
    assert lens[..|lens|] == lens;
    assert out + Repeat(0, zeros) + Repeat(prev, 0) == out + Repeat(0, zeros);
    assert out + Repeat(0, 0) + Repeat(prev, repeats) == out + Repeat(prev, repeats);
  }

  lemma AllPacked(packed: seq<nat>, counts: seq<nat>, lens: seq<nat>)
    requires Packed(packed, counts, lens)
    ensures |packed| <= |lens| && Unpack(packed, []) == Some(lens)
    ensures |counts| == 19 && forall sym :: 0 <= sym < 19 ==> counts[sym] == Uses(packed, sym)
  {
  }

  lemma NothingPacked(counts: seq<nat>)
    requires |counts| == 19 && forall sym :: 0 <= sym < 19 ==> counts[sym] == 0
    ensures Packed([], counts, [])
  {
  }

  lemma FullRuns(x: nat)
    ensures ZeroRun(138) == [18, 127] && RepeatRun(x, 6) == [16, 3]
  {
    NoRun(x);
    assert [18, 127] + [] == [18, 127] && [16, 3] + [] == [16, 3];
  }

  lemma NoRun(x: nat)
    ensures ZeroRun(0) == [] && RepeatRun(x, 0) == []
  {
  }

  /** The pending run at the end. */
  lemma {:induction false} LastRun(zeros: nat, repeats: nat, prev: nat)
    requires (zeros > 0 ==> prev == 0) && (repeats > 0 ==> prev > 0)
    ensures ToCome(zeros + repeats, prev, []) == if repeats > 0 then RepeatRun(prev, repeats) else ZeroRun(zeros)
  {
    NoRun(prev);
    NoneToCome(zeros + repeats, prev);
  }

  lemma ZeroStep(lens: seq<nat>, i: nat, out: seq<nat>, zeros: nat, repeats: nat, prev: nat)
    requires i < |lens| && lens[i] == 0 && Pending(lens, i, out, zeros, repeats, prev)
    ensures var out1 := out + Repeat(prev, repeats);
            if zeros + 1 == 138 then Pending(lens, i + 1, out1 + Repeat(0, 138), 0, 0, 0)
            else Pending(lens, i + 1, out1, zeros + 1, 0, 0)
  {
    var out1 := out + Repeat(prev, repeats);
    assert lens[..i + 1] == lens[..i] + [0];
    assert Repeat(0, zeros + 1) == Repeat(0, zeros) + [0];
    assert lens[..i + 1] == out1 + Repeat(0, zeros + 1);
    assert out1 + Repeat(0, zeros + 1) + Repeat(0, 0) == out1 + Repeat(0, zeros + 1);
    assert (out1 + Repeat(0, 138)) + Repeat(0, 0) + Repeat(0, 0) == out1 + Repeat(0, 138);
  }

  lemma SizeStep(lens: seq<nat>, i: nat, out: seq<nat>, zeros: nat, repeats: nat, prev: nat)
    requires i < |lens| && 0 < lens[i] < 16 && Pending(lens, i, out, zeros, repeats, prev)
    ensures var x := lens[i]; var out1 := out + Repeat(0, zeros);
            if x != prev then Pending(lens, i + 1, out1 + Repeat(prev, repeats) + [x], 0, 0, x)
            else if repeats + 1 == 6 then Pending(lens, i + 1, out1 + Repeat(prev, 6), 0, 0, x)
            else Pending(lens, i + 1, out1, 0, repeats + 1, x)
  {
    var x, out1 := lens[i], out + Repeat(0, zeros);
    assert lens[..i + 1] == lens[..i] + [x];
    if x != prev {
      var o := out1 + Repeat(prev, repeats) + [x];
      assert o + Repeat(0, 0) + Repeat(x, 0) == o;
    } else {
      assert zeros == 0 && out1 == out && out1 + Repeat(0, 0) == out1;
      assert lens[..i] == out + Repeat(x, repeats);
      assert Repeat(x, repeats + 1) == Repeat(x, repeats) + [x];
      assert lens[..i + 1] == out1 + Repeat(x, repeats + 1);
      var o := out1 + Repeat(prev, 6);
      assert o + Repeat(0, 0) + Repeat(x, 0) == o;
    }
  }
}
