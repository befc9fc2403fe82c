/** The two passes as they move over the input, and the parse that runs one after the other. */
module PapiPasses {
  import opened Wrappers
  import opened LittleEndian
  import opened Papi
  import opened PapiOverrun

  // ---- sizing ----

  /** The value of a loop's result when some of it is already added up. */
  function Plus(size: nat, rest: Measured): Measured {
    if rest.Sized? then Sized(size + rest.size, rest.pos, rest.strs) else rest
  }

  class Sizer {
    const d: Bytes
    var pos: nat
    var left: nat
    var strs: nat

    ghost predicate Valid()
      reads this
    {
      pos + left == |d|
    }

    constructor (input: Bytes)
      ensures Valid() && d == input && pos == 0 && strs == 0
    {
      d := input;
      pos, left, strs := 0, |input|, 0;
    }

    method Skip(n: nat)
      requires Valid() && n <= left
      modifies this
      ensures Valid() && pos == old(pos) + n && strs == old(strs)
    {
      pos, left := pos + n, left - n;
    }

    /** calc_ret_len, on input that does not end right behind an opening tag. */
    method CalcRetLen() returns (r: int)
      requires Valid() && !Measure(d, pos, strs).Overrun?
      modifies this
      ensures Valid() && pos >= old(pos)
      ensures var m := Measure(d, old(pos), old(strs));
              if m.Sized? then r == m.size && pos == m.pos && strs == m.strs else r == -1
      decreases left, 1
    {
      hide LeVal;
      hide Padded;
      if left < 1 {
        return -1;
      }
      var kind := KindOf(d[pos]);
      Skip(1);
      match kind
      case ShortStr(len) => r := SizeString(len);
      case LongStr(l) =>
        if left < l {
          return -1;
        }
        var len := LeVal(d[pos..pos + l]);
        Skip(l);
        r := SizeString(len);
      case ShortRef(id) => r := if id < strs then 0 else -1;
      case LongRef(l) =>
        if left < l {
          return -1;
        }
        var id := LeVal(d[pos..pos + l]);
        Skip(l);
        r := if id < strs then 0 else -1;
      case WideNum(l) =>
        if left < l {
          return -1;
        }
        Skip(l);
        r := NODE;
      case SmallNum(_) => r := 0;
      case Truth(_) => r := 0;
      case ArrayTag => r := SizeArray();
      case HashTag => r := SizeHash();
      case DataTag =>
        if left < 8 {
          return -1;
        }
        Skip(8);
        r := NODE;
      case Unknown => r := -1;
    }

    method SizeString(len: nat) returns (r: int)
      requires Valid()
      modifies this
      ensures Valid() && pos >= old(pos)
      ensures if len <= old(left) then r == HEAD + Padded(len) && pos == old(pos) + len && strs == old(strs) + 1 else r == -1
    {
      if left < len {
        return -1;
      }
      Skip(len);
      strs := strs + 1;
      r := HEAD + Padded(len);
    }

    method SizeArray() returns (r: int)
      requires Valid() && !MeasureItems(d, pos, strs).Overrun?
      modifies this
      ensures Valid() && pos >= old(pos)
      ensures var m := MeasureItems(d, old(pos), old(strs));
              if m.Sized? then r == NODE + m.size && pos == m.pos && strs == m.strs else r == -1
      decreases left, 2
    {
      hide Measure;
      var ret, cnt: nat := NODE, 0;
      ghost var whole := MeasureItems(d, pos, strs);
      while d[pos] != END
        invariant Valid() && pos >= old(pos) && left > 0 && ret >= NODE
        invariant whole == Plus(ret - NODE + SLOT * cnt, MeasureItems(d, pos, strs))
        decreases left
      {
        var item := CalcRetLen();
        if item == -1 {
          return -1;
        }
        ret, cnt := ret + item, cnt + 1;
        if left < 1 {
          return -1;
        }
      }
      Skip(1);
      r := ret + SLOT * cnt;
    }

    method SizeHash() returns (r: int)
      requires Valid() && !MeasurePairs(d, pos, strs).Overrun?
      modifies this
      ensures Valid() && pos >= old(pos)
      ensures var m := MeasurePairs(d, old(pos), old(strs));
              if m.Sized? then r == NODE + m.size && pos == m.pos && strs == m.strs else r == -1
      decreases left, 2
    {
      hide Measure;
      var ret, cnt: nat := NODE, 0;
      ghost var whole := MeasurePairs(d, pos, strs);
      while d[pos] != END
        invariant Valid() && pos >= old(pos) && left > 0 && ret >= NODE
        invariant whole == Plus(ret - NODE + PAIR * cnt, MeasurePairs(d, pos, strs))
        decreases left
      {
        var key := CalcRetLen();
        if key == -1 {
          return -1;
        }
        var value := CalcRetLen();
        if value == -1 {
          return -1;
        }
        ret, cnt := ret + key + value, cnt + 1;
        if left < 1 {
          return -1;
        }
      }
      Skip(1);
      r := ret + PAIR * cnt;
    }
  }

  // ---- building ----

  /** Strings are only ever added. */
  lemma {:induction false} BuildGrows(d: Bytes, pos: nat, strings: seq<Value>)
    ensures var b := Build(d, pos, strings); b.Built? ==> |strings| <= |b.strings|
    decreases |d| - pos, 0
  {
    if pos < |d| {
      match KindOf(d[pos])
      case ArrayTag => ItemsGrow(d, pos + 1, strings);
      case HashTag => PairsGrow(d, pos + 1, strings);
      case _ =>
    }
  }

  lemma {:induction false} ItemsGrow(d: Bytes, pos: nat, strings: seq<Value>)
    ensures var b := BuildItems(d, pos, strings); b.Built? ==> |strings| <= |b.strings|
    decreases |d| - pos, 1
  {
    hide Build;
    if pos < |d| && d[pos] != END {
      var r := Build(d, pos, strings);
      BuildGrows(d, pos, strings);
      if r.Built? {
        ItemsGrow(d, r.pos, r.strings);
      }
    }
  }

  lemma {:induction false} PairsGrow(d: Bytes, pos: nat, strings: seq<Value>)
    ensures var b := BuildPairs(d, pos, strings); b.Built? ==> |strings| <= |b.strings|
    decreases |d| - pos, 1
  {
    hide Build;
    if pos < |d| && d[pos] != END {
      var k := Build(d, pos, strings);
      BuildGrows(d, pos, strings);
      if k.Built? {
        var v := Build(d, k.pos, k.strings);
        BuildGrows(d, k.pos, k.strings);
        if v.Built? {
          PairsGrow(d, v.pos, v.strings);
        }
      }
    }
  }

  /** A loop's result when its first part is already built. */
  function After<T>(v: seq<T>, out: nat, dropped: nat, rest: Building<seq<T>>): Building<seq<T>> {
    if rest.Built? then Built(v + rest.v, rest.pos, out + rest.out, rest.strings, dropped + rest.dropped) else Undefined
  }

  lemma AfterNone<T>(rest: Building<seq<T>>)
    ensures After([], 0, 0, rest) == rest
  {
    if rest.Built? {
      assert [] + rest.v == rest.v;
    }
  }

  lemma AfterMore<T>(v: seq<T>, w: seq<T>, rest: Building<seq<T>>, out: nat, dropped: nat, out2: nat, dropped2: nat)
    ensures After(v, out, dropped, After(w, out2, dropped2, rest)) == After(v + w, out + out2, dropped + dropped2, rest)
  {
    if rest.Built? {
      assert v + (w + rest.v) == (v + w) + rest.v;
    }
  }

  class Builder {
    const d: Bytes
    const strings: array<Value>
    var pos: nat
    var out: nat
    var next: nat

    constructor (input: Bytes, slots: nat)
      ensures d == input && strings.Length == slots && pos == 0 && out == 0 && next == 0 && fresh(strings)
    {
      d := input;
      strings := new Value[slots](i => Num(0));
      pos, out, next := 0, 0, 0;
    }

    function Filled(): (r: seq<Value>)
      requires next <= strings.Length
      reads this, strings
      ensures |r| == next
    {
      strings[..next]
    }

    /** What the rest of the input builds fits into the string slots. */
    ghost predicate Ready<T>(b: Building<T>)
      reads this
    {
      next <= strings.Length && b.Built? && |b.strings| <= strings.Length
    }

    twostate predicate Became<T>(b: Building<T>, bytes: nat)
      reads this, strings
    {
      b.Built? && pos == b.pos && out == old(out) + bytes && next <= strings.Length && Filled() == b.strings
    }

    /** do_parse_result, on input the sizing pass has accepted. */
    method DoParseResult() returns (v: Value)
      requires next <= strings.Length && Ready(Build(d, pos, Filled()))
      modifies this, strings
      ensures var b := old(Build(d, pos, Filled())); Became(b, b.out) && v == b.v
      decreases |d| - pos, 1
    {
      hide LeVal;
      hide Padded;
      hide KindOf;
      hide BuildItems;
      hide BuildPairs;
      var kind := KindOf(d[pos]);
      pos := pos + 1;
      match kind
      case ShortStr(len) => v := BuildString(len);
      case LongStr(l) =>
        var len := LeVal(d[pos..pos + l]);
        pos := pos + l;
        v := BuildString(len);
      case ShortRef(id) => v := strings[id];
      case LongRef(l) =>
        var id := LeVal(d[pos..pos + l]);
        pos := pos + l;
        v := strings[id];
      case WideNum(l) =>
        out := out + NODE;
        v := Num(LeVal(d[pos..pos + l]));
        pos := pos + l;
      case SmallNum(n) => v := Num(n);
      case Truth(b) => v := Bool(b);
      case ArrayTag => v := BuildArray();
      case HashTag => v := BuildHash();
      case DataTag =>
        out := out + NODE;
        v := Data(LeVal(d[pos..pos + 8]));
        pos := pos + 8;
    }

    method BuildString(len: nat) returns (v: Value)
      requires pos + len <= |d| && next < strings.Length
      modifies this, strings
      ensures v == Str(d[old(pos)..old(pos) + len])
      ensures pos == old(pos) + len && out == old(out) + HEAD + Padded(len)
      ensures next == old(next) + 1 && strings[..next] == old(strings[..next]) + [v]
    {
      v := Str(d[pos..pos + len]);
      out := out + HEAD;
      strings[next] := v;
      next := next + 1;
      out := out + Padded(len);
      pos := pos + len;
    }

    method BuildArray() returns (v: Value)
      requires next <= strings.Length && Ready(BuildItems(d, pos, Filled()))
      modifies this, strings
      ensures var b := old(BuildItems(d, pos, Filled()));
              Became(b, NODE + b.out + SLOT * |b.v|) && v == Arr(b.v)
      decreases |d| - pos, 2
    {
      hide Build;
      ghost var whole, start := BuildItems(d, pos, Filled()), out + NODE;
      out := out + NODE;
      var items: seq<Value> := [];
      ghost var dropped: nat := 0;
      ItemsGrow(d, pos, Filled());
      AfterNone(whole);
      while d[pos] != END
        invariant pos >= old(pos) && out >= start && next <= strings.Length && pos < |d|
        invariant Ready(BuildItems(d, pos, Filled()))
        invariant whole == After(items, out - start, dropped, BuildItems(d, pos, Filled()))
        decreases |d| - pos
      {
        ghost var r := Build(d, pos, Filled());
        ItemsGrow(d, r.pos, r.strings);
        AfterMore(items, [r.v], BuildItems(d, r.pos, r.strings), out - start, dropped, r.out, r.dropped);
        dropped := dropped + r.dropped;
        var item := DoParseResult();
        items := items + [item];
      }
      pos := pos + 1;
      out := out + SLOT * |items|;
      v := Arr(items);
    }

    method BuildHash() returns (v: Value)
      requires next <= strings.Length && Ready(BuildPairs(d, pos, Filled()))
      modifies this, strings
      ensures var b := old(BuildPairs(d, pos, Filled()));
              Became(b, NODE + b.out + PAIR * |b.v|) && v == Hash(b.v)
      decreases |d| - pos, 2
    {
      hide Build;
      ghost var whole, start := BuildPairs(d, pos, Filled()), out + NODE;
      out := out + NODE;
      var entries: seq<Entry> := [];
      ghost var dropped: nat := 0;
      PairsGrow(d, pos, Filled());
      AfterNone(whole);
      while d[pos] != END
        invariant pos >= old(pos) && out >= start && next <= strings.Length && pos < |d|
        invariant Ready(BuildPairs(d, pos, Filled()))
        invariant whole == After(entries, out - start, dropped, BuildPairs(d, pos, Filled()))
        decreases |d| - pos
      {
        ghost var k := Build(d, pos, Filled());
        ghost var r := Build(d, k.pos, k.strings);
        BuildGrows(d, k.pos, k.strings);
        PairsGrow(d, r.pos, r.strings);
        ghost var entry := if k.v.Str? then [Entry(k.v.s, r.v)] else [];
        ghost var left := k.dropped + r.dropped + (if k.v.Str? then 0 else 1);
        AfterMore(entries, entry, BuildPairs(d, r.pos, r.strings), out - start, dropped, k.out + r.out, left);
        dropped := dropped + left;
        var key := DoParseResult();
        var value := DoParseResult();
        if key.Str? {
          entries := entries + [Entry(key.s, value)];
        }
        assert key.Str? || entries + [] == entries;
      }
      pos := pos + 1;
      out := out + PAIR * |entries|;
      v := Hash(entries);
    }
  }

  /** parse_result: the sizing pass, room for what it counted, and the building pass,
      which never needs more. The input must not break off right behind an opening tag;
      any input whose last byte is neither 16 nor 17 will do. */
  method ParseResult(input: Bytes) returns (res: Option<Value>)
    requires !BreaksOff(input)
    ensures var b := Build(input, 0, []);
            if Measure(input, 0, 0).Sized? then b.Built? && res == Some(b.v) else res == None
  {
    hide BreaksOff;
    OverrunExactly(input);
    var sizer := new Sizer(input);
    var size := sizer.CalcRetLen();
    if size == -1 {
      return None;
    }
    var builder := new Builder(input, sizer.strs);
    assert builder.Filled() == [];
    PassesAgree(input, 0, []);
    OutputFits(input);
    var v := builder.DoParseResult();
    assert builder.out <= size && builder.next == sizer.strs;
    res := Some(v);
  }
}
