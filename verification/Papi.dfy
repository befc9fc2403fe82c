/**
 The binary result format: tagged values, nested arrays and hashes closed by an end
 byte, strings that can be referred to again by their number. One pass over the input
 computes the memory the result needs, a second one builds it.
 */
module Papi {
  import opened LittleEndian

  // ---- tags ----

  const END: Byte := 255

  datatype Kind =
    | ShortStr(len: nat)
    | LongStr(width: nat)
    | ShortRef(id: nat)
    | LongRef(width: nat)
    | WideNum(width: nat)
    | SmallNum(n: nat)
    | Truth(b: bool)
    | ArrayTag
    | HashTag
    | DataTag
    | Unknown

  function KindOf(t: Byte): (k: Kind)
    ensures k.LongStr? || k.LongRef? ==> 1 <= k.width <= 4
    ensures k.WideNum? ==> 1 <= k.width <= 8
    ensures k.ShortStr? ==> k.len < 50
  {
    if 100 <= t < 150 then ShortStr(t - 100)
    else if t <= 3 then LongStr(t + 1)
    else if 4 <= t <= 7 then LongRef(t - 3)
    else if 150 <= t < 200 then ShortRef(t - 150)
    else if 8 <= t <= 15 then WideNum(t - 7)
    else if 200 <= t < 220 then SmallNum(t - 200)
    else if t == 18 then Truth(false)
    else if t == 19 then Truth(true)
    else if t == 17 then ArrayTag
    else if t == 16 then HashTag
    else if t == 20 then DataTag
    else Unknown
  }

  /** The tag of a kind. */
  function TagOf(k: Kind): (t: Byte)
    requires k.ShortStr? ==> k.len < 50
    requires k.LongStr? || k.LongRef? ==> 1 <= k.width <= 4
    requires k.ShortRef? ==> k.id < 50
    requires k.WideNum? ==> 1 <= k.width <= 8
    requires k.SmallNum? ==> k.n < 20
    requires !k.Unknown?
    ensures KindOf(t) == k && t != END
  {
    match k
    case ShortStr(len) => 100 + len
    case LongStr(w) => w - 1
    case ShortRef(id) => 150 + id
    case LongRef(w) => 3 + w
    case WideNum(w) => 7 + w
    case SmallNum(n) => 200 + n
    case Truth(b) => if b then 19 else 18
    case ArrayTag => 17
    case HashTag => 16
    case DataTag => 20
  }

  // ---- the sizing pass ----

  const NODE := 16      // sizeof(binresult)
  const HEAD := 8       // offsetof(binresult, str)
  const SLOT := 8       // sizeof(binresult *)
  const PAIR := 16      // sizeof(hashpair)

  /** Room for a string and its terminator, in whole units of eight bytes. */
  function Padded(len: nat): (r: nat)
    ensures len < r <= len + 8 && r % 8 == 0
  {
    (len + 8) / 8 * 8
  }

  /** Bad is the result -1; Overrun is a test of a byte behind the input. */
  datatype Measured = Sized(size: nat, pos: nat, strs: nat) | Bad | Overrun

  function Measure(d: Bytes, pos: nat, strs: nat): (r: Measured)
    ensures r.Sized? ==> pos < r.pos <= |d| && strs <= r.strs
    decreases |d| - pos, 0
  {
    if pos >= |d| then Bad
    else
      var p := pos + 1;
      var left := |d| - p;
      match KindOf(d[pos])
      case ShortStr(len) => if left < len then Bad else Sized(HEAD + Padded(len), p + len, strs + 1)
      case LongStr(l) =>
        if left < l then Bad
        else
          var len := LeVal(d[p..p + l]);
          if left - l < len then Bad else Sized(HEAD + Padded(len), p + l + len, strs + 1)
      case ShortRef(id) => if id < strs then Sized(0, p, strs) else Bad
      case LongRef(l) =>
        if left < l then Bad else if LeVal(d[p..p + l]) < strs then Sized(0, p + l, strs) else Bad
      case WideNum(l) => if left < l then Bad else Sized(NODE, p + l, strs)
      case SmallNum(_) => Sized(0, p, strs)
      case Truth(_) => Sized(0, p, strs)
      case ArrayTag =>
        var r := MeasureItems(d, p, strs);
        if r.Sized? then Sized(NODE + r.size, r.pos, r.strs) else r
      case HashTag =>
        var r := MeasurePairs(d, p, strs);
        if r.Sized? then Sized(NODE + r.size, r.pos, r.strs) else r
      case DataTag => if left < 8 then Bad else Sized(NODE, p + 8, strs)
      case Unknown => Bad
  }

  /** The loop over an array: the end byte is looked for before the length is tested. */
  function MeasureItems(d: Bytes, pos: nat, strs: nat): (r: Measured)
    ensures r.Sized? ==> pos < r.pos <= |d| && strs <= r.strs
    decreases |d| - pos, 1
  {
    if pos >= |d| then Overrun
    else if d[pos] == END then Sized(0, pos + 1, strs)
    else
      var r := Measure(d, pos, strs);
      if !r.Sized? then r
      else if r.pos == |d| then Bad
      else
        var rest := MeasureItems(d, r.pos, r.strs);
        if rest.Sized? then Sized(r.size + SLOT + rest.size, rest.pos, rest.strs) else rest
  }

  function MeasurePairs(d: Bytes, pos: nat, strs: nat): (r: Measured)
    ensures r.Sized? ==> pos < r.pos <= |d| && strs <= r.strs
    decreases |d| - pos, 1
  {
    if pos >= |d| then Overrun
    else if d[pos] == END then Sized(0, pos + 1, strs)
    else
      var k := Measure(d, pos, strs);
      if !k.Sized? then k
      else
        var v := Measure(d, k.pos, k.strs);
        if !v.Sized? then v
        else if v.pos == |d| then Bad
        else
          var rest := MeasurePairs(d, v.pos, v.strs);
          if rest.Sized? then Sized(k.size + v.size + PAIR + rest.size, rest.pos, rest.strs) else rest
  }

  /** The sizes in bytes: 16 for a number that does not fit its tag, none for one that
      does, and for a string 8 and the string with its terminator in units of 8. */
  lemma SizesOfOne(d: Bytes, strs: nat)
    requires d != []
    ensures d[0] == 8 && |d| >= 2 ==> Measure(d, 0, strs) == Sized(16, 2, strs)
    ensures 200 <= d[0] < 220 ==> Measure(d, 0, strs) == Sized(0, 1, strs)
    ensures 100 <= d[0] < 150 && |d| > d[0] - 100 ==>
              Measure(d, 0, strs) == Sized(8 + (d[0] - 100 + 8) / 8 * 8, d[0] - 99, strs + 1)
  {
  }

  /** An array takes 16 bytes and 8 for each item, a hash 16 and 16 for each pair. */
  lemma {:induction false} SizesOfMany(d: Bytes)
    requires d == [17, 200, 255] || d == [16, 200, 201, 255]
    ensures Measure(d, 0, 0) == if d[0] == 17 then Sized(16 + 8, 3, 0) else Sized(16 + 16, 4, 0)
  {
    if d[0] == 17 {
      NoMore(d, 2);
      OneItem(d, 1, 0);
    } else {
      NoMore(d, 3);
      OnePair(d, 1, 0);
    }
  }

  lemma OneItem(d: Bytes, pos: nat, strs: nat)
    requires pos + 1 < |d| && d[pos] == 200 && MeasureItems(d, pos + 1, strs).Sized?
    ensures var rest := MeasureItems(d, pos + 1, strs);
            MeasureItems(d, pos, strs) == Sized(8 + rest.size, rest.pos, rest.strs)
  {
    hide MeasurePairs;
    assert Measure(d, pos, strs) == Sized(0, pos + 1, strs);
  }

  lemma OnePair(d: Bytes, pos: nat, strs: nat)
    requires pos + 2 < |d| && d[pos] == 200 && d[pos + 1] == 201 && MeasurePairs(d, pos + 2, strs).Sized?
    ensures var rest := MeasurePairs(d, pos + 2, strs);
            MeasurePairs(d, pos, strs) == Sized(16 + rest.size, rest.pos, rest.strs)
  {
    hide MeasureItems;
    assert Measure(d, pos, strs) == Sized(0, pos + 1, strs);
    assert Measure(d, pos + 1, strs) == Sized(0, pos + 2, strs);
  }

  lemma NoMore(d: Bytes, pos: nat)
    requires pos < |d| && d[pos] == 255
    ensures MeasureItems(d, pos, 0) == MeasurePairs(d, pos, 0) == Sized(0, pos + 1, 0)
  {
  }

  // ---- the building pass ----

  datatype Entry = Entry(key: Bytes, value: Value)

  datatype Value =
    | Str(s: Bytes)
    | Num(n: nat)
    | Bool(b: bool)
    | Arr(items: seq<Value>)
    | Hash(entries: seq<Entry>)
    | Data(n: nat)

  /** The value built, the bytes of output it took, the strings so far, and how many hash
      pairs were left out. Undefined is a read outside the input, of a string slot that
      is not filled yet, or of the null result for an unknown tag. */
  datatype Building<T> = Built(v: T, pos: nat, out: nat, strings: seq<Value>, dropped: nat) | Undefined

  function Build(d: Bytes, pos: nat, strings: seq<Value>): (r: Building<Value>)
    ensures r.Built? ==> pos < r.pos <= |d|
    decreases |d| - pos, 0
  {
    if pos >= |d| then Undefined
    else
      var p := pos + 1;
      var left := |d| - p;
      match KindOf(d[pos])
      case ShortStr(len) => if left < len then Undefined else BuildStr(d, p, len, strings)
      case LongStr(l) =>
        if left < l || left - l < LeVal(d[p..p + l]) then Undefined
        else BuildStr(d, p + l, LeVal(d[p..p + l]), strings)
      case ShortRef(id) => if id < |strings| then Built(strings[id], p, 0, strings, 0) else Undefined
      case LongRef(l) =>
        if left < l || LeVal(d[p..p + l]) >= |strings| then Undefined
        else Built(strings[LeVal(d[p..p + l])], p + l, 0, strings, 0)
      case WideNum(l) => if left < l then Undefined else Built(Num(LeVal(d[p..p + l])), p + l, NODE, strings, 0)
      case SmallNum(n) => Built(Num(n), p, 0, strings, 0)
      case Truth(b) => Built(Bool(b), p, 0, strings, 0)
      case ArrayTag =>
        var r := BuildItems(d, p, strings);
        if r.Undefined? then Undefined
        else Built(Arr(r.v), r.pos, NODE + r.out + SLOT * |r.v|, r.strings, r.dropped)
      case HashTag =>
        var r := BuildPairs(d, p, strings);
        if r.Undefined? then Undefined
        else Built(Hash(r.v), r.pos, NODE + r.out + PAIR * |r.v|, r.strings, r.dropped)
      case DataTag => if left < 8 then Undefined else Built(Data(LeVal(d[p..p + 8])), p + 8, NODE, strings, 0)
      case Unknown => Undefined
  }

  function BuildStr(d: Bytes, p: nat, len: nat, strings: seq<Value>): (r: Building<Value>)
    requires p + len <= |d|
    ensures r.Built? && r.pos == p + len
  {
    var v := Str(d[p..p + len]);
    Built(v, p + len, HEAD + Padded(len), strings + [v], 0)
  }

  function BuildItems(d: Bytes, pos: nat, strings: seq<Value>): (r: Building<seq<Value>>)
    ensures r.Built? ==> pos < r.pos <= |d|
    decreases |d| - pos, 1
  {
    if pos >= |d| then Undefined
    else if d[pos] == END then Built([], pos + 1, 0, strings, 0)
    else
      var r := Build(d, pos, strings);
      if r.Undefined? then Undefined
      else
        var rest := BuildItems(d, r.pos, r.strings);
        if rest.Undefined? then Undefined
        else Built([r.v] + rest.v, rest.pos, r.out + rest.out, rest.strings, r.dropped + rest.dropped)
  }

  /** A pair whose key is not a string is read and left out. */
  function BuildPairs(d: Bytes, pos: nat, strings: seq<Value>): (r: Building<seq<Entry>>)
    ensures r.Built? ==> pos < r.pos <= |d|
    decreases |d| - pos, 1
  {
    if pos >= |d| then Undefined
    else if d[pos] == END then Built([], pos + 1, 0, strings, 0)
    else
      var k := Build(d, pos, strings);
      if k.Undefined? then Undefined
      else
        var v := Build(d, k.pos, k.strings);
        if v.Undefined? then Undefined
        else
          var rest := BuildPairs(d, v.pos, v.strings);
          if rest.Undefined? then Undefined
          else if k.v.Str? then
            Built([Entry(k.v.s, v.v)] + rest.v, rest.pos, k.out + v.out + rest.out, rest.strings,
                  k.dropped + v.dropped + rest.dropped)
          else
            Built(rest.v, rest.pos, k.out + v.out + rest.out, rest.strings, k.dropped + v.dropped + rest.dropped + 1)
  }

  // ---- the passes agree ----

  ghost predicate Agree<T>(m: Measured, b: Building<T>, extra: nat) {
    && m.Sized? && b.Built? && b.pos == m.pos && |b.strings| == m.strs
    && m.size == b.out + extra + PAIR * b.dropped
  }

  /**
   On every input the sizing pass accepts, the building pass is defined, stops at the
   same place, fills exactly the counted string slots, refers only to strings it has
   built, and takes the computed size less 16 bytes for each pair left out.
   */
  lemma {:induction false} PassesAgree(d: Bytes, pos: nat, strings: seq<Value>)
    requires Measure(d, pos, |strings|).Sized?
    ensures Agree(Measure(d, pos, |strings|), Build(d, pos, strings), 0)
    decreases |d| - pos, 0
  {
    hide KindOf;
    hide LeVal;
    hide Padded;
    hide MeasureItems;
    hide MeasurePairs;
    hide BuildItems;
    hide BuildPairs;
    match KindOf(d[pos])
    case ArrayTag => ItemsAgree(d, pos + 1, strings);
    case HashTag => PairsAgree(d, pos + 1, strings);
    case _ =>
  }

  lemma {:induction false} ItemsAgree(d: Bytes, pos: nat, strings: seq<Value>)
    requires MeasureItems(d, pos, |strings|).Sized?
    ensures BuildItems(d, pos, strings).Built?
    ensures Agree(MeasureItems(d, pos, |strings|), BuildItems(d, pos, strings), SLOT * |BuildItems(d, pos, strings).v|)
    decreases |d| - pos, 1
  {
    if d[pos] == END {
    } else {
      PassesAgree(d, pos, strings);
      var r := Build(d, pos, strings);
      ItemsAgree(d, r.pos, r.strings);
    }
  }

  lemma {:induction false} PairsAgree(d: Bytes, pos: nat, strings: seq<Value>)
    requires MeasurePairs(d, pos, |strings|).Sized?
    ensures BuildPairs(d, pos, strings).Built?
    ensures Agree(MeasurePairs(d, pos, |strings|), BuildPairs(d, pos, strings), PAIR * |BuildPairs(d, pos, strings).v|)
    decreases |d| - pos, 1
  {
    if d[pos] == END {
    } else {
      PassesAgree(d, pos, strings);
      var k := Build(d, pos, strings);
      PassesAgree(d, k.pos, k.strings);
      var v := Build(d, k.pos, k.strings);
      PairsAgree(d, v.pos, v.strings);
    }
  }

  /** The output always fits, and fills its block exactly when no pair was left out. */
  lemma {:induction false} OutputFits(d: Bytes)
    requires Measure(d, 0, 0).Sized?
    ensures var m, b := Measure(d, 0, 0), Build(d, 0, []);
            && b.Built? && b.out <= m.size && |b.strings| == m.strs
            && (b.out == m.size <==> b.dropped == 0)
  {
    PassesAgree(d, 0, []);
  }
}
