/**
 The one way the sizing pass looks at a byte it was not given: the loops over arrays and
 hashes look for their end byte before they test the length. The inputs on which they
 do so are those that break off right behind an opening tag.
 */
module PapiOverrun {
  import opened LittleEndian
  import opened Papi
  import opened PapiGrammar

  // ---- inputs that break off behind an opening tag ----

  /** A document that breaks off: arrays and hashes that are not closed, each inside the
      one before, with whole documents in front and an opening tag at the end. */
  datatype Open =
    | ArrStart
    | HashStart
    | InArr(items: OpenItems)
    | InHash(pairs: OpenPairs)

  datatype OpenItems = LastItem(item: Open) | ItemThen(first: Doc, rest: OpenItems)
  datatype OpenPairs = LastKey(key: Open) | LastValue(named: Doc, value: Open) | PairThen(k: Doc, v: Doc, rest: OpenPairs)

  predicate LegalOpen(o: Open, strs: nat) {
    match o
    case ArrStart => true
    case HashStart => true
    case InArr(items) => LegalOpenItems(items, strs)
    case InHash(pairs) => LegalOpenPairs(pairs, strs)
  }

  predicate LegalOpenItems(items: OpenItems, strs: nat) {
    match items
    case LastItem(item) => LegalOpen(item, strs)
    case ItemThen(first, rest) => Legal(first, strs) && LegalOpenItems(rest, strs + Strs(first))
  }

  predicate LegalOpenPairs(pairs: OpenPairs, strs: nat) {
    match pairs
    case LastKey(key) => LegalOpen(key, strs)
    case LastValue(key, value) => Legal(key, strs) && LegalOpen(value, strs + Strs(key))
    case PairThen(key, value, rest) =>
      && Legal(key, strs) && Legal(value, strs + Strs(key))
      && LegalOpenPairs(rest, strs + Strs(key) + Strs(value))
  }

  function EncodeOpen(o: Open, strs: nat): (r: Bytes)
    requires LegalOpen(o, strs)
    ensures |r| > 0 && r[0] != END
  {
    match o
    case ArrStart => [TagOf(ArrayTag)]
    case HashStart => [TagOf(HashTag)]
    case InArr(items) => [TagOf(ArrayTag)] + EncodeOpenItems(items, strs)
    case InHash(pairs) => [TagOf(HashTag)] + EncodeOpenPairs(pairs, strs)
  }

  function EncodeOpenItems(items: OpenItems, strs: nat): (r: Bytes)
    requires LegalOpenItems(items, strs)
    ensures |r| > 0 && r[0] != END
  {
    match items
    case LastItem(item) => EncodeOpen(item, strs)
    case ItemThen(first, rest) => Encode(first, strs) + EncodeOpenItems(rest, strs + Strs(first))
  }

  function EncodeOpenPairs(pairs: OpenPairs, strs: nat): (r: Bytes)
    requires LegalOpenPairs(pairs, strs)
    ensures |r| > 0 && r[0] != END
  {
    match pairs
    case LastKey(key) => EncodeOpen(key, strs)
    case LastValue(key, value) => Encode(key, strs) + EncodeOpen(value, strs + Strs(key))
    case PairThen(key, value, rest) =>
      Encode(key, strs)
      + (Encode(value, strs + Strs(key)) + EncodeOpenPairs(rest, strs + Strs(key) + Strs(value)))
  }

  // ---- each of them makes the sizing pass look behind the input ----

  /** The rest of the input from pos on. */
  predicate Ends(d: Bytes, pos: nat, b: Bytes) {
    pos <= |d| && d[pos..] == b
  }

  lemma EndsParts(d: Bytes, pos: nat, a: Bytes, b: Bytes)
    requires Ends(d, pos, a + b)
    ensures At(d, pos, a) && Ends(d, pos + |a|, b)
    ensures |a| > 0 ==> pos < |d| && d[pos] == a[0]
    ensures |b| > 0 ==> pos + |a| < |d|
  {
    var e := d[pos..];
    assert e[..|a|] == a && e[|a|..] == b;
    assert e[..|a|] == d[pos..pos + |a|];
    if |a| > 0 {
      assert a[0] == e[0];
    }
  }

  lemma EndsByte(d: Bytes, pos: nat, b: Bytes)
    requires Ends(d, pos, b) && |b| > 0
    ensures pos < |d| && d[pos] == b[0]
  {
    assert d[pos..][0] == b[0];
  }

  /** A whole document in front is sized, and counts its strings. */
  lemma {:induction false} WholeSized(doc: Doc, d: Bytes, pos: nat, strs: nat)
    requires Legal(doc, strs) && At(d, pos, Encode(doc, strs))
    ensures var m := Measure(d, pos, strs); m.Sized? && m.pos == pos + |Encode(doc, strs)| && m.strs == strs + Strs(doc)
  {
    hide Measure;
    hide Build;
    hide Encode;
    hide Legal;
    hide Meaning;
    var strings := seq(strs, i => Num(0));
    assert |strings| == strs;
    ParseEncoded(doc, d, pos, strings);
    assert |Meaning(doc, strings).strings| == strs + Strs(doc);
  }

  lemma {:induction false} TagOverruns(d: Bytes, pos: nat, strs: nat, t: Byte, b: Bytes)
    requires Ends(d, pos, [t] + b)
    requires t == TagOf(ArrayTag) || t == TagOf(HashTag)
    requires if t == TagOf(ArrayTag) then MeasureItems(d, pos + 1, strs).Overrun? else MeasurePairs(d, pos + 1, strs).Overrun?
    ensures Measure(d, pos, strs).Overrun?
  {
    EndsParts(d, pos, [t], b);
  }

  lemma {:induction false} OpenOverruns(o: Open, d: Bytes, pos: nat, strs: nat)
    requires LegalOpen(o, strs) && Ends(d, pos, EncodeOpen(o, strs))
    ensures Measure(d, pos, strs).Overrun?
    decreases o
  {
    hide Measure;
    hide TagOf;
    match o
    case ArrStart =>
      assert |d| == pos + 1;
      TagOverruns(d, pos, strs, TagOf(ArrayTag), []);
    case HashStart =>
      assert |d| == pos + 1;
      TagOverruns(d, pos, strs, TagOf(HashTag), []);
    case InArr(items) =>
      EndsParts(d, pos, [TagOf(ArrayTag)], EncodeOpenItems(items, strs));
      OpenItemsOverrun(items, d, pos + 1, strs);
      TagOverruns(d, pos, strs, TagOf(ArrayTag), EncodeOpenItems(items, strs));
    case InHash(pairs) =>
      EndsParts(d, pos, [TagOf(HashTag)], EncodeOpenPairs(pairs, strs));
      OpenPairsOverrun(pairs, d, pos + 1, strs);
      TagOverruns(d, pos, strs, TagOf(HashTag), EncodeOpenPairs(pairs, strs));
  }

  lemma {:induction false} OpenItemsOverrun(items: OpenItems, d: Bytes, pos: nat, strs: nat)
    requires LegalOpenItems(items, strs) && Ends(d, pos, EncodeOpenItems(items, strs))
    ensures MeasureItems(d, pos, strs).Overrun?
    decreases items
  {
    hide Measure;
    hide Encode;
    hide Legal;
    hide Ends;
    EndsByte(d, pos, EncodeOpenItems(items, strs));
    match items
    case LastItem(item) => OpenOverruns(item, d, pos, strs);
    case ItemThen(first, rest) =>
      EndsParts(d, pos, Encode(first, strs), EncodeOpenItems(rest, strs + Strs(first)));
      WholeSized(first, d, pos, strs);
      OpenItemsOverrun(rest, d, pos + |Encode(first, strs)|, strs + Strs(first));
  }

  lemma {:induction false} OpenPairsOverrun(pairs: OpenPairs, d: Bytes, pos: nat, strs: nat)
    requires LegalOpenPairs(pairs, strs) && Ends(d, pos, EncodeOpenPairs(pairs, strs))
    ensures MeasurePairs(d, pos, strs).Overrun?
    decreases pairs
  {
    hide Measure;
    hide Encode;
    hide Legal;
    hide Ends;
    EndsByte(d, pos, EncodeOpenPairs(pairs, strs));
    match pairs
    case LastKey(key) => OpenOverruns(key, d, pos, strs);
    case LastValue(key, value) =>
      EndsParts(d, pos, Encode(key, strs), EncodeOpen(value, strs + Strs(key)));
      WholeSized(key, d, pos, strs);
      OpenOverruns(value, d, pos + |Encode(key, strs)|, strs + Strs(key));
    case PairThen(key, value, rest) =>
      var k, v := Encode(key, strs), Encode(value, strs + Strs(key));
      var b := EncodeOpenPairs(rest, strs + Strs(key) + Strs(value));
      EndsParts(d, pos, k, v + b);
      EndsParts(d, pos + |k|, v, b);
      WholeSized(key, d, pos, strs);
      WholeSized(value, d, pos + |k|, strs + Strs(key));
      OpenPairsOverrun(rest, d, pos + |k| + |v|, strs + Strs(key) + Strs(value));
  }

  // ---- and there are no others ----

  ghost predicate Breaks(o: Open, d: Bytes, pos: nat, strs: nat) {
    LegalOpen(o, strs) && Ends(d, pos, EncodeOpen(o, strs))
  }

  lemma EndsJoin(d: Bytes, pos: nat, mid: nat, a: Bytes, b: Bytes)
    requires pos <= mid <= |d| && d[pos..mid] == a && Ends(d, mid, b)
    ensures Ends(d, pos, a + b)
  {
    assert d[pos..] == d[pos..mid] + d[mid..];
  }

  lemma {:induction false} OverrunBreaks(d: Bytes, pos: nat, strs: nat) returns (o: Open)
    requires Measure(d, pos, strs).Overrun?
    ensures Breaks(o, d, pos, strs)
    decreases |d| - pos, 0
  {
    hide TagOf;
    hide KindOf;
    hide LeVal;
    hide MeasureItems;
    hide MeasurePairs;
    hide Ends;
    TagBack(d[pos]);
    assert d[pos..pos + 1] == [d[pos]];
    if KindOf(d[pos]).ArrayTag? {
      if pos + 1 == |d| {
        o := ArrStart;
        NothingBehind(d, pos);
      } else {
        var items := OverrunBreaksItems(d, pos + 1, strs);
        EndsJoin(d, pos, pos + 1, [TagOf(ArrayTag)], EncodeOpenItems(items, strs));
        o := InArr(items);
      }
    } else {
      if pos + 1 == |d| {
        o := HashStart;
        NothingBehind(d, pos);
      } else {
        var pairs := OverrunBreaksPairs(d, pos + 1, strs);
        EndsJoin(d, pos, pos + 1, [TagOf(HashTag)], EncodeOpenPairs(pairs, strs));
        o := InHash(pairs);
      }
    }
  }

  lemma NothingBehind(d: Bytes, pos: nat)
    requires pos + 1 == |d|
    ensures Ends(d, pos, [d[pos]])
  {
  }

  lemma {:induction false} OverrunBreaksItems(d: Bytes, pos: nat, strs: nat) returns (items: OpenItems)
    requires MeasureItems(d, pos, strs).Overrun? && pos < |d|
    ensures LegalOpenItems(items, strs) && Ends(d, pos, EncodeOpenItems(items, strs))
    decreases |d| - pos, 1
  {
    hide Measure;
    hide Encode;
    hide Legal;
    hide LegalOpen;
    hide EncodeOpen;
    hide Ends;
    var r := Measure(d, pos, strs);
    if r.Overrun? {
      var o := OverrunBreaks(d, pos, strs);
      items := LastItem(o);
    } else {
      ReadEncodes(d, pos, strs);
      var rest := OverrunBreaksItems(d, r.pos, r.strs);
      items := ItemThen(Read(d, pos, strs), rest);
      EndsJoin(d, pos, r.pos, Encode(Read(d, pos, strs), strs), EncodeOpenItems(rest, r.strs));
    }
  }

  lemma {:induction false} OverrunBreaksPairs(d: Bytes, pos: nat, strs: nat) returns (pairs: OpenPairs)
    requires MeasurePairs(d, pos, strs).Overrun? && pos < |d|
    ensures LegalOpenPairs(pairs, strs) && Ends(d, pos, EncodeOpenPairs(pairs, strs))
    decreases |d| - pos, 1
  {
    hide Measure;
    hide Encode;
    hide Legal;
    hide LegalOpen;
    hide EncodeOpen;
    hide Ends;
    var k := Measure(d, pos, strs);
    if k.Overrun? {
      var o := OverrunBreaks(d, pos, strs);
      pairs := LastKey(o);
    } else {
      ReadEncodes(d, pos, strs);
      var key := Read(d, pos, strs);
      var v := Measure(d, k.pos, k.strs);
      if v.Overrun? {
        var o := OverrunBreaks(d, k.pos, k.strs);
        pairs := LastValue(key, o);
        EndsJoin(d, pos, k.pos, Encode(key, strs), EncodeOpen(o, k.strs));
      } else {
        ReadEncodes(d, k.pos, k.strs);
        var value := Read(d, k.pos, k.strs);
        var rest := OverrunBreaksPairs(d, v.pos, v.strs);
        pairs := PairThen(key, value, rest);
        EndsJoin(d, k.pos, v.pos, Encode(value, k.strs), EncodeOpenPairs(rest, v.strs));
        EndsJoin(d, pos, k.pos, Encode(key, strs), Encode(value, k.strs) + EncodeOpenPairs(rest, v.strs));
      }
    }
  }

  /** The input breaks off right behind an opening tag. */
  ghost predicate BreaksOff(d: Bytes) {
    exists o: Open :: LegalOpen(o, 0) && d == EncodeOpen(o, 0)
  }

  /** A byte behind the input is looked at exactly on the inputs that break off right
      behind the opening tag of an array or a hash. */
  lemma {:induction false} OverrunExactly(d: Bytes)
    ensures Measure(d, 0, 0).Overrun? <==> BreaksOff(d)
  {
    hide Measure;
    hide EncodeOpen;
    hide LegalOpen;
    assert d[0..] == d;
    if Measure(d, 0, 0).Overrun? {
      var o := OverrunBreaks(d, 0, 0);
      assert LegalOpen(o, 0) && d == EncodeOpen(o, 0);
    }
    forall o: Open | LegalOpen(o, 0) && d == EncodeOpen(o, 0)
      ensures Measure(d, 0, 0).Overrun?
    {
      OpenOverruns(o, d, 0, 0);
    }
  }

  // ---- a test a caller can make ----

  /** A byte behind the input is looked at only when the input ends right after the tag
      of an array or a hash. */
  lemma {:induction false} OverrunAfterTag(d: Bytes, pos: nat, strs: nat)
    requires Measure(d, pos, strs).Overrun?
    ensures |d| > 0 && (d[|d| - 1] == TagOf(ArrayTag) || d[|d| - 1] == TagOf(HashTag))
    decreases |d| - pos, 0
  {
    match KindOf(d[pos])
    case ArrayTag => ItemsOverrun(d, pos + 1, strs);
    case HashTag => PairsOverrun(d, pos + 1, strs);
  }

  lemma {:induction false} ItemsOverrun(d: Bytes, pos: nat, strs: nat)
    requires MeasureItems(d, pos, strs).Overrun? && 0 < pos <= |d|
    requires pos == |d| ==> d[pos - 1] == TagOf(ArrayTag)
    ensures d[|d| - 1] == TagOf(ArrayTag) || d[|d| - 1] == TagOf(HashTag)
    decreases |d| - pos, 1
  {
    if pos < |d| {
      var r := Measure(d, pos, strs);
      if r.Overrun? {
        OverrunAfterTag(d, pos, strs);
      } else {
        ItemsOverrun(d, r.pos, r.strs);
      }
    }
  }

  lemma {:induction false} PairsOverrun(d: Bytes, pos: nat, strs: nat)
    requires MeasurePairs(d, pos, strs).Overrun? && 0 < pos <= |d|
    requires pos == |d| ==> d[pos - 1] == TagOf(HashTag)
    ensures d[|d| - 1] == TagOf(ArrayTag) || d[|d| - 1] == TagOf(HashTag)
    decreases |d| - pos, 1
  {
    if pos < |d| {
      var k := Measure(d, pos, strs);
      if k.Overrun? {
        OverrunAfterTag(d, pos, strs);
      } else {
        var v := Measure(d, k.pos, k.strs);
        if v.Overrun? {
          OverrunAfterTag(d, k.pos, k.strs);
        } else {
          PairsOverrun(d, v.pos, v.strs);
        }
      }
    }
  }

  /** Input whose last byte is not an opening tag never breaks off. */
  lemma {:induction false} LastByteTells(d: Bytes)
    requires BreaksOff(d)
    ensures |d| > 0 && (d[|d| - 1] == TagOf(ArrayTag) || d[|d| - 1] == TagOf(HashTag))
  {
    OverrunExactly(d);
    OverrunAfterTag(d, 0, 0);
  }

  /** That test is not exact: here the tag is the last byte of a string. */
  lemma {:induction false} TagInsideString()
    ensures !BreaksOff([101, 17]) && Measure([101, 17], 0, 0) == Sized(16, 2, 1)
  {
    OverrunExactly([101, 17]);
  }

  /** The shortest such inputs: a lone array or hash tag. */
  lemma {:induction false} LoneTagOverruns(d: Bytes)
    requires |d| == 1 && (KindOf(d[0]).ArrayTag? || KindOf(d[0]).HashTag?)
    ensures BreaksOff(d) && Measure(d, 0, 0).Overrun?
  {
    OverrunExactly(d);
    assert MeasureItems(d, 1, 0).Overrun? && MeasurePairs(d, 1, 0).Overrun?;
  }
}
