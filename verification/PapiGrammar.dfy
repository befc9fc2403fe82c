/**
 The format as a grammar: documents with every choice of encoding a server may make,
 what they mean, and the proof that the parser accepts exactly their encodings and
 rebuilds exactly what they mean.
 */
module PapiGrammar {
  import opened LittleEndian
  import opened Papi

  // ---- documents ----

  /** A width is the number of bytes a length, an id or a number takes after the tag;
      0 stands for the form that keeps it in the tag. */
  datatype Doc =
    | DStr(s: Bytes, width: nat)
    | DRef(id: nat, width: nat)
    | DNum(n: nat, width: nat)
    | DBool(b: bool)
    | DArr(items: Docs)
    | DHash(pairs: DocPairs)
    | DData(n: nat)

  datatype Docs = NoDocs | MoreDocs(first: Doc, rest: Docs)
  datatype DocPairs = NoPairs | MorePairs(key: Doc, value: Doc, rest: DocPairs)

  predicate WidthOk(n: nat, width: nat, small: nat, widest: nat) {
    if width == 0 then n < small else width <= widest && n < Pow256(width)
  }

  function Strs(doc: Doc): nat {
    match doc
    case DStr(_, _) => 1
    case DArr(items) => StrsIn(items)
    case DHash(pairs) => StrsInPairs(pairs)
    case _ => 0
  }

  function StrsIn(items: Docs): nat {
    match items
    case NoDocs => 0
    case MoreDocs(first, rest) => Strs(first) + StrsIn(rest)
  }

  function StrsInPairs(pairs: DocPairs): nat {
    match pairs
    case NoPairs => 0
    case MorePairs(key, value, rest) => Strs(key) + Strs(value) + StrsInPairs(rest)
  }

  /** A legal document after strs strings: forms that can hold their values, and
      references to earlier strings only. */
  predicate Legal(doc: Doc, strs: nat) {
    match doc
    case DStr(s, w) => WidthOk(|s|, w, 50, 4)
    case DRef(id, w) => id < strs && WidthOk(id, w, 50, 4)
    case DNum(n, w) => WidthOk(n, w, 20, 8)
    case DBool(_) => true
    case DArr(items) => LegalItems(items, strs)
    case DHash(pairs) => LegalPairs(pairs, strs)
    case DData(n) => n < Pow256(8)
  }

  predicate LegalItems(items: Docs, strs: nat) {
    match items
    case NoDocs => true
    case MoreDocs(first, rest) => Legal(first, strs) && LegalItems(rest, strs + Strs(first))
  }

  predicate LegalPairs(pairs: DocPairs, strs: nat) {
    match pairs
    case NoPairs => true
    case MorePairs(key, value, rest) =>
      && Legal(key, strs) && Legal(value, strs + Strs(key))
      && LegalPairs(rest, strs + Strs(key) + Strs(value))
  }

  function Encode(doc: Doc, strs: nat): (r: Bytes)
    requires Legal(doc, strs)
    ensures |r| > 0 && r[0] != END
  {
    match doc
    case DStr(s, w) => if w == 0 then [TagOf(ShortStr(|s|))] + s else [TagOf(LongStr(w))] + LeBytes(|s|, w) + s
    case DRef(id, w) => if w == 0 then [TagOf(ShortRef(id))] else [TagOf(LongRef(w))] + LeBytes(id, w)
    case DNum(n, w) => if w == 0 then [TagOf(SmallNum(n))] else [TagOf(WideNum(w))] + LeBytes(n, w)
    case DBool(b) => [TagOf(Truth(b))]
    case DArr(items) => [TagOf(ArrayTag)] + EncodeItems(items, strs)
    case DHash(pairs) => [TagOf(HashTag)] + EncodePairs(pairs, strs)
    case DData(n) => [TagOf(DataTag)] + LeBytes(n, 8)
  }

  function EncodeItems(items: Docs, strs: nat): (r: Bytes)
    requires LegalItems(items, strs)
    ensures |r| > 0
  {
    match items
    case NoDocs => [END]
    case MoreDocs(first, rest) => Encode(first, strs) + EncodeItems(rest, strs + Strs(first))
  }

  function EncodePairs(pairs: DocPairs, strs: nat): (r: Bytes)
    requires LegalPairs(pairs, strs)
    ensures |r| > 0
  {
    match pairs
    case NoPairs => [END]
    case MorePairs(key, value, rest) =>
      Encode(key, strs)
      + (Encode(value, strs + Strs(key)) + EncodePairs(rest, strs + Strs(key) + Strs(value)))
  }

  /** Byte i of a number, low byte first. */
  predicate Spells(b: Bytes, n: nat, width: nat) {
    |b| == width && forall i :: 0 <= i < width ==> b[i] == n / Pow256(i) % 256
  }

  lemma LeSpells(n: nat, width: nat)
    ensures Spells(LeBytes(n, width), n, width)
  {
    forall i | 0 <= i < width
      ensures LeBytes(n, width)[i] == n / Pow256(i) % 256
    {
      LeByte(n, width, i);
    }
  }

  /** The bytes of a document that holds no others, number by number. */
  lemma {:induction false} WireFormat(doc: Doc, strs: nat)
    requires Legal(doc, strs) && !doc.DArr? && !doc.DHash?
    ensures var e := Encode(doc, strs);
            match doc
            case DStr(s, w) =>
              if w == 0 then e == [100 + |s|] + s
              else e[0] == w - 1 && w < |e| && Spells(e[1..w + 1], |s|, w) && e[w + 1..] == s
            case DRef(id, w) => if w == 0 then e == [150 + id] else e[0] == w + 3 && Spells(e[1..], id, w)
            case DNum(n, w) => if w == 0 then e == [200 + n] else e[0] == w + 7 && Spells(e[1..], n, w)
            case DBool(b) => e == [if b then 19 else 18]
            case DData(n) => e[0] == 20 && Spells(e[1..], n, 8)
            case _ => true
  {
    hide Spells;
    hide LeBytes;
    match doc
    case DStr(s, w) =>
      LeSpells(|s|, w);
      assert w > 0 ==> Encode(doc, strs)[1..w + 1] == LeBytes(|s|, w) && Encode(doc, strs)[w + 1..] == s;
    case DRef(id, w) =>
      LeSpells(id, w);
      assert w > 0 ==> Encode(doc, strs)[1..] == LeBytes(id, w);
    case DNum(n, w) =>
      LeSpells(n, w);
      assert w > 0 ==> Encode(doc, strs)[1..] == LeBytes(n, w);
    case DBool(_) =>
    case DData(n) =>
      LeSpells(n, 8);
      assert Encode(doc, strs)[1..] == LeBytes(n, 8);
  }

  /** A document that holds others: the tag of its kind, the encodings one behind the other,
      and the end byte. */
  lemma {:induction false} WireNesting(doc: Doc, strs: nat)
    requires Legal(doc, strs)
    ensures doc.DArr? ==> Encode(doc, strs) == [17] + Concat(ItemList(doc.items, strs)) + [255]
    ensures doc.DHash? ==> Encode(doc, strs) == [16] + Concat(PairList(doc.pairs, strs)) + [255]
  {
    if doc.DArr? {
      ItemsConcat(doc.items, strs);
      assert [17] + (Concat(ItemList(doc.items, strs)) + [255]) == [17] + Concat(ItemList(doc.items, strs)) + [255];
    }
    if doc.DHash? {
      PairsConcat(doc.pairs, strs);
      assert [16] + (Concat(PairList(doc.pairs, strs)) + [255]) == [16] + Concat(PairList(doc.pairs, strs)) + [255];
    }
  }

  function Concat(parts: seq<Bytes>): Bytes {
    if parts == [] then [] else parts[0] + Concat(parts[1..])
  }

  /** The encodings of items, each with the number of strings before it. */
  function ItemList(items: Docs, strs: nat): seq<Bytes>
    requires LegalItems(items, strs)
  {
    match items
    case NoDocs => []
    case MoreDocs(first, rest) => [Encode(first, strs)] + ItemList(rest, strs + Strs(first))
  }

  /** The encodings of keys and values in turn. */
  function PairList(pairs: DocPairs, strs: nat): seq<Bytes>
    requires LegalPairs(pairs, strs)
  {
    match pairs
    case NoPairs => []
    case MorePairs(key, value, rest) =>
      [Encode(key, strs), Encode(value, strs + Strs(key))] + PairList(rest, strs + Strs(key) + Strs(value))
  }

  lemma {:induction false} ItemsConcat(items: Docs, strs: nat)
    requires LegalItems(items, strs)
    ensures EncodeItems(items, strs) == Concat(ItemList(items, strs)) + [255]
  {
    match items
    case NoDocs =>
    case MoreDocs(first, rest) =>
      ItemsConcat(rest, strs + Strs(first));
      var list := ItemList(rest, strs + Strs(first));
      assert ItemList(items, strs)[1..] == list;
      assert Encode(first, strs) + (Concat(list) + [255]) == (Encode(first, strs) + Concat(list)) + [255];
  }

  lemma {:induction false} PairsConcat(pairs: DocPairs, strs: nat)
    requires LegalPairs(pairs, strs)
    ensures EncodePairs(pairs, strs) == Concat(PairList(pairs, strs)) + [255]
  {
    hide Encode;
    hide Concat;
    NoneConcat();
    match pairs
    case NoPairs =>
    case MorePairs(key, value, rest) =>
      PairsConcat(rest, strs + Strs(key) + Strs(value));
      var k, v := Encode(key, strs), Encode(value, strs + Strs(key));
      var list := PairList(rest, strs + Strs(key) + Strs(value));
      ConcatPair(k, v, list);
  }

  lemma NoneConcat()
    ensures Concat([]) == []
  {
  }

  lemma {:induction false} ConcatPair(k: Bytes, v: Bytes, list: seq<Bytes>)
    ensures Concat([k, v] + list) + [255] == k + (v + (Concat(list) + [255]))
  {
    assert ([k, v] + list)[1..] == [v] + list && ([v] + list)[1..] == list;
  }

  // ---- what documents mean ----

  datatype Sense<T> = Sense(v: T, strings: seq<Value>, dropped: nat)

  /** The value of a document after some strings, and the strings after it. */
  function Meaning(doc: Doc, strings: seq<Value>): (r: Sense<Value>)
    requires Legal(doc, |strings|)
    ensures |r.strings| == |strings| + Strs(doc)
  {
    match doc
    case DStr(s, _) => Sense(Str(s), strings + [Str(s)], 0)
    case DRef(id, _) => Sense(strings[id], strings, 0)
    case DNum(n, _) => Sense(Num(n), strings, 0)
    case DBool(b) => Sense(Bool(b), strings, 0)
    case DArr(items) => var m := MeaningItems(items, strings); Sense(Arr(m.v), m.strings, m.dropped)
    case DHash(pairs) => var m := MeaningPairs(pairs, strings); Sense(Hash(m.v), m.strings, m.dropped)
    case DData(n) => Sense(Data(n), strings, 0)
  }

  function MeaningItems(items: Docs, strings: seq<Value>): (r: Sense<seq<Value>>)
    requires LegalItems(items, |strings|)
    ensures |r.strings| == |strings| + StrsIn(items)
  {
    match items
    case NoDocs => Sense([], strings, 0)
    case MoreDocs(first, rest) =>
      var f := Meaning(first, strings);
      var r := MeaningItems(rest, f.strings);
      Sense([f.v] + r.v, r.strings, f.dropped + r.dropped)
  }

  /** Pairs with a string key, in order; the others are dropped and counted. */
  function MeaningPairs(pairs: DocPairs, strings: seq<Value>): (r: Sense<seq<Entry>>)
    requires LegalPairs(pairs, |strings|)
    ensures |r.strings| == |strings| + StrsInPairs(pairs)
  {
    match pairs
    case NoPairs => Sense([], strings, 0)
    case MorePairs(key, value, rest) =>
      var k := Meaning(key, strings);
      var v := Meaning(value, k.strings);
      var r := MeaningPairs(rest, v.strings);
      if k.v.Str? then Sense([Entry(k.v.s, v.v)] + r.v, r.strings, k.dropped + v.dropped + r.dropped)
      else Sense(r.v, r.strings, k.dropped + v.dropped + r.dropped + 1)
  }

  // ---- parsing an encoding ----

  predicate At(d: Bytes, pos: nat, b: Bytes) {
    pos + |b| <= |d| && d[pos..pos + |b|] == b
  }

  lemma AtParts(d: Bytes, pos: nat, a: Bytes, b: Bytes)
    requires At(d, pos, a + b)
    ensures At(d, pos, a) && At(d, pos + |a|, b)
  {
    var e := d[pos..pos + |a + b|];
    assert e[..|a|] == a && e[|a|..] == b;
  }

  lemma AtTag(d: Bytes, pos: nat, t: Byte, b: Bytes)
    requires At(d, pos, [t] + b)
    ensures pos < |d| && d[pos] == t && At(d, pos + 1, b)
  {
    AtParts(d, pos, [t], b);
    assert d[pos] == d[pos..pos + 1][0];
  }

  ghost predicate Parses<T>(d: Bytes, m: Measured, b: Building<T>, end: nat, s: Sense<T>) {
    && m.Sized? && m.pos == end && m.strs == |s.strings|
    && b == Built(s.v, end, if b.Built? then b.out else 0, s.strings, s.dropped)
  }

  ghost predicate ParsesAs(doc: Doc, d: Bytes, pos: nat, strings: seq<Value>)
    requires Legal(doc, |strings|)
  {
    Parses(d, Measure(d, pos, |strings|), Build(d, pos, strings), pos + |Encode(doc, |strings|)|, Meaning(doc, strings))
  }

  lemma {:induction false} ParseStr(s: Bytes, w: nat, d: Bytes, pos: nat, strings: seq<Value>)
    requires Legal(DStr(s, w), |strings|) && At(d, pos, Encode(DStr(s, w), |strings|))
    ensures ParsesAs(DStr(s, w), d, pos, strings)
  {
    hide LeVal;
    hide LeBytes;
    hide KindOf;
    hide TagOf;
    hide Padded;
    hide Pow256;
    if w == 0 {
      AtTag(d, pos, TagOf(ShortStr(|s|)), s);
    } else {
      assert Encode(DStr(s, w), |strings|) == [TagOf(LongStr(w))] + (LeBytes(|s|, w) + s);
      AtTag(d, pos, TagOf(LongStr(w)), LeBytes(|s|, w) + s);
      AtParts(d, pos + 1, LeBytes(|s|, w), s);
      LeRoundTrip(|s|, w);
    }
  }

  lemma {:induction false} ParseRef(id: nat, w: nat, d: Bytes, pos: nat, strings: seq<Value>)
    requires Legal(DRef(id, w), |strings|) && At(d, pos, Encode(DRef(id, w), |strings|))
    ensures ParsesAs(DRef(id, w), d, pos, strings)
  {
    hide LeVal;
    hide LeBytes;
    hide KindOf;
    hide TagOf;
    hide Pow256;
    if w == 0 {
      AtTag(d, pos, TagOf(ShortRef(id)), []);
    } else {
      AtTag(d, pos, TagOf(LongRef(w)), LeBytes(id, w));
      LeRoundTrip(id, w);
    }
  }

  lemma {:induction false} ParseNum(n: nat, w: nat, d: Bytes, pos: nat, strings: seq<Value>)
    requires Legal(DNum(n, w), |strings|) && At(d, pos, Encode(DNum(n, w), |strings|))
    ensures ParsesAs(DNum(n, w), d, pos, strings)
  {
    hide LeVal;
    hide LeBytes;
    hide KindOf;
    hide TagOf;
    hide Pow256;
    if w == 0 {
      AtTag(d, pos, TagOf(SmallNum(n)), []);
    } else {
      AtTag(d, pos, TagOf(WideNum(w)), LeBytes(n, w));
      LeRoundTrip(n, w);
    }
  }

  lemma {:induction false} ParseData(n: nat, d: Bytes, pos: nat, strings: seq<Value>)
    requires Legal(DData(n), |strings|) && At(d, pos, Encode(DData(n), |strings|))
    ensures ParsesAs(DData(n), d, pos, strings)
  {
    hide LeVal;
    hide LeBytes;
    hide KindOf;
    hide TagOf;
    hide Pow256;
    var w := 8;
    AtTag(d, pos, TagOf(DataTag), LeBytes(n, w));
    LeRoundTrip(n, w);
  }

  lemma {:induction false} ParseBool(b: bool, d: Bytes, pos: nat, strings: seq<Value>)
    requires At(d, pos, Encode(DBool(b), |strings|))
    ensures ParsesAs(DBool(b), d, pos, strings)
  {
    AtTag(d, pos, TagOf(Truth(b)), []);
  }

  lemma {:induction false} ArrayParsed(items: Docs, d: Bytes, pos: nat, strings: seq<Value>)
    requires LegalItems(items, |strings|) && pos < |d| && d[pos] == TagOf(ArrayTag)
    requires Parses(d, MeasureItems(d, pos + 1, |strings|), BuildItems(d, pos + 1, strings),
                    pos + 1 + |EncodeItems(items, |strings|)|, MeaningItems(items, strings))
    ensures ParsesAs(DArr(items), d, pos, strings)
  {
    hide MeasureItems;
    hide BuildItems;
    hide EncodeItems;
    hide MeaningItems;
  }

  lemma {:induction false} HashParsed(pairs: DocPairs, d: Bytes, pos: nat, strings: seq<Value>)
    requires LegalPairs(pairs, |strings|) && pos < |d| && d[pos] == TagOf(HashTag)
    requires Parses(d, MeasurePairs(d, pos + 1, |strings|), BuildPairs(d, pos + 1, strings),
                    pos + 1 + |EncodePairs(pairs, |strings|)|, MeaningPairs(pairs, strings))
    ensures ParsesAs(DHash(pairs), d, pos, strings)
  {
    hide MeasurePairs;
    hide BuildPairs;
    hide EncodePairs;
    hide MeaningPairs;
  }

  /** Parsing an encoded document rebuilds what it means and consumes exactly its bytes,
      wherever it stands in the input. */
  lemma {:induction false} ParseEncoded(doc: Doc, d: Bytes, pos: nat, strings: seq<Value>)
    requires Legal(doc, |strings|) && At(d, pos, Encode(doc, |strings|))
    ensures ParsesAs(doc, d, pos, strings)
    decreases doc
  {
    hide LeVal;
    hide LeBytes;
    hide KindOf;
    hide TagOf;
    hide Pow256;
    hide WidthOk;
    hide ParsesAs;
    hide Parses;
    hide At;
    hide Measure;
    hide MeasureItems;
    hide MeasurePairs;
    hide Build;
    hide BuildItems;
    hide BuildPairs;
    hide EncodeItems;
    hide EncodePairs;
    hide Meaning;
    hide MeaningItems;
    hide MeaningPairs;
    match doc
    case DStr(s, w) => ParseStr(s, w, d, pos, strings);
    case DRef(id, w) => ParseRef(id, w, d, pos, strings);
    case DNum(n, w) => ParseNum(n, w, d, pos, strings);
    case DBool(b) => ParseBool(b, d, pos, strings);
    case DArr(items) =>
      AtTag(d, pos, TagOf(ArrayTag), EncodeItems(items, |strings|));
      ParseItems(items, d, pos + 1, strings);
      ArrayParsed(items, d, pos, strings);
    case DHash(pairs) =>
      AtTag(d, pos, TagOf(HashTag), EncodePairs(pairs, |strings|));
      ParsePairs(pairs, d, pos + 1, strings);
      HashParsed(pairs, d, pos, strings);
    case DData(n) => ParseData(n, d, pos, strings);
  }

  lemma {:induction false} NoMoreItems(d: Bytes, pos: nat, strings: seq<Value>)
    requires At(d, pos, [END])
    ensures Parses(d, MeasureItems(d, pos, |strings|), BuildItems(d, pos, strings), pos + 1, Sense([], strings, 0))
    ensures Parses(d, MeasurePairs(d, pos, |strings|), BuildPairs(d, pos, strings), pos + 1, Sense([], strings, 0))
  {
    FirstByte(d, pos, [END]);
  }

  /** One turn of the loop over an array. */
  lemma {:induction false} OneMoreItem(d: Bytes, pos: nat, strings: seq<Value>, mid: nat, end: nat,
                                       f: Sense<Value>, r: Sense<seq<Value>>)
    requires pos < |d| && d[pos] != END && mid < |d|
    requires Parses(d, Measure(d, pos, |strings|), Build(d, pos, strings), mid, f)
    requires Parses(d, MeasureItems(d, mid, |f.strings|), BuildItems(d, mid, f.strings), end, r)
    ensures Parses(d, MeasureItems(d, pos, |strings|), BuildItems(d, pos, strings), end,
                   Sense([f.v] + r.v, r.strings, f.dropped + r.dropped))
  {
    hide Measure;
    hide Build;
  }

  lemma {:induction false} ParseItems(items: Docs, d: Bytes, pos: nat, strings: seq<Value>)
    requires LegalItems(items, |strings|) && At(d, pos, EncodeItems(items, |strings|))
    ensures Parses(d, MeasureItems(d, pos, |strings|), BuildItems(d, pos, strings),
                   pos + |EncodeItems(items, |strings|)|, MeaningItems(items, strings))
    decreases items
  {
    hide Encode;
    hide Measure;
    hide MeasureItems;
    hide Build;
    hide BuildItems;
    hide Meaning;
    hide At;
    hide Legal;
    hide Parses;
    match items
    case NoDocs => NoMoreItems(d, pos, strings);
    case MoreDocs(first, rest) =>
      var n := |strings|;
      var f := Encode(first, n);
      var b := EncodeItems(rest, n + Strs(first));
      AtParts(d, pos, f, b);
      FirstByte(d, pos, f);
      FirstByte(d, pos + |f|, b);
      ParseEncoded(first, d, pos, strings);
      var m := Meaning(first, strings);
      ParseItems(rest, d, pos + |f|, m.strings);
      OneMoreItem(d, pos, strings, pos + |f|, pos + |f| + |b|, m, MeaningItems(rest, m.strings));
  }

  lemma FirstByte(d: Bytes, pos: nat, b: Bytes)
    requires At(d, pos, b) && |b| > 0
    ensures pos < |d| && d[pos] == b[0]
  {
    assert d[pos] == d[pos..pos + |b|][0];
  }

  /** One turn of the loop over a hash. */
  lemma {:induction false} OneMorePair(d: Bytes, pos: nat, strings: seq<Value>, mid1: nat, mid2: nat, end: nat,
                                       k: Sense<Value>, v: Sense<Value>, r: Sense<seq<Entry>>)
    requires pos < |d| && d[pos] != END && mid2 < |d|
    requires Parses(d, Measure(d, pos, |strings|), Build(d, pos, strings), mid1, k)
    requires Parses(d, Measure(d, mid1, |k.strings|), Build(d, mid1, k.strings), mid2, v)
    requires Parses(d, MeasurePairs(d, mid2, |v.strings|), BuildPairs(d, mid2, v.strings), end, r)
    ensures Parses(d, MeasurePairs(d, pos, |strings|), BuildPairs(d, pos, strings), end,
                   if k.v.Str? then Sense([Entry(k.v.s, v.v)] + r.v, r.strings, k.dropped + v.dropped + r.dropped)
                   else Sense(r.v, r.strings, k.dropped + v.dropped + r.dropped + 1))
  {
    hide Measure;
    hide Build;
  }

  lemma {:induction false} ParsePairs(pairs: DocPairs, d: Bytes, pos: nat, strings: seq<Value>)
    requires LegalPairs(pairs, |strings|) && At(d, pos, EncodePairs(pairs, |strings|))
    ensures Parses(d, MeasurePairs(d, pos, |strings|), BuildPairs(d, pos, strings),
                   pos + |EncodePairs(pairs, |strings|)|, MeaningPairs(pairs, strings))
    decreases pairs
  {
    hide Encode;
    hide Measure;
    hide MeasurePairs;
    hide Build;
    hide BuildPairs;
    hide Meaning;
    hide At;
    hide Legal;
    hide Parses;
    match pairs
    case NoPairs => NoMoreItems(d, pos, strings);
    case MorePairs(key, value, rest) =>
      var n := |strings|;
      var k := Encode(key, n);
      var v := Encode(value, n + Strs(key));
      var b := EncodePairs(rest, n + Strs(key) + Strs(value));
      AtParts(d, pos, k, v + b);
      AtParts(d, pos + |k|, v, b);
      FirstByte(d, pos, k);
      FirstByte(d, pos + |k| + |v|, b);
      ParseEncoded(key, d, pos, strings);
      var mk := Meaning(key, strings);
      ParseEncoded(value, d, pos + |k|, mk.strings);
      var mv := Meaning(value, mk.strings);
      ParsePairs(rest, d, pos + |k| + |v|, mv.strings);
      OneMorePair(d, pos, strings, pos + |k|, pos + |k| + |v|, pos + |k| + |v| + |b|, mk, mv, MeaningPairs(rest, mv.strings));
  }

  /** A whole answer: the result is what was encoded, all bytes are used, and the output
      fills its block exactly when every hash key is a string. */
  lemma {:induction false} RoundTrip(doc: Doc)
    requires Legal(doc, 0)
    ensures var d := Encode(doc, 0);
            var m, b, s := Measure(d, 0, 0), Build(d, 0, []), Meaning(doc, []);
            && m.Sized? && m.pos == |d| && b.Built? && b.v == s.v && b.pos == |d|
            && b.out == m.size - PAIR * s.dropped
  {
    var d := Encode(doc, 0);
    assert At(d, 0, d);
    ParseEncoded(doc, d, 0, []);
    PassesAgree(d, 0, []);
  }

  // ---- nothing else is accepted ----

  /** The document an accepted input starts with. */
  function Read(d: Bytes, pos: nat, strs: nat): Doc
    requires Measure(d, pos, strs).Sized?
    decreases |d| - pos, 0
  {
    var p := pos + 1;
    match KindOf(d[pos])
    case ShortStr(len) => DStr(d[p..p + len], 0)
    case LongStr(l) => DStr(d[p + l..p + l + LeVal(d[p..p + l])], l)
    case ShortRef(id) => DRef(id, 0)
    case LongRef(l) => DRef(LeVal(d[p..p + l]), l)
    case WideNum(l) => DNum(LeVal(d[p..p + l]), l)
    case SmallNum(n) => DNum(n, 0)
    case Truth(b) => DBool(b)
    case ArrayTag => DArr(ReadItems(d, p, strs))
    case HashTag => DHash(ReadPairs(d, p, strs))
    case DataTag => DData(LeVal(d[p..p + 8]))
  }

  function ReadItems(d: Bytes, pos: nat, strs: nat): Docs
    requires MeasureItems(d, pos, strs).Sized?
    decreases |d| - pos, 1
  {
    if d[pos] == END then NoDocs
    else
      var r := Measure(d, pos, strs);
      MoreDocs(Read(d, pos, strs), ReadItems(d, r.pos, r.strs))
  }

  function ReadPairs(d: Bytes, pos: nat, strs: nat): DocPairs
    requires MeasurePairs(d, pos, strs).Sized?
    decreases |d| - pos, 1
  {
    if d[pos] == END then NoPairs
    else
      var k := Measure(d, pos, strs);
      var v := Measure(d, k.pos, k.strs);
      MorePairs(Read(d, pos, strs), Read(d, k.pos, k.strs), ReadPairs(d, v.pos, v.strs))
  }

  lemma Joined(d: Bytes, a: nat, b: nat, c: nat)
    requires a <= b <= c <= |d|
    ensures d[a..c] == d[a..b] + d[b..c]
  {
  }

  lemma TagBack(t: Byte)
    requires !KindOf(t).Unknown?
    ensures var k := KindOf(t);
            && (k.ShortRef? ==> k.id < 50) && (k.SmallNum? ==> k.n < 20)
            && TagOf(k) == t
  {
  }

  ghost predicate ReadsBack(doc: Doc, d: Bytes, pos: nat, strs: nat, m: Measured) {
    && m.Sized? && pos <= m.pos <= |d| && Legal(doc, strs) && Encode(doc, strs) == d[pos..m.pos]
    && m.strs == strs + Strs(doc)
  }

  lemma {:induction false} ReadLeaf(d: Bytes, pos: nat, strs: nat)
    requires Measure(d, pos, strs).Sized? && !KindOf(d[pos]).ArrayTag? && !KindOf(d[pos]).HashTag?
    ensures ReadsBack(Read(d, pos, strs), d, pos, strs, Measure(d, pos, strs))
  {
    hide KindOf;
    hide TagOf;
    hide LeVal;
    hide LeBytes;
    hide Pow256;
    hide Padded;
    hide MeasureItems;
    hide MeasurePairs;
    hide ReadItems;
    hide ReadPairs;
    hide EncodeItems;
    hide EncodePairs;
    hide LegalItems;
    hide LegalPairs;
    TagBack(d[pos]);
    var p := pos + 1;
    Joined(d, pos, p, Measure(d, pos, strs).pos);
    assert d[pos..p] == [d[pos]];
    match KindOf(d[pos])
    case LongStr(l) =>
      LeOnto(d[p..p + l]);
      Joined(d, p, p + l, Measure(d, pos, strs).pos);
    case LongRef(l) => LeOnto(d[p..p + l]);
    case WideNum(l) => LeOnto(d[p..p + l]);
    case DataTag => LeOnto(d[p..p + 8]);
    case _ =>
  }

  ghost predicate ItemsBack(docs: Docs, d: Bytes, pos: nat, strs: nat, m: Measured) {
    && m.Sized? && pos <= m.pos <= |d| && LegalItems(docs, strs) && EncodeItems(docs, strs) == d[pos..m.pos]
    && m.strs == strs + StrsIn(docs)
  }

  ghost predicate PairsBack(pairs: DocPairs, d: Bytes, pos: nat, strs: nat, m: Measured) {
    && m.Sized? && pos <= m.pos <= |d| && LegalPairs(pairs, strs) && EncodePairs(pairs, strs) == d[pos..m.pos]
    && m.strs == strs + StrsInPairs(pairs)
  }

  lemma {:induction false} ReadArray(d: Bytes, pos: nat, strs: nat)
    requires Measure(d, pos, strs).Sized? && KindOf(d[pos]).ArrayTag?
    requires ItemsBack(ReadItems(d, pos + 1, strs), d, pos + 1, strs, MeasureItems(d, pos + 1, strs))
    ensures ReadsBack(Read(d, pos, strs), d, pos, strs, Measure(d, pos, strs))
  {
    hide KindOf;
    hide TagOf;
    hide MeasureItems;
    hide ReadItems;
    hide EncodeItems;
    hide LegalItems;
    hide StrsIn;
    TagBack(d[pos]);
    Joined(d, pos, pos + 1, Measure(d, pos, strs).pos);
    assert d[pos..pos + 1] == [d[pos]];
  }

  lemma {:induction false} ReadHash(d: Bytes, pos: nat, strs: nat)
    requires Measure(d, pos, strs).Sized? && KindOf(d[pos]).HashTag?
    requires PairsBack(ReadPairs(d, pos + 1, strs), d, pos + 1, strs, MeasurePairs(d, pos + 1, strs))
    ensures ReadsBack(Read(d, pos, strs), d, pos, strs, Measure(d, pos, strs))
  {
    hide KindOf;
    hide TagOf;
    hide MeasurePairs;
    hide ReadPairs;
    hide EncodePairs;
    hide LegalPairs;
    hide StrsInPairs;
    TagBack(d[pos]);
    Joined(d, pos, pos + 1, Measure(d, pos, strs).pos);
    assert d[pos..pos + 1] == [d[pos]];
  }

  /** Every input the sizing pass accepts starts with the encoding of a legal document. */
  lemma {:induction false} ReadEncodes(d: Bytes, pos: nat, strs: nat)
    requires Measure(d, pos, strs).Sized?
    ensures ReadsBack(Read(d, pos, strs), d, pos, strs, Measure(d, pos, strs))
    decreases |d| - pos, 0
  {
    hide KindOf;
    hide ReadsBack;
    hide ItemsBack;
    hide PairsBack;
    hide Read;
    hide ReadItems;
    hide ReadPairs;
    hide MeasureItems;
    hide MeasurePairs;
    match KindOf(d[pos])
    case ArrayTag =>
      ReadItemsEncode(d, pos + 1, strs);
      ReadArray(d, pos, strs);
    case HashTag =>
      ReadPairsEncode(d, pos + 1, strs);
      ReadHash(d, pos, strs);
    case _ => ReadLeaf(d, pos, strs);
  }

  lemma {:induction false} ReadItemsEncode(d: Bytes, pos: nat, strs: nat)
    requires MeasureItems(d, pos, strs).Sized?
    ensures ItemsBack(ReadItems(d, pos, strs), d, pos, strs, MeasureItems(d, pos, strs))
    decreases |d| - pos, 1
  {
    hide Measure;
    hide Read;
    hide Encode;
    hide Legal;
    hide Strs;
    if d[pos] == END {
      assert d[pos..pos + 1] == [END];
    } else {
      var r := Measure(d, pos, strs);
      ReadEncodes(d, pos, strs);
      ReadItemsEncode(d, r.pos, r.strs);
      Joined(d, pos, r.pos, MeasureItems(d, pos, strs).pos);
    }
  }

  lemma {:induction false} ReadPairsEncode(d: Bytes, pos: nat, strs: nat)
    requires MeasurePairs(d, pos, strs).Sized?
    ensures PairsBack(ReadPairs(d, pos, strs), d, pos, strs, MeasurePairs(d, pos, strs))
    decreases |d| - pos, 1
  {
    hide Measure;
    hide Read;
    hide Encode;
    hide Legal;
    hide Strs;
    if d[pos] == END {
      assert d[pos..pos + 1] == [END];
    } else {
      var k := Measure(d, pos, strs);
      var v := Measure(d, k.pos, k.strs);
      var end := MeasurePairs(d, pos, strs).pos;
      ReadEncodes(d, pos, strs);
      ReadEncodes(d, k.pos, k.strs);
      ReadPairsEncode(d, v.pos, v.strs);
      Joined(d, pos, k.pos, end);
      Joined(d, k.pos, v.pos, end);
    }
  }

  predicate StartsWith(d: Bytes, doc: Doc) {
    Legal(doc, 0) && At(d, 0, Encode(doc, 0))
  }

  /** The sizing pass accepts exactly the inputs that start with a legal encoding. */
  lemma {:induction false} AcceptedIsEncoded(d: Bytes)
    ensures Measure(d, 0, 0).Sized? <==> exists doc: Doc :: StartsWith(d, doc)
  {
    hide Measure;
    hide Encode;
    hide Legal;
    if Measure(d, 0, 0).Sized? {
      ReadEncodes(d, 0, 0);
      assert StartsWith(d, Read(d, 0, 0));
    }
    forall doc: Doc | StartsWith(d, doc)
      ensures Measure(d, 0, 0).Sized?
    {
      var strings: seq<Value> := [];
      assert |strings| == 0;
      ParseEncoded(doc, d, 0, strings);
    }
  }
}
