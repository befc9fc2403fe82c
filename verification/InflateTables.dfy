/**
 The inflater's Huffman decode tables: a 1024-entry lookup on the first ten bits
 and an overflow tree for the longer codes, built symbol by symbol.
 */
module InflateTables {
  import opened Bits
  import opened CanonicalCodes

  const FAST_BITS := 10
  const FAST_SIZE := 1024
  const MAX_SYMBOLS := 288
  const TREE_SIZE := 576

  /** The two arrays, and the number given to each node of the overflow tree. */
  datatype Tables = Tables(lookUp: seq<int>, tree: seq<int>, nodes: map<seq<bool>, nat>)

  function Slot(p: seq<bool>): (i: nat)
    requires |p| == FAST_BITS
    ensures i < FAST_SIZE
  {
    LsbBound(p);
    Pow2Values();
    LsbVal(p)
  }

  /** How a reference to overflow node i is stored. */
  function NodeRef(i: nat): (r: int)
    ensures r < 0
  {
    -1 - 2 * i
  }

  /** p is the bit string of an overflow node once the symbols below n, and the
      first j bits of symbol n, have been entered. */
  ghost predicate Member(lens: seq<nat>, n: nat, j: nat, p: seq<bool>) {
    FAST_BITS <= |p| && (InEarlier(lens, n, p) || InCurrent(lens, n, j, p))
  }

  ghost predicate InEarlier(lens: seq<nat>, n: nat, p: seq<bool>) {
    exists s :: 0 <= s < n && ProperPrefix(lens, s, p)
  }

  ghost predicate InCurrent(lens: seq<nat>, n: nat, j: nat, p: seq<bool>) {
    Used(lens, n) && |p| < j && p <= CodeWord(lens, n)
  }

  ghost predicate ProperPrefix(lens: seq<nat>, s: nat, p: seq<bool>) {
    Used(lens, s) && |p| < lens[s] && p <= CodeWord(lens, s)
  }

  /** Symbol s, entered already, has a code of at most ten bits that starts p. */
  ghost predicate ShortHit(lens: seq<nat>, n: nat, s: nat, p: seq<bool>) {
    s < n && Used(lens, s) && lens[s] <= FAST_BITS && CodeWord(lens, s) <= p
  }

  ghost predicate LeafHit(lens: seq<nat>, n: nat, s: nat, p: seq<bool>) {
    s < n && Used(lens, s) && CodeWord(lens, s) == p
  }

  ghost predicate LookUpEntry(lens: seq<nat>, n: nat, nodes: map<seq<bool>, nat>, p: seq<bool>, e: int) {
    if p in nodes then e == NodeRef(nodes[p])
    else (e == 0 && forall s: nat :: !ShortHit(lens, n, s, p))
         || exists s: nat :: ShortHit(lens, n, s, p) && e == lens[s] * 512 + s
  }

  ghost predicate TreeEntry(lens: seq<nat>, n: nat, nodes: map<seq<bool>, nat>, p: seq<bool>, e: int) {
    if p in nodes then e == NodeRef(nodes[p])
    else (e == 0 && forall s: nat :: !LeafHit(lens, n, s, p))
         || exists s: nat :: LeafHit(lens, n, s, p) && e == s
  }

  ghost predicate NodesOk(lens: seq<nat>, n: nat, j: nat, nodes: map<seq<bool>, nat>) {
    && (forall p :: p in nodes <==> Member(lens, n, j, p))
    && (forall p :: p in nodes ==> nodes[p] < |nodes|)
    && (forall p, q :: p in nodes && q in nodes && nodes[p] == nodes[q] ==> p == q)
  }

  ghost predicate LookUpOk(lens: seq<nat>, n: nat, t: Tables) {
    && |t.lookUp| == FAST_SIZE
    && forall p :: |p| == FAST_BITS ==> LookUpEntry(lens, n, t.nodes, p, t.lookUp[Slot(p)])
  }

  /** The slot for bit b of node p holds what the bit string p + [b] calls for. */
  ghost predicate ChildOk(lens: seq<nat>, n: nat, t: Tables, p: seq<bool>, b: bool) {
    p in t.nodes ==>
      && 2 * t.nodes[p] + BitVal(b) < |t.tree|
      && TreeEntry(lens, n, t.nodes, p + [b], t.tree[2 * t.nodes[p] + BitVal(b)])
  }

  ghost predicate TreeOk(lens: seq<nat>, n: nat, t: Tables) {
    && |t.tree| == TREE_SIZE
    && |t.nodes| <= MAX_SYMBOLS
    && (forall p, b :: ChildOk(lens, n, t, p, b))
    && (forall k :: 2 * |t.nodes| <= k < TREE_SIZE ==> t.tree[k] == 0)
  }

  /** The tables hold the symbols below n, and the first j bits of symbol n. */
  ghost predicate Inv(lens: seq<nat>, n: nat, j: nat, t: Tables) {
    && NotOversubscribed(lens)
    && n <= |lens| <= MAX_SYMBOLS
    && NodesOk(lens, n, j, t.nodes)
    && LookUpOk(lens, n, t)
    && TreeOk(lens, n, t)
  }

  // ---- prefix facts ----

  lemma ShortIsNotMember(lens: seq<nat>, s: nat, n: nat, j: nat, p: seq<bool>)
    requires NotOversubscribed(lens) && Used(lens, s) && CodeWord(lens, s) <= p
    requires n <= |lens|
    requires n < |lens| && Used(lens, n) ==> j <= lens[n]
    ensures !Member(lens, n, j, p)
  {
    if InEarlier(lens, n, p) {
      var t :| 0 <= t < n && ProperPrefix(lens, t, p);
      PrefixFree(lens, s, t);
    } else if InCurrent(lens, n, j, p) {
      PrefixFree(lens, s, n);
    }
  }

  lemma TwoPrefixes(lens: seq<nat>, s: nat, t: nat, p: seq<bool>)
    requires NotOversubscribed(lens) && Used(lens, s) && Used(lens, t)
    requires CodeWord(lens, s) <= p && CodeWord(lens, t) <= p
    ensures s == t
  {
    if lens[s] <= lens[t] {
      assert CodeWord(lens, s) == p[..lens[s]] <= p[..lens[t]] == CodeWord(lens, t);
      PrefixFree(lens, s, t);
    } else {
      assert CodeWord(lens, t) == p[..lens[t]] <= p[..lens[s]] == CodeWord(lens, s);
      PrefixFree(lens, t, s);
    }
  }

  // ---- the number of overflow nodes ----

  ghost function Strip(w: seq<bool>): seq<bool> {
    if w == [] then []
    else if w[|w| - 1] then w[..|w| - 1]
    else Strip(w[..|w| - 1])
  }

  lemma {:induction false} StripZeros(p: seq<bool>, k: nat)
    ensures Strip(p + [true] + Zeros(k)) == p
  {
    var w := p + [true] + Zeros(k);
    if k == 0 {
      assert w == p + [true];
    } else {
      assert w[..|w| - 1] == p + [true] + Zeros(k - 1);
      StripZeros(p, k - 1);
    }
  }

  /** Right of the middle of every internal node a code of its own begins. */
  lemma CodeOfNode(lens: seq<nat>, p: seq<bool>, t: nat) returns (s: nat)
    requires Complete(lens) && ProperPrefix(lens, t, p)
    ensures Used(lens, s) && Strip(CodeWord(lens, s)) == p
  {
    var k := MAX_BITS - |p| - 1;
    var w := p + [true] + Zeros(k);
    s := SomeCodeWord(lens, w);
    var l := lens[s];
    if l <= |p| {
      assert CodeWord(lens, s) <= p;
      assert CodeWord(lens, s) <= CodeWord(lens, t);
      PrefixFree(lens, s, t);
    }
    assert CodeWord(lens, s) == p + [true] + Zeros(l - |p| - 1);
    StripZeros(p, l - |p| - 1);
  }

  ghost function StripImage(lens: seq<nat>, n: nat): (r: set<seq<bool>>)
    requires n <= |lens|
    ensures |r| <= n
    ensures forall s :: 0 <= s < n && Used(lens, s) ==> Strip(CodeWord(lens, s)) in r
  {
    if n == 0 then {}
    else if Used(lens, n - 1) then StripImage(lens, n - 1) + {Strip(CodeWord(lens, n - 1))}
    else StripImage(lens, n - 1)
  }

  lemma SubsetSize<T>(a: set<T>, b: set<T>)
    requires a <= b
    ensures |a| <= |b|
  {
    assert b == a + (b - a);
  }

  /** What the builder accepts: a complete code, or at most one symbol. */
  ghost predicate Acceptable(lens: seq<nat>) {
    ValidLens(lens) && |lens| <= MAX_SYMBOLS && (Complete(lens) || AtMostOne(lens))
  }

  ghost predicate AtMostOne(lens: seq<nat>) {
    forall s: nat, t: nat :: Used(lens, s) && Used(lens, t) ==> s == t
  }

  ghost function PrefixImage(w: seq<bool>, k: nat): (r: set<seq<bool>>)
    requires k <= |w|
    ensures |r| <= k
    ensures forall i :: 0 <= i < k ==> w[..i] in r
  {
    if k == 0 then {} else PrefixImage(w, k - 1) + {w[..k - 1]}
  }

  /** The overflow nodes of an acceptable code never outgrow the tree array. */
  lemma NodeBound(lens: seq<nat>, n: nat, j: nat, nodes: set<seq<bool>>)
    requires Acceptable(lens) && n <= |lens|
    requires n < |lens| && Used(lens, n) ==> j <= lens[n]
    requires forall p :: p in nodes ==> Member(lens, n, j, p)
    ensures |nodes| <= MAX_SYMBOLS
  {
    if Complete(lens) {
      forall p | p in nodes
        ensures p in StripImage(lens, |lens|)
      {
        var t := MemberSymbol(lens, n, j, p);
        var s := CodeOfNode(lens, p, t);
      }
      SubsetSize(nodes, StripImage(lens, |lens|));
    } else if p0 :| p0 in nodes {
      var t0 := MemberSymbol(lens, n, j, p0);
      var w := CodeWord(lens, t0);
      forall p | p in nodes
        ensures p in PrefixImage(w, |w|)
      {
        var t := MemberSymbol(lens, n, j, p);
        assert p == w[..|p|];
      }
      SubsetSize(nodes, PrefixImage(w, |w|));
    }
  }

  lemma MemberSymbol(lens: seq<nat>, n: nat, j: nat, p: seq<bool>) returns (t: nat)
    requires Member(lens, n, j, p) && n <= |lens|
    requires n < |lens| && Used(lens, n) ==> j <= lens[n]
    ensures ProperPrefix(lens, t, p)
  {
    if InEarlier(lens, n, p) {
      t :| 0 <= t < n && ProperPrefix(lens, t, p);
    } else {
      t := n;
    }
  }

  // ---- entering one symbol ----

  lemma EmptyInv(lens: seq<nat>, t: Tables)
    requires NotOversubscribed(lens) && |lens| <= MAX_SYMBOLS
    requires t == Tables(seq(FAST_SIZE, _ => 0), seq(TREE_SIZE, _ => 0), map[])
    ensures Inv(lens, 0, FAST_BITS, t)
  {
  }

  lemma SkipUnused(lens: seq<nat>, n: nat, t: Tables)
    requires Inv(lens, n, FAST_BITS, t) && n < |lens| && lens[n] == 0
    ensures Inv(lens, n + 1, FAST_BITS, t)
  {
    forall p
      ensures Member(lens, n + 1, FAST_BITS, p) <==> Member(lens, n, FAST_BITS, p)
    {
      if InEarlier(lens, n + 1, p) {
        var s :| 0 <= s < n + 1 && ProperPrefix(lens, s, p);
        assert s != n;
      }
    }
    Advance(lens, n, t);
  }

  /** Entries seen from n stay true seen from n + 1 when symbol n adds no hit. */
  lemma Advance(lens: seq<nat>, n: nat, t: Tables)
    requires LookUpOk(lens, n, t) && TreeOk(lens, n, t)
    requires n < |lens| && lens[n] == 0
    ensures LookUpOk(lens, n + 1, t) && TreeOk(lens, n + 1, t)
  {
    forall p | |p| == FAST_BITS
      ensures LookUpEntry(lens, n + 1, t.nodes, p, t.lookUp[Slot(p)])
    {
      assert LookUpEntry(lens, n, t.nodes, p, t.lookUp[Slot(p)]);
      LookUpSame(lens, n, t.nodes, p, t.lookUp[Slot(p)]);
    }
    var n' := n + 1;
    forall p, b
      ensures ChildOk(lens, n', t, p, b)
    {
      assert ChildOk(lens, n, t, p, b);
      if p in t.nodes {
        TreeSame(lens, n, t.nodes, p + [b], t.tree[2 * t.nodes[p] + BitVal(b)]);
      }
    }
  }

  lemma LookUpSame(lens: seq<nat>, n: nat, nodes: map<seq<bool>, nat>, p: seq<bool>, e: int)
    requires LookUpEntry(lens, n, nodes, p, e)
    requires !ShortHit(lens, n + 1, n, p)
    ensures LookUpEntry(lens, n + 1, nodes, p, e)
  {
    if p !in nodes {
      if s: nat :| ShortHit(lens, n, s, p) && e == lens[s] * 512 + s {
        assert ShortHit(lens, n + 1, s, p);
      } else {
        assert e == 0;
        var n' := n + 1;
        forall s: nat
          ensures !ShortHit(lens, n', s, p)
        {
          assert !ShortHit(lens, n, s, p);
        }
      }
    }
  }

  lemma TreeSame(lens: seq<nat>, n: nat, nodes: map<seq<bool>, nat>, p: seq<bool>, e: int)
    requires TreeEntry(lens, n, nodes, p, e)
    requires !LeafHit(lens, n + 1, n, p)
    ensures TreeEntry(lens, n + 1, nodes, p, e)
  {
    if p !in nodes {
      if s: nat :| LeafHit(lens, n, s, p) && e == s {
        assert LeafHit(lens, n + 1, s, p);
      } else {
        assert e == 0;
        var n' := n + 1;
        forall s: nat
          ensures !LeafHit(lens, n', s, p)
        {
          assert !LeafHit(lens, n, s, p);
        }
      }
    }
  }

  /** One more bit of the path of symbol n, ending in a node known before. */
  lemma KnownNode(lens: seq<nat>, n: nat, j: nat, t: Tables)
    requires Inv(lens, n, j, t) && Used(lens, n) && FAST_BITS <= j < lens[n]
    requires CodeWord(lens, n)[..j] in t.nodes
    ensures Inv(lens, n, j + 1, t)
  {
    var q := CodeWord(lens, n)[..j];
    forall p
      ensures Member(lens, n, j + 1, p) <==> Member(lens, n, j, p)
    {
      if Member(lens, n, j + 1, p) && |p| == j {
        assert InCurrent(lens, n, j + 1, p) ==> p == q;
      }
    }
  }

  ghost function Grow(nodes: map<seq<bool>, nat>, q: seq<bool>): map<seq<bool>, nat> {
    nodes[q := |nodes|]
  }

  lemma GrowNodes(lens: seq<nat>, n: nat, j: nat, nodes: map<seq<bool>, nat>, q: seq<bool>)
    requires NodesOk(lens, n, j, nodes) && Used(lens, n) && FAST_BITS <= j < lens[n]
    requires q == CodeWord(lens, n)[..j] && q !in nodes
    ensures NodesOk(lens, n, j + 1, Grow(nodes, q))
    ensures |Grow(nodes, q)| == |nodes| + 1
  {
    var nodes' := Grow(nodes, q);
    assert nodes'.Keys == nodes.Keys + {q};
    forall p
      ensures p in nodes' <==> Member(lens, n, j + 1, p)
    {
      assert p in nodes <==> Member(lens, n, j, p);
      if InCurrent(lens, n, j + 1, p) && |p| == j {
        assert p == q;
      }
    }
  }

  /** There is room for one more node. */
  lemma RoomForNode(lens: seq<nat>, n: nat, j: nat, t: Tables, q: seq<bool>)
    requires Acceptable(lens) && Inv(lens, n, j, t) && n < |lens| && Used(lens, n) && FAST_BITS <= j < lens[n]
    requires q == CodeWord(lens, n)[..j] && q !in t.nodes
    ensures |t.nodes| < MAX_SYMBOLS && |Grow(t.nodes, q)| == |t.nodes| + 1
  {
    GrowNodes(lens, n, j, t.nodes, q);
    NodeBound(lens, n, j + 1, Grow(t.nodes, q).Keys);
    assert |Grow(t.nodes, q).Keys| == |Grow(t.nodes, q)|;
  }

  /** A node being added has no children yet. */
  lemma NoChildren(lens: seq<nat>, n: nat, j: nat, t: Tables, q: seq<bool>, b: bool)
    requires Inv(lens, n, j, t) && Used(lens, n) && FAST_BITS <= j < lens[n]
    requires q == CodeWord(lens, n)[..j] && q !in t.nodes
    ensures q + [b] !in Grow(t.nodes, q)
    ensures TreeEntry(lens, n, Grow(t.nodes, q), q + [b], 0)
  {
    var c := q + [b];
    assert !Member(lens, n, j, q);
    forall s: nat
      ensures !LeafHit(lens, n, s, c) && !(s < n && ProperPrefix(lens, s, c))
    {
      if s < n && Used(lens, s) && c <= CodeWord(lens, s) {
        assert q <= CodeWord(lens, s);
        assert ProperPrefix(lens, s, q);
        assert InEarlier(lens, n, q);
      }
    }
    assert c in t.nodes <==> Member(lens, n, j, c);
  }

  /** Entries of other bit strings do not notice an added node. */
  lemma GrowLookUpEntry(lens: seq<nat>, n: nat, nodes: map<seq<bool>, nat>, q: seq<bool>, p: seq<bool>, e: int)
    requires LookUpEntry(lens, n, nodes, p, e) && p != q
    ensures LookUpEntry(lens, n, Grow(nodes, q), p, e)
  {
  }

  lemma GrowTreeEntry(lens: seq<nat>, n: nat, nodes: map<seq<bool>, nat>, q: seq<bool>, p: seq<bool>, e: int)
    requires TreeEntry(lens, n, nodes, p, e) && p != q
    ensures TreeEntry(lens, n, Grow(nodes, q), p, e)
  {
  }

  lemma SlotInjective(p: seq<bool>, q: seq<bool>)
    requires |p| == |q| == FAST_BITS && Slot(p) == Slot(q)
    ensures p == q
  {
    LsbBitsVal(p);
    LsbBitsVal(q);
  }

  /** The node of the first ten bits is entered in the lookup table. */
  lemma NewRoot(lens: seq<nat>, n: nat, t: Tables, q: seq<bool>, t': Tables)
    requires Inv(lens, n, FAST_BITS, t) && Used(lens, n) && FAST_BITS < lens[n]
    requires q == CodeWord(lens, n)[..FAST_BITS] && q !in t.nodes && |t.nodes| < MAX_SYMBOLS
    requires t' == Tables(t.lookUp[Slot(q) := NodeRef(|t.nodes|)], t.tree, Grow(t.nodes, q))
    ensures Inv(lens, n, FAST_BITS + 1, t')
  {
    GrowNodes(lens, n, FAST_BITS, t.nodes, q);
    NewRootLookUp(lens, n, t, q, t');
    NewRootTree(lens, n, t, q, t');
  }

  lemma NewRootLookUp(lens: seq<nat>, n: nat, t: Tables, q: seq<bool>, t': Tables)
    requires LookUpOk(lens, n, t) && |q| == FAST_BITS
    requires t' == Tables(t.lookUp[Slot(q) := NodeRef(|t.nodes|)], t.tree, Grow(t.nodes, q))
    ensures LookUpOk(lens, n, t')
  {
    forall p | |p| == FAST_BITS
      ensures LookUpEntry(lens, n, t'.nodes, p, t'.lookUp[Slot(p)])
    {
      if p != q {
        if Slot(p) == Slot(q) {
          SlotInjective(p, q);
        }
        GrowLookUpEntry(lens, n, t.nodes, q, p, t.lookUp[Slot(p)]);
      }
    }
  }

  lemma NewRootTree(lens: seq<nat>, n: nat, t: Tables, q: seq<bool>, t': Tables)
    requires Inv(lens, n, FAST_BITS, t) && Used(lens, n) && FAST_BITS < lens[n]
    requires q == CodeWord(lens, n)[..FAST_BITS] && q !in t.nodes && |t.nodes| < MAX_SYMBOLS
    requires t' == Tables(t'.lookUp, t.tree, Grow(t.nodes, q)) && |t'.nodes| == |t.nodes| + 1
    ensures TreeOk(lens, n, t')
  {
    forall p, b
      ensures ChildOk(lens, n, t', p, b)
    {
      assert ChildOk(lens, n, t, p, b);
      if p == q {
        NoChildren(lens, n, FAST_BITS, t, q, b);
      } else if p in t.nodes {
        assert Member(lens, n, FAST_BITS, p);
        GrowTreeEntry(lens, n, t.nodes, q, p + [b], t.tree[2 * t.nodes[p] + BitVal(b)]);
      }
    }
  }

  /** A deeper node is entered in the slot of its parent. */
  lemma NewNode(lens: seq<nat>, n: nat, j: nat, t: Tables, q: seq<bool>, i: nat, t': Tables)
    requires Inv(lens, n, j, t) && Used(lens, n) && FAST_BITS < j < lens[n]
    requires q == CodeWord(lens, n)[..j] && q !in t.nodes && |t.nodes| < MAX_SYMBOLS
    requires q[..j - 1] in t.nodes && i == 2 * t.nodes[q[..j - 1]] + BitVal(q[j - 1])
    requires t' == Tables(t.lookUp, t.tree[i := NodeRef(|t.nodes|)], Grow(t.nodes, q))
    ensures Inv(lens, n, j + 1, t')
  {
    GrowNodes(lens, n, j, t.nodes, q);
    NewNodeLookUp(lens, n, t, q, t');
    NewNodeTree(lens, n, j, t, q, i, t');
  }

  lemma NewNodeLookUp(lens: seq<nat>, n: nat, t: Tables, q: seq<bool>, t': Tables)
    requires LookUpOk(lens, n, t) && |q| > FAST_BITS
    requires t' == Tables(t.lookUp, t'.tree, Grow(t.nodes, q))
    ensures LookUpOk(lens, n, t')
  {
    forall p | |p| == FAST_BITS
      ensures LookUpEntry(lens, n, t'.nodes, p, t'.lookUp[Slot(p)])
    {
      GrowLookUpEntry(lens, n, t.nodes, q, p, t.lookUp[Slot(p)]);
    }
  }

  lemma NewNodeTree(lens: seq<nat>, n: nat, j: nat, t: Tables, q: seq<bool>, i: nat, t': Tables)
    requires Inv(lens, n, j, t) && Used(lens, n) && FAST_BITS < j < lens[n]
    requires q == CodeWord(lens, n)[..j] && q !in t.nodes && |t.nodes| < MAX_SYMBOLS
    requires q[..j - 1] in t.nodes && i == 2 * t.nodes[q[..j - 1]] + BitVal(q[j - 1])
    requires t' == Tables(t'.lookUp, t.tree[i := NodeRef(|t.nodes|)], Grow(t.nodes, q))
    requires |t'.nodes| == |t.nodes| + 1
    ensures TreeOk(lens, n, t')
  {
    forall p, b
      ensures ChildOk(lens, n, t', p, b)
    {
      if p == q {
        NoChildren(lens, n, j, t, q, b);
      } else {
        assert ChildOk(lens, n, t, p, b);
        assert q == q[..j - 1] + [q[j - 1]];
        OldChild(lens, n, t, q[..j - 1], q[j - 1], i, t', p, b);
      }
    }
  }

  lemma OldChild(lens: seq<nat>, n: nat, t: Tables, p0: seq<bool>, b0: bool, i: nat, t': Tables, p: seq<bool>, b: bool)
    requires forall x, y :: x in t.nodes && y in t.nodes && t.nodes[x] == t.nodes[y] ==> x == y
    requires ChildOk(lens, n, t, p, b) && p != p0 + [b0]
    requires p0 in t.nodes && i == 2 * t.nodes[p0] + BitVal(b0) < |t.tree|
    requires t' == Tables(t'.lookUp, t.tree[i := NodeRef(|t.nodes|)], Grow(t.nodes, p0 + [b0]))
    ensures ChildOk(lens, n, t', p, b)
  {
    if p in t.nodes {
      if p + [b] == p0 + [b0] {
        assert p == (p + [b])[..|p0|] && b == (p + [b])[|p0|];
      } else {
        OtherSlot(t.nodes, p0, b0, p, b);
        GrowTreeEntry(lens, n, t.nodes, p0 + [b0], p + [b], t.tree[2 * t.nodes[p] + BitVal(b)]);
      }
    }
  }

  lemma OtherSlot(nodes: map<seq<bool>, nat>, p: seq<bool>, b: bool, q: seq<bool>, c: bool)
    requires forall x, y :: x in nodes && y in nodes && nodes[x] == nodes[y] ==> x == y
    requires p in nodes && q in nodes && p + [b] != q + [c]
    ensures 2 * nodes[p] + BitVal(b) != 2 * nodes[q] + BitVal(c)
  {
    if nodes[p] == nodes[q] {
      assert p == q;
    }
  }

  /** The last bit of a long code: the symbol is entered in the slot of its parent. */
  lemma NewLeaf(lens: seq<nat>, n: nat, t: Tables, i: nat, t': Tables)
    requires Used(lens, n) && FAST_BITS < lens[n] && Inv(lens, n, lens[n], t)
    requires var w := CodeWord(lens, n); var l := lens[n];
             w[..l - 1] in t.nodes && i == 2 * t.nodes[w[..l - 1]] + BitVal(w[l - 1])
    requires t' == t.(tree := t.tree[i := n])
    ensures Inv(lens, n + 1, FAST_BITS, t')
  {
    LeafMembers(lens, n);
    forall p | |p| == FAST_BITS
      ensures LookUpEntry(lens, n + 1, t'.nodes, p, t'.lookUp[Slot(p)])
    {
      LookUpSame(lens, n, t.nodes, p, t.lookUp[Slot(p)]);
    }
    NewLeafTree(lens, n, t, i, t');
  }

  lemma NewLeafTree(lens: seq<nat>, n: nat, t: Tables, i: nat, t': Tables)
    requires Used(lens, n) && FAST_BITS < lens[n] && Inv(lens, n, lens[n], t)
    requires var w := CodeWord(lens, n); var l := lens[n];
             w[..l - 1] in t.nodes && i == 2 * t.nodes[w[..l - 1]] + BitVal(w[l - 1])
    requires t' == t.(tree := t.tree[i := n])
    ensures TreeOk(lens, n + 1, t')
  {
    var w, l := CodeWord(lens, n), lens[n];
    assert w == w[..l - 1] + [w[l - 1]];
    assert w !in t.nodes by { ShortIsNotMember(lens, n, n, l, w); }
    var n' := n + 1;
    forall p, b
      ensures ChildOk(lens, n', t', p, b)
    {
      if p + [b] == w {
        assert p == (p + [b])[..l - 1] && b == (p + [b])[l - 1];
        assert LeafHit(lens, n', n, w);
      } else if p in t.nodes {
        assert ChildOk(lens, n, t, p, b);
        OtherSlot(t.nodes, w[..l - 1], w[l - 1], p, b);
        TreeSame(lens, n, t.nodes, p + [b], t.tree[2 * t.nodes[p] + BitVal(b)]);
      }
    }
  }

  lemma LeafMembers(lens: seq<nat>, n: nat)
    requires Used(lens, n)
    ensures forall p :: Member(lens, n + 1, FAST_BITS, p) <==> Member(lens, n, lens[n], p)
  {
    forall p
      ensures Member(lens, n + 1, FAST_BITS, p) <==> Member(lens, n, lens[n], p)
    {
      if FAST_BITS <= |p| {
        if InEarlier(lens, n + 1, p) {
          var s :| 0 <= s < n + 1 && ProperPrefix(lens, s, p);
          assert s == n ==> InCurrent(lens, n, lens[n], p);
        }
        if InCurrent(lens, n, lens[n], p) {
          assert ProperPrefix(lens, n, p);
        }
      }
    }
  }

  /** A code of at most ten bits is entered in every lookup slot it starts. */
  lemma NewShort(lens: seq<nat>, n: nat, t: Tables, t': Tables)
    requires Inv(lens, n, FAST_BITS, t) && Used(lens, n) && lens[n] <= FAST_BITS
    requires t' == t.(lookUp := t'.lookUp) && |t'.lookUp| == FAST_SIZE
    requires forall p :: |p| == FAST_BITS ==>
                           t'.lookUp[Slot(p)] ==
                           if CodeWord(lens, n) <= p then lens[n] * 512 + n else t.lookUp[Slot(p)]
    ensures Inv(lens, n + 1, FAST_BITS, t')
  {
    var w := CodeWord(lens, n);
    LeafMembers(lens, n);
    forall p | |p| == FAST_BITS
      ensures LookUpEntry(lens, n + 1, t'.nodes, p, t'.lookUp[Slot(p)])
    {
      assert LookUpEntry(lens, n, t.nodes, p, t.lookUp[Slot(p)]);
      if w <= p {
        ShortIsNotMember(lens, n, n, 0, p);
        assert ShortHit(lens, n + 1, n, p);
      } else {
        LookUpSame(lens, n, t.nodes, p, t.lookUp[Slot(p)]);
      }
    }
    var n' := n + 1;
    forall p, b
      ensures ChildOk(lens, n', t', p, b)
    {
      assert ChildOk(lens, n, t, p, b);
      if p in t.nodes {
        TreeSame(lens, n, t.nodes, p + [b], t.tree[2 * t.nodes[p] + BitVal(b)]);
      }
    }
  }

  // ---- counting the symbols in use ----

  function NonZero(lens: seq<nat>): nat {
    if lens == [] then 0
    else NonZero(lens[..|lens| - 1]) + (if lens[|lens| - 1] > 0 then 1 else 0)
  }

  lemma {:induction false} SumCountsIsNonZero(lens: seq<nat>)
    requires ValidLens(lens)
    ensures SumCounts(lens, MAX_BITS) == NonZero(lens)
  {
    if lens == [] {
      SumCountsEmpty(MAX_BITS);
    } else {
      var init := lens[..|lens| - 1];
      SumCountsIsNonZero(init);
      SumCountsSnoc(init, lens[|lens| - 1], MAX_BITS);
      assert init + [lens[|lens| - 1]] == lens;
    }
  }

  lemma {:induction false} NonZeroWitness(lens: seq<nat>) returns (s: nat)
    requires NonZero(lens) > 0
    ensures Used(lens, s)
  {
    if lens[|lens| - 1] > 0 {
      s := |lens| - 1;
    } else {
      s := NonZeroWitness(lens[..|lens| - 1]);
    }
  }

  lemma {:induction false} NonZeroPositive(lens: seq<nat>, s: nat)
    requires Used(lens, s)
    ensures NonZero(lens) > 0
  {
    if s < |lens| - 1 {
      NonZeroPositive(lens[..|lens| - 1], s);
    }
  }

  /** The counter test of the builder says that at most one symbol is in use. */
  lemma {:induction false} AtMostOneIsCount(lens: seq<nat>)
    ensures AtMostOne(lens) <==> NonZero(lens) <= 1
  {
    if lens == [] {
    } else {
      var init, last: nat := lens[..|lens| - 1], |lens| - 1;
      AtMostOneIsCount(init);
      forall s: nat
        ensures Used(init, s) <==> Used(lens, s) && s != last
      {
      }
      if lens[last] > 0 {
        if NonZero(init) > 0 {
          var s := NonZeroWitness(init);
          assert Used(lens, s) && Used(lens, last);
        } else {
          forall s: nat | Used(init, s)
            ensures false
          {
            NonZeroPositive(init, s);
          }
        }
      }
    }
  }

  lemma {:induction false} KraftAllZero(lens: seq<nat>)
    requires ValidLens(lens) && NonZero(lens) <= 1
    ensures NonZero(lens) == 0 ==> Kraft(lens, MAX_BITS) == 0
    ensures Kraft(lens, MAX_BITS) <= Pow2(MAX_BITS)
  {
    hide Pow2;
    if lens != [] {
      var init, l := lens[..|lens| - 1], lens[|lens| - 1];
      KraftAllZero(init);
      if l > 0 {
        Pow2Monotone(MAX_BITS - l, MAX_BITS);
        assert NonZero(init) == 0;
      }
    }
  }

  /** The builder's running total after length 15 is twice the Kraft sum. */
  lemma TotalIsKraft(lens: seq<nat>)
    requires ValidLens(lens)
    ensures FirstCode(lens, MAX_BITS + 1) == 2 * Kraft(lens, MAX_BITS)
  {
    KraftIsLo(lens, MAX_BITS);
    LoIsFirstCode(lens, MAX_BITS, MAX_BITS);
    assert Pow2(0) == 1;
  }

  lemma {:induction false} KraftFits(lens: seq<nat>)
    requires ValidLens(lens)
    ensures Kraft(lens, MAX_BITS) <= |lens| * 32768
  {
    if lens != [] {
      KraftFits(lens[..|lens| - 1]);
      Pow2Monotone(MAX_BITS - lens[|lens| - 1], MAX_BITS);
      Pow2Values();
    }
  }

  lemma {:induction false} TotalFits(lens: seq<nat>)
    requires ValidLens(lens) && |lens| <= MAX_SYMBOLS
    ensures FirstCode(lens, MAX_BITS + 1) < 0x1_0000_0000
  {
    hide FirstCode;
    hide Kraft;
    TotalIsKraft(lens);
    KraftFits(lens);
  }

  lemma {:induction false} CountsStart(lens: seq<nat>)
    ensures FirstCode(lens, 1) == 0 && SumCounts(lens, 0) == 0
  {
  }

  lemma {:induction false} CountsStep(lens: seq<nat>, l: nat)
    requires l >= 1
    ensures FirstCode(lens, l + 1) == (FirstCode(lens, l) + CountLen(lens, l)) * 2
    ensures SumCounts(lens, l) == SumCounts(lens, l - 1) + CountLen(lens, l)
  {
  }

  lemma AcceptableNotOversubscribed(lens: seq<nat>)
    requires Acceptable(lens)
    ensures NotOversubscribed(lens)
  {
    if !Complete(lens) {
      AtMostOneIsCount(lens);
      KraftAllZero(lens);
    }
  }

  // ---- decoding ----

  /** The bit buffer starts with the code of s. */
  ghost predicate Matches(lens: seq<nat>, s: nat, bitBuf: nat) {
    Used(lens, s) && CodeWord(lens, s) == LsbBits(bitBuf, lens[s])
  }

  /** Every bit buffer starts with the code of exactly one symbol. */
  lemma ExactlyOneMatch(lens: seq<nat>, bitBuf: nat) returns (s: nat)
    requires Complete(lens)
    ensures Matches(lens, s, bitBuf)
    ensures forall t: nat :: Matches(lens, t, bitBuf) ==> t == s
  {
    var w := LsbBits(bitBuf, MAX_BITS);
    s := SomeCodeWord(lens, w);
    LsbPrefix(bitBuf, lens[s], MAX_BITS);
    forall t: nat | Matches(lens, t, bitBuf)
      ensures t == s
    {
      MatchUnique(lens, s, t, bitBuf);
    }
  }

  lemma MatchUnique(lens: seq<nat>, s: nat, t: nat, bitBuf: nat)
    requires NotOversubscribed(lens) && Matches(lens, s, bitBuf) && Matches(lens, t, bitBuf)
    ensures s == t
  {
    var w := LsbBits(bitBuf, MAX_BITS);
    LsbPrefix(bitBuf, lens[s], MAX_BITS);
    LsbPrefix(bitBuf, lens[t], MAX_BITS);
    TwoPrefixes(lens, s, t, w);
  }

  /** A short code is found by the lookup alone. */
  lemma ShortLookUp(lens: seq<nat>, t: Tables, s: nat, p: seq<bool>)
    requires Inv(lens, |lens|, FAST_BITS, t) && |p| == FAST_BITS
    requires Used(lens, s) && lens[s] <= FAST_BITS && CodeWord(lens, s) <= p
    ensures t.lookUp[Slot(p)] == lens[s] * 512 + s
  {
    assert LookUpEntry(lens, |lens|, t.nodes, p, t.lookUp[Slot(p)]);
    ShortIsNotMember(lens, s, |lens|, FAST_BITS, p);
    assert ShortHit(lens, |lens|, s, p);
    var u: nat :| ShortHit(lens, |lens|, u, p) && t.lookUp[Slot(p)] == lens[u] * 512 + u;
    TwoPrefixes(lens, s, u, p);
  }

  /** On the way to a long code every prefix is a node. */
  lemma LongPath(lens: seq<nat>, t: Tables, s: nat, k: nat)
    requires Inv(lens, |lens|, FAST_BITS, t)
    requires Used(lens, s) && FAST_BITS <= k < lens[s]
    ensures CodeWord(lens, s)[..k] in t.nodes
  {
    var p := CodeWord(lens, s)[..k];
    assert ProperPrefix(lens, s, p);
    assert Member(lens, |lens|, FAST_BITS, p);
  }

  /** The slot at the end of the path holds the symbol. */
  lemma LongLeaf(lens: seq<nat>, t: Tables, s: nat)
    requires Inv(lens, |lens|, FAST_BITS, t) && Used(lens, s) && FAST_BITS < lens[s]
    ensures var w := CodeWord(lens, s); var p := w[..lens[s] - 1];
            p in t.nodes && 2 * t.nodes[p] + BitVal(w[lens[s] - 1]) < TREE_SIZE
            && t.tree[2 * t.nodes[p] + BitVal(w[lens[s] - 1])] == s
  {
    var w := CodeWord(lens, s);
    var p, b := w[..lens[s] - 1], w[lens[s] - 1];
    assert w == p + [b];
    LongPath(lens, t, s, lens[s] - 1);
    assert ChildOk(lens, |lens|, t, p, b);
    ShortIsNotMember(lens, s, |lens|, FAST_BITS, w);
    assert LeafHit(lens, |lens|, s, w);
    var e := t.tree[2 * t.nodes[p] + BitVal(b)];
    var u: nat :| LeafHit(lens, |lens|, u, w) && e == u;
    PrefixFree(lens, s, u);
  }

  /** The slot for code words of at most ten bits: the index ends in the reversed code. */
  lemma ShortSlot(w: seq<bool>, p: seq<bool>)
    requires |w| <= |p| == FAST_BITS
    ensures w <= p <==> Slot(p) % Pow2(|w|) == LsbVal(w)
  {
    LsbBitsVal(p);
    LsbMod(Slot(p), |w|);
    LsbPrefix(Slot(p), |w|, FAST_BITS);
    LsbBitsVal(w);
    assert Slot(p) % Pow2(|w|) == LsbVal(p[..|w|]);
    LsbBitsVal(p[..|w|]);
    if w <= p {
      assert p[..|w|] == w;
    }
  }

  method ReverseBits(code: nat, size: nat) returns (rev: nat)
    ensures rev == LsbVal(MsbBits(code, size))
  {
    rev := 0;
    var cur, l := code, size;
    ghost var done: seq<bool> := [];
    while l > 0
      invariant 0 <= l <= size && rev == LsbVal(done)
      invariant MsbBits(cur, l) + done == MsbBits(code, size)
    {
      done := [cur % 2 == 1] + done;
      rev := rev * 2 + cur % 2;
      cur := cur / 2;
      l := l - 1;
    }
    assert done == MsbBits(code, size);
  }

  /** What the code counter of length l stands at before symbol s. */
  ghost function NextCodeAt(lens: seq<nat>, s: nat, l: nat): nat
    requires s <= |lens| && l >= 1
  {
    FirstCode(lens, l) + CountLen(lens[..s], l)
  }

  lemma NextCodeStep(lens: seq<nat>, s: nat)
    requires s < |lens|
    ensures forall l :: l >= 1 ==>
                          NextCodeAt(lens, s + 1, l) == NextCodeAt(lens, s, l) + (if lens[s] == l then 1 else 0)
    ensures lens[s] > 0 ==> NextCodeAt(lens, s, lens[s]) == Code(lens, s)
  {
    assert lens[..s + 1][..s] == lens[..s];
  }

  lemma CountStep(lens: seq<nat>, s: nat)
    requires s < |lens|
    ensures forall l: nat :: CountLen(lens[..s + 1], l) == CountLen(lens[..s], l) + (if lens[s] == l then 1 else 0)
  {
    assert lens[..s + 1][..s] == lens[..s];
  }

  class HuffTable {
    const codeSize: seq<nat>
    const lookUp: array<int>
    const tree: array<int>
    ghost var nodes: map<seq<bool>, nat>

    ghost predicate Valid() {
      ValidLens(codeSize) && |codeSize| <= MAX_SYMBOLS
      && lookUp.Length == FAST_SIZE && tree.Length == TREE_SIZE && lookUp != tree
    }

    ghost function Contents(): (t: Tables)
      reads this, lookUp, tree
    {
      Tables(lookUp[..], tree[..], nodes)
    }

    ghost predicate Built()
      reads this, lookUp, tree
    {
      Valid() && Inv(codeSize, |codeSize|, FAST_BITS, Contents())
    }

    constructor (codeSize: seq<nat>)
      requires ValidLens(codeSize) && |codeSize| <= MAX_SYMBOLS
      ensures Valid() && this.codeSize == codeSize && fresh(lookUp) && fresh(tree)
    {
      this.codeSize := codeSize;
      lookUp := new int[FAST_SIZE](_ => 0);
      tree := new int[TREE_SIZE](_ => 0);
      nodes := map[];
    }

    /** Builds the tables, or refuses: exactly the complete codes and those with
        at most one symbol are accepted. */
    method Build() returns (ok: bool)
      requires Valid()
      modifies this, lookUp, tree
      ensures ok <==> Acceptable(codeSize)
      ensures ok ==> Built()
    {
      for i := 0 to FAST_SIZE
        invariant forall k :: 0 <= k < i ==> lookUp[k] == 0
      {
        lookUp[i] := 0;
      }
      for i := 0 to TREE_SIZE
        invariant forall k :: 0 <= k < i ==> tree[k] == 0
        invariant forall k :: 0 <= k < FAST_SIZE ==> lookUp[k] == 0
      {
        tree[i] := 0;
      }
      nodes := map[];
      var used, total, nextCode := CountCodes();
      TotalIsKraft(codeSize);
      SumCountsIsNonZero(codeSize);
      AtMostOneIsCount(codeSize);
      Pow2Values();
      if total != 65536 && used > 1 {
        return false;
      }
      AcceptableNotOversubscribed(codeSize);
      assert Contents() == Tables(seq(FAST_SIZE, _ => 0), seq(TREE_SIZE, _ => 0), map[]);
      EmptyInv(codeSize, Contents());
      EnterAll(nextCode);
      return true;
    }

    /** The counting pass: symbols in use, twice the Kraft sum, and the first
        code of every length. No 32-bit total can wrap. */
    method CountCodes() returns (used: nat, total: nat, nextCode: array<nat>)
      requires Valid()
      ensures used == SumCounts(codeSize, MAX_BITS)
      ensures total == FirstCode(codeSize, MAX_BITS + 1) < 0x1_0000_0000
      ensures fresh(nextCode) && nextCode.Length == 17
      ensures forall l :: 1 <= l <= MAX_BITS ==> nextCode[l] == FirstCode(codeSize, l)
    {
      hide FirstCode;
      hide SumCounts;
      hide CountLen;
      CountsStart(codeSize);
      var totalSyms := CountLengths();
      used, total := 0, 0;
      nextCode := new nat[17](_ => 0);
      var i := 1;
      while i <= 15
        invariant 1 <= i <= 16
        invariant used == SumCounts(codeSize, i - 1) && total == FirstCode(codeSize, i)
        invariant forall l :: 0 <= l < 16 ==> totalSyms[l] == CountLen(codeSize, l)
        invariant forall l :: 1 <= l <= i ==> nextCode[l] == FirstCode(codeSize, l)
      {
        CountsStep(codeSize, i);
        used := used + totalSyms[i];
        total := (total + totalSyms[i]) * 2;
        nextCode[i + 1] := total;
        i := i + 1;
      }
      TotalFits(codeSize);
    }

    method CountLengths() returns (totalSyms: array<nat>)
      requires Valid()
      ensures fresh(totalSyms) && totalSyms.Length == 16
      ensures forall l :: 0 <= l < 16 ==> totalSyms[l] == CountLen(codeSize, l)
    {
      totalSyms := new nat[16](_ => 0);
      var i := 0;
      while i < |codeSize|
        invariant 0 <= i <= |codeSize|
        invariant forall l :: 0 <= l < 16 ==> totalSyms[l] == CountLen(codeSize[..i], l)
      {
        CountStep(codeSize, i);
        totalSyms[codeSize[i]] := totalSyms[codeSize[i]] + 1;
        i := i + 1;
      }
      assert codeSize[..i] == codeSize;
    }

    ghost predicate CodesAt(nextCode: array<nat>, sym: nat)
      reads nextCode
    {
      && nextCode.Length == 17 && sym <= |codeSize|
      && forall l :: 1 <= l <= MAX_BITS ==> nextCode[l] == NextCodeAt(codeSize, sym, l)
    }

    /** The symbols below sym are in the tables, and treeNext is the next free node. */
    ghost predicate Entered(sym: nat, treeNext: int)
      reads this, lookUp, tree
    {
      Inv(codeSize, sym, FAST_BITS, Contents()) && treeNext == NodeRef(|nodes|)
    }

    method EnterAll(nextCode: array<nat>)
      requires Valid() && Acceptable(codeSize) && NotOversubscribed(codeSize)
      requires CodesAt(nextCode, 0)
      requires Inv(codeSize, 0, FAST_BITS, Contents()) && nodes == map[]
      modifies this, lookUp, tree, nextCode
      ensures Built()
    {
      var treeNext := -1;
      var sym := 0;
      while sym < |codeSize|
        invariant 0 <= sym <= |codeSize|
        invariant Entered(sym, treeNext)
        invariant CodesAt(nextCode, sym)
      {
        treeNext := EnterSymbol(sym, nextCode, treeNext);
        sym := sym + 1;
      }
    }

    method EnterSymbol(sym: nat, nextCode: array<nat>, treeNext0: int) returns (treeNext: int)
      requires Valid() && Acceptable(codeSize) && sym < |codeSize|
      requires Entered(sym, treeNext0)
      requires CodesAt(nextCode, sym)
      modifies this, lookUp, tree, nextCode
      ensures Entered(sym + 1, treeNext)
      ensures CodesAt(nextCode, sym + 1)
    {
      var size := codeSize[sym];
      NextCodeStep(codeSize, sym);
      if size == 0 {
        SkipUnused(codeSize, sym, Contents());
        treeNext := treeNext0;
      } else {
        var code := nextCode[size];
        nextCode[size] := nextCode[size] + 1;
        treeNext := EnterCode(sym, size, code, treeNext0);
      }
    }

    method EnterCode(sym: nat, size: nat, code: nat, treeNext0: int) returns (treeNext: int)
      requires Valid() && Acceptable(codeSize) && Used(codeSize, sym) && codeSize[sym] == size
      requires Entered(sym, treeNext0)
      requires code == Code(codeSize, sym)
      modifies this, lookUp, tree
      ensures Entered(sym + 1, treeNext)
    {
      var rev := ReverseBits(code, size);
      if size <= FAST_BITS {
        EnterShort(sym, size, rev);
        treeNext := treeNext0;
      } else {
        treeNext := EnterLong(sym, size, rev, treeNext0);
      }
    }

    method EnterShort(sym: nat, size: nat, rev0: nat)
      requires Valid() && Used(codeSize, sym) && codeSize[sym] == size <= FAST_BITS
      requires Inv(codeSize, sym, FAST_BITS, Contents())
      requires rev0 == LsbVal(CodeWord(codeSize, sym))
      modifies lookUp
      ensures Inv(codeSize, sym + 1, FAST_BITS, Contents())
    {
      ghost var before := Contents();
      ghost var p := Pow2(size);
      var step := Pow2(size);
      var k := size * 512 + sym;
      LsbBound(CodeWord(codeSize, sym));
      var rev := rev0;
      StepArith(rev0, p);
      while rev < FAST_SIZE
        invariant rev % p == rev0
        invariant forall i :: 0 <= i < FAST_SIZE ==>
                                lookUp[i] == if i < rev && i % p == rev0 then k else before.lookUp[i]
      {
        lookUp[rev] := k;
        StepSkips(rev, p);
        rev := rev + step;
      }
      ghost var after := Contents();
      forall q: seq<bool> | |q| == FAST_BITS
        ensures after.lookUp[Slot(q)] ==
                if CodeWord(codeSize, sym) <= q then k else before.lookUp[Slot(q)]
      {
        ShortSlot(CodeWord(codeSize, sym), q);
      }
      NewShort(codeSize, sym, before, after);
    }

    /** Walks from the lookup slot down the overflow tree, adding the nodes that
        are missing, and leaves the symbol in the last slot. */
    method EnterLong(sym: nat, size: nat, rev: nat, treeNext0: int) returns (treeNext: int)
      requires Valid() && Acceptable(codeSize) && Used(codeSize, sym) && codeSize[sym] == size > FAST_BITS
      requires Entered(sym, treeNext0)
      requires rev == LsbVal(CodeWord(codeSize, sym))
      modifies this, lookUp, tree
      ensures Entered(sym + 1, treeNext)
    {
      var treeCur;
      treeNext, treeCur := EnterRoot(sym, rev, treeNext0);
      treeNext, treeCur := Descend(sym, size, rev, treeCur, treeNext);
      EnterLeaf(sym, treeCur, treeNext);
    }

    /** Follows the code bit by bit to the slot that is to hold the symbol. */
    method Descend(sym: nat, size: nat, rev0: nat, treeCur0: int, treeNext0: int)
      returns (treeNext: int, treeCur: int)
      requires Valid() && Acceptable(codeSize) && Used(codeSize, sym) && codeSize[sym] == size > FAST_BITS
      requires OnPath(sym, FAST_BITS, treeCur0, treeNext0)
      requires rev0 == LsbVal(CodeWord(codeSize, sym))
      modifies this, tree
      ensures OnPath(sym, size - 1, treeCur + BitVal(CodeWord(codeSize, sym)[size - 1]), treeNext)
    {
      hide OnPath;
      hide Acceptable;
      hide CodeWord;
      hide LsbVal;
      treeNext, treeCur := treeNext0, treeCur0;
      var rev := rev0 / 512;
      Pow2Values();
      var j := size;
      ghost var k: nat := FAST_BITS;
      while j > FAST_BITS + 1
        invariant FAST_BITS + 1 <= j <= size && k == FAST_BITS + (size - j)
        invariant OnPath(sym, k, treeCur, treeNext)
        invariant rev == ShiftRight(rev0, k - 1)
      {
        rev, treeCur := NextBit(CodeWord(codeSize, sym), rev0, k, rev, treeCur);
        treeNext, treeCur := EnterNode(sym, k + 1, treeCur, treeNext);
        j := j - 1;
        k := k + 1;
      }
      rev, treeCur := NextBit(CodeWord(codeSize, sym), rev0, k, rev, treeCur);
    }

    /** rev >>= 1; treeCur -= rev & 1. */
    method NextBit(ghost w: seq<bool>, ghost rev0: nat, ghost k: nat, rev0k: nat, treeCur0: int)
      returns (rev: nat, treeCur: int)
      requires 1 <= k < |w| && rev0 == LsbVal(w) && rev0k == ShiftRight(rev0, k - 1)
      ensures rev == ShiftRight(rev0, k) && treeCur == treeCur0 - BitVal(w[k])
    {
      PathBit(w, rev0, k);
      rev := rev0k / 2;
      treeCur := treeCur0 - rev % 2;
    }

    /** The walk stands at the node of the first k bits of the code of sym. */
    ghost predicate OnPath(sym: nat, k: nat, treeCur: int, treeNext: int)
      reads this, lookUp, tree
    {
      && Used(codeSize, sym) && FAST_BITS <= k < codeSize[sym]
      && Inv(codeSize, sym, k + 1, Contents())
      && treeNext == NodeRef(|nodes|)
      && var q := CodeWord(codeSize, sym)[..k]; q in nodes && treeCur == NodeRef(nodes[q])
    }

    method EnterLeaf(sym: nat, at: int, ghost treeNext: int)
      requires Valid() && Used(codeSize, sym) && FAST_BITS < codeSize[sym]
      requires OnPath(sym, codeSize[sym] - 1, at + BitVal(CodeWord(codeSize, sym)[codeSize[sym] - 1]), treeNext)
      modifies tree
      ensures Entered(sym + 1, treeNext)
    {
      ghost var w := CodeWord(codeSize, sym);
      ghost var before := Contents();
      assert ChildOk(codeSize, sym, before, w[..codeSize[sym] - 1], w[codeSize[sym] - 1]);
      tree[-at - 1] := sym;
      NewLeaf(codeSize, sym, before, -at - 1, Contents());
    }

    method EnterRoot(sym: nat, rev: nat, treeNext0: int) returns (treeNext: int, treeCur: int)
      requires Valid() && Acceptable(codeSize) && Used(codeSize, sym) && codeSize[sym] > FAST_BITS
      requires Entered(sym, treeNext0)
      requires rev == LsbVal(CodeWord(codeSize, sym))
      modifies this, lookUp
      ensures OnPath(sym, FAST_BITS, treeCur, treeNext)
    {
      hide Inv;
      hide Acceptable;
      hide CodeWord;
      ghost var w := CodeWord(codeSize, sym);
      ghost var q := w[..FAST_BITS];
      ghost var before := Contents();
      treeNext := treeNext0;
      RootSlot(w, rev);
      treeCur := lookUp[rev % FAST_SIZE];
      RootEntry(codeSize, sym, before, q);
      if treeCur == 0 {
        RoomForNode(codeSize, sym, FAST_BITS, before, q);
        lookUp[rev % FAST_SIZE] := treeNext;
        nodes := Grow(nodes, q);
        treeCur := treeNext;
        treeNext := treeNext - 2;
        NewRoot(codeSize, sym, before, q, Contents());
      } else {
        KnownNode(codeSize, sym, FAST_BITS, before);
      }
    }

    method EnterNode(sym: nat, ghost k: nat, at: int, treeNext0: int) returns (treeNext: int, treeCur: int)
      requires Valid() && Acceptable(codeSize) && Used(codeSize, sym) && FAST_BITS < k < codeSize[sym]
      requires OnPath(sym, k - 1, at + BitVal(CodeWord(codeSize, sym)[k - 1]), treeNext0)
      modifies this, tree
      ensures OnPath(sym, k, treeCur, treeNext)
    {
      hide Inv;
      hide Acceptable;
      hide CodeWord;
      ghost var w := CodeWord(codeSize, sym);
      ghost var q := w[..k];
      ghost var before := Contents();
      treeNext := treeNext0;
      assert q[..k - 1] == w[..k - 1];
      ChildEntry(codeSize, sym, k, before, q);
      if tree[-at - 1] == 0 {
        RoomForNode(codeSize, sym, k, before, q);
        tree[-at - 1] := treeNext;
        nodes := Grow(nodes, q);
        treeCur := treeNext;
        treeNext := treeNext - 2;
        NewNode(codeSize, sym, k, before, q, -at - 1, Contents());
      } else {
        treeCur := tree[-at - 1];
        KnownNode(codeSize, sym, k, before);
      }
    }

    /** Decodes one symbol: the one whose code starts the bit buffer. */
    method Decode(bitBuf: nat) returns (sym: nat, codeLen: nat, rest: nat)
      requires Built()
      requires exists s: nat :: Matches(codeSize, s, bitBuf)
      ensures Matches(codeSize, sym, bitBuf) && codeLen == codeSize[sym]
      ensures forall s: nat :: Matches(codeSize, s, bitBuf) ==> s == sym
      ensures rest == ShiftRight(bitBuf, codeLen)
    {
      ghost var s: nat :| Matches(codeSize, s, bitBuf);
      MatchesOnly(codeSize, s, bitBuf);
      sym, codeLen := Probe(bitBuf, s);
      rest := ShiftRight(bitBuf, codeLen);
    }

    method Probe(bitBuf: nat, ghost s: nat) returns (sym: nat, codeLen: nat)
      requires Built() && Matches(codeSize, s, bitBuf)
      ensures sym == s && codeLen == codeSize[s]
    {
      FastSlot(bitBuf);
      FirstProbe(codeSize, Contents(), s, bitBuf);
      var temp := lookUp[bitBuf % FAST_SIZE];
      if temp >= 0 {
        codeLen, sym := temp / 512, temp % 512;
      } else {
        sym, codeLen := Walk(temp, bitBuf, s);
      }
    }

    /** The overflow part of the decoder: down the tree, one bit at a time. */
    method Walk(temp0: int, bitBuf: nat, ghost s: nat) returns (sym: nat, codeLen: nat)
      requires Built() && Matches(codeSize, s, bitBuf) && FAST_BITS < codeSize[s]
      requires var p := CodeWord(codeSize, s)[..FAST_BITS]; p in nodes && temp0 == NodeRef(nodes[p])
      ensures sym == s && codeLen == codeSize[s]
    {
      ghost var w := CodeWord(codeSize, s);
      var temp := temp0;
      codeLen := FAST_BITS;
      while temp < 0
        invariant FAST_BITS <= codeLen <= codeSize[s]
        invariant codeLen < codeSize[s] ==> w[..codeLen] in nodes && temp == NodeRef(nodes[w[..codeLen]])
        invariant codeLen == codeSize[s] ==> temp == s
        decreases codeSize[s] - codeLen
      {
        LsbBitAt(bitBuf, codeSize[s], codeLen);
        WalkStep(codeSize, Contents(), s, codeLen);
        temp := tree[-temp - 1 + (bitBuf / Pow2(codeLen)) % 2];
        codeLen := codeLen + 1;
      }
      sym := temp;
    }
  }

  lemma MatchesOnly(lens: seq<nat>, s: nat, bitBuf: nat)
    requires NotOversubscribed(lens) && Matches(lens, s, bitBuf)
    ensures forall t: nat :: Matches(lens, t, bitBuf) ==> t == s
  {
    forall t: nat | Matches(lens, t, bitBuf)
      ensures t == s
    {
      MatchUnique(lens, s, t, bitBuf);
    }
  }

  /** What the first table access returns: a short code's entry, or the node
      of the first ten bits of a long code. */
  lemma FirstProbe(lens: seq<nat>, t: Tables, s: nat, bitBuf: nat)
    requires Inv(lens, |lens|, FAST_BITS, t) && Matches(lens, s, bitBuf)
    ensures var e := t.lookUp[Slot(LsbBits(bitBuf, FAST_BITS))];
            if lens[s] <= FAST_BITS then e >= 0 && e / 512 == lens[s] && e % 512 == s
            else var p := CodeWord(lens, s)[..FAST_BITS]; p in t.nodes && e == NodeRef(t.nodes[p])
  {
    var p := LsbBits(bitBuf, FAST_BITS);
    if lens[s] <= FAST_BITS {
      LsbPrefix(bitBuf, lens[s], FAST_BITS);
      ShortLookUp(lens, t, s, p);
      ModUnique(lens[s] * 512 + s, 512, lens[s], s);
    } else {
      LsbPrefix(bitBuf, FAST_BITS, lens[s]);
      LongPath(lens, t, s, FAST_BITS);
      assert LookUpEntry(lens, |lens|, t.nodes, p, t.lookUp[Slot(p)]);
    }
  }

  function ShiftRight(v: nat, n: nat): nat {
    QuotientIsNat(v, Pow2(n));
    v / Pow2(n)
  }

  lemma QuotientIsNat(v: nat, p: nat)
    requires p > 0
    ensures v / p >= 0
  {
  }

  lemma StepArith(r: nat, p: nat)
    requires r < p
    ensures r % p == r
    ensures forall i :: 0 <= i < r ==> i % p != r
  {
    forall i | 0 <= i < r
      ensures i % p != r
    {
      ModUnique(i, p, 0, i);
    }
    ModUnique(r, p, 0, r);
  }

  /** Between r and r + p no index leaves the same remainder. */
  lemma StepSkips(r: nat, p: nat)
    requires p > 0
    ensures (r + p) % p == r % p
    ensures forall i :: r < i < r + p ==> i % p != r % p
  {
    var q, m := r / p, r % p;
    DivisionBasic(r, p);
    assert p * (q + 1) == p * q + p;
    ModUnique(r + p, p, q + 1, m);
    forall i | r < i < r + p
      ensures i % p != m
    {
      if i < p * (q + 1) {
        ModUnique(i, p, q, i - p * q);
      } else {
        ModUnique(i, p, q + 1, i - p * (q + 1));
      }
    }
  }

  /** The low ten bits of the reversed code name the slot of its first ten bits. */
  lemma RootSlot(w: seq<bool>, rev: nat)
    requires |w| >= FAST_BITS && rev == LsbVal(w)
    ensures rev % FAST_SIZE == Slot(w[..FAST_BITS])
  {
    Pow2Values();
    LsbMod(rev, FAST_BITS);
    LsbBitsVal(w);
    LsbPrefix(rev, FAST_BITS, |w|);
  }

  lemma FastSlot(bitBuf: nat)
    ensures bitBuf % FAST_SIZE == Slot(LsbBits(bitBuf, FAST_BITS))
  {
    Pow2Values();
    LsbMod(bitBuf, FAST_BITS);
  }

  /** Shifting the reversed code once more exposes bit k of the code word. */
  lemma PathBit(w: seq<bool>, rev: nat, k: nat)
    requires 1 <= k < |w| && rev == LsbVal(w)
    ensures rev / Pow2(k - 1) / 2 == rev / Pow2(k)
    ensures (rev / Pow2(k)) % 2 == BitVal(w[k])
  {
    LsbBitsVal(w);
    LsbBitAt(rev, |w|, k);
    DivTwice(rev, Pow2(k - 1));
  }

  lemma DivTwice(v: nat, p: nat)
    requires p >= 1
    ensures v / p / 2 == v / (2 * p)
  {
    var q, r := v / p, v % p;
    DivisionBasic(v, p);
    var q2, r2 := q / 2, q % 2;
    assert v == p * (2 * q2 + r2) + r == (2 * p) * q2 + (p * r2 + r);
    ModUnique(v, 2 * p, q2, p * r2 + r);
  }

  lemma RootEntry(lens: seq<nat>, n: nat, t: Tables, q: seq<bool>)
    requires Inv(lens, n, FAST_BITS, t) && Used(lens, n) && FAST_BITS < lens[n]
    requires q == CodeWord(lens, n)[..FAST_BITS]
    ensures t.lookUp[Slot(q)] == if q in t.nodes then NodeRef(t.nodes[q]) else 0
  {
    assert LookUpEntry(lens, n, t.nodes, q, t.lookUp[Slot(q)]);
    forall s: nat
      ensures !ShortHit(lens, n, s, q)
    {
      if ShortHit(lens, n, s, q) {
        assert CodeWord(lens, s) <= CodeWord(lens, n);
        PrefixFree(lens, s, n);
      }
    }
  }

  lemma ChildEntry(lens: seq<nat>, n: nat, k: nat, t: Tables, q: seq<bool>)
    requires Inv(lens, n, k, t) && Used(lens, n) && FAST_BITS < k < lens[n]
    requires q == CodeWord(lens, n)[..k] && q[..k - 1] in t.nodes
    ensures var i := 2 * t.nodes[q[..k - 1]] + BitVal(q[k - 1]);
            i < TREE_SIZE && t.tree[i] == if q in t.nodes then NodeRef(t.nodes[q]) else 0
  {
    assert q[..k - 1] + [q[k - 1]] == q;
    assert ChildOk(lens, n, t, q[..k - 1], q[k - 1]);
    forall s: nat
      ensures !LeafHit(lens, n, s, q)
    {
      if LeafHit(lens, n, s, q) {
        assert CodeWord(lens, s) <= CodeWord(lens, n);
        PrefixFree(lens, s, n);
      }
    }
  }

  /** One step of the decoder's walk goes to the next prefix, or to the symbol. */
  lemma WalkStep(lens: seq<nat>, t: Tables, s: nat, k: nat)
    requires Inv(lens, |lens|, FAST_BITS, t) && Used(lens, s) && FAST_BITS <= k < lens[s]
    requires CodeWord(lens, s)[..k] in t.nodes
    ensures var w := CodeWord(lens, s);
            var i := 2 * t.nodes[w[..k]] + BitVal(w[k]);
            i < TREE_SIZE
            && (k + 1 < lens[s] ==> w[..k + 1] in t.nodes && t.tree[i] == NodeRef(t.nodes[w[..k + 1]]))
            && (k + 1 == lens[s] ==> t.tree[i] == s)
  {
    var w := CodeWord(lens, s);
    if k + 1 < lens[s] {
      LongPath(lens, t, s, k + 1);
      assert w[..k] + [w[k]] == w[..k + 1];
      assert ChildOk(lens, |lens|, t, w[..k], w[k]);
    } else {
      LongLeaf(lens, t, s);
    }
  }
}
