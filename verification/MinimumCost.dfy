/**
 Why merging the two smallest items is optimal: any way of giving code lengths to a
 collection of weights can be turned into one for the collection with the two smallest
 weights merged, at a cost lower by their sum.
 */
module MinimumCost {
  import opened Bits
  import opened CanonicalCodes

  /** A weight with the length of its code. */
  datatype Coded = Coded(w: nat, len: nat)

  function Cost(ps: seq<Coded>): nat {
    if ps == [] then 0 else ps[0].w * ps[0].len + Cost(ps[1..])
  }

  predicate Within(ps: seq<Coded>, d: nat) {
    forall i :: 0 <= i < |ps| ==> ps[i].len <= d
  }

  /** The Kraft sum in units of 2^-d. */
  function Sum(ps: seq<Coded>, d: nat): nat
    requires Within(ps, d)
  {
    if ps == [] then 0 else Pow2(d - ps[0].len) + Sum(ps[1..], d)
  }

  function Weights(ps: seq<Coded>): multiset<nat> {
    if ps == [] then multiset{} else multiset{ps[0].w} + Weights(ps[1..])
  }

  /** Lengths a prefix code can have, for the given weights. */
  ghost predicate Assigns(ps: seq<Coded>, items: multiset<nat>, d: nat) {
    Weights(ps) == items && Within(ps, d) && Sum(ps, d) <= Pow2(d)
  }

  // ---- lists in any order ----

  lemma {:induction false} Cut(ps: seq<Coded>, i: nat, d: nat)
    requires i < |ps| && Within(ps, d)
    ensures var rest := ps[..i] + ps[i + 1..];
            && Within(rest, d)
            && Cost(ps) == ps[i].w * ps[i].len + Cost(rest)
            && Sum(ps, d) == Pow2(d - ps[i].len) + Sum(rest, d)
  {
    hide Pow2;
    hide Weights;
    var rest := ps[..i] + ps[i + 1..];
    if i == 0 {
      assert rest == ps[1..];
    } else {
      Cut(ps[1..], i - 1, d);
      assert ps[1..][..i - 1] + ps[1..][i..] == rest[1..];
      assert rest[0] == ps[0];
    }
  }

  lemma {:induction false} CutWeights(ps: seq<Coded>, i: nat)
    requires i < |ps|
    ensures Weights(ps) == multiset{ps[i].w} + Weights(ps[..i] + ps[i + 1..])
  {
    var rest := ps[..i] + ps[i + 1..];
    if i == 0 {
      assert rest == ps[1..];
    } else {
      CutWeights(ps[1..], i - 1);
      assert ps[1..][..i - 1] + ps[1..][i..] == rest[1..];
      assert rest[0] == ps[0];
    }
  }

  lemma {:induction false} FindWeight(ps: seq<Coded>, w: nat) returns (i: nat)
    requires w in Weights(ps)
    ensures i < |ps| && ps[i].w == w
  {
    if ps[0].w == w {
      i := 0;
    } else {
      i := FindWeight(ps[1..], w);
      i := i + 1;
    }
  }

  lemma {:induction false} InWeights(ps: seq<Coded>, i: nat)
    requires i < |ps|
    ensures ps[i].w in Weights(ps)
  {
    if i > 0 {
      InWeights(ps[1..], i - 1);
    }
  }

  /** Another element's length in place i. */
  lemma {:induction false} Replace(ps: seq<Coded>, i: nat, len: nat, d: nat)
    requires i < |ps| && Within(ps, d) && len <= d
    ensures var qs := ps[i := ps[i].(len := len)];
            && Within(qs, d) && Weights(qs) == Weights(ps)
            && Cost(qs) + ps[i].w * ps[i].len == Cost(ps) + ps[i].w * len
            && Sum(qs, d) + Pow2(d - ps[i].len) == Sum(ps, d) + Pow2(d - len)
  {
    hide Pow2;
    var qs := ps[i := ps[i].(len := len)];
    if i == 0 {
      assert qs[1..] == ps[1..];
    } else {
      Replace(ps[1..], i - 1, len, d);
      assert qs[1..] == ps[1..][i - 1 := ps[i].(len := len)];
    }
  }

  // ---- the longest codes for the smallest weights ----

  lemma {:induction false} Longest(ps: seq<Coded>) returns (i: nat)
    requires |ps| > 0
    ensures i < |ps| && forall j :: 0 <= j < |ps| ==> ps[j].len <= ps[i].len
  {
    if |ps| == 1 {
      i := 0;
    } else {
      i := Longest(ps[1..]);
      i := i + 1;
      if ps[0].len > ps[i].len {
        i := 0;
      }
    }
  }

  lemma SwapCost(x: nat, w: nat, la: nat, l: nat)
    requires x <= w && la <= l
    ensures x * l + w * la <= x * la + w * l
  {
    var a, b := w - x, l - la;
    assert 0 <= a * b == w * l - x * l - w * la + x * la;
  }

  /** If nothing weighs less than a, a can have the longest code. */
  lemma {:induction false} Promote(a: Coded, ps: seq<Coded>, d: nat) returns (a': Coded, qs: seq<Coded>)
    requires a.len <= d && Within(ps, d)
    requires forall w :: w in Weights(ps) ==> a.w <= w
    ensures a'.w == a.w && |qs| == |ps| && Weights(qs) == Weights(ps)
    ensures forall j :: 0 <= j < |ps| ==> qs[j].w == ps[j].w
    ensures a'.len <= d && Within(qs, d) && forall j :: 0 <= j < |qs| ==> qs[j].len <= a'.len
    ensures a'.len == a.len || exists j :: 0 <= j < |ps| && a'.len == ps[j].len
    ensures a'.w * a'.len + Cost(qs) <= a.w * a.len + Cost(ps)
    ensures Pow2(d - a'.len) + Sum(qs, d) == Pow2(d - a.len) + Sum(ps, d)
  {
    a', qs := a, ps;
    if |ps| > 0 {
      var i := Longest(ps);
      if ps[i].len > a.len {
        a', qs := a.(len := ps[i].len), ps[i := ps[i].(len := a.len)];
        Replace(ps, i, a.len, d);
        InWeights(ps, i);
        SwapCost(a.w, ps[i].w, a.len, ps[i].len);
      }
    }
  }

  // ---- shortening and merging ----

  lemma {:induction false} SumMultiple(ps: seq<Coded>, l: nat, d: nat) returns (q: nat)
    requires l <= d && forall j :: 0 <= j < |ps| ==> ps[j].len <= l
    ensures Within(ps, d) && Sum(ps, d) == q * Pow2(d - l)
  {
    if ps == [] {
      q := 0;
    } else {
      var r := SumMultiple(ps[1..], l, d);
      Pow2Add(l - ps[0].len, d - l);
      var p := Pow2(l - ps[0].len);
      q := p + r;
      Distribute(p, r, Pow2(d - l));
    }
  }

  lemma Multiples(u: nat, t: nat, q: nat, m: nat)
    requires 0 < u && 0 < t && u + q * t <= t * m
    ensures t + q * t <= t * m
  {
    assert q * t < m * t;
    MulLtCancel(q, m, t);
    assert (q + 1) * t <= m * t;
  }

  /** The longest code can be cut to the length of the second longest. */
  lemma {:induction false} Shorten(a: Coded, ps: seq<Coded>, l: nat, d: nat)
    requires l <= a.len <= d && Within(ps, d) && forall j :: 0 <= j < |ps| ==> ps[j].len <= l
    requires Pow2(d - a.len) + Sum(ps, d) <= Pow2(d)
    ensures Pow2(d - l) + Sum(ps, d) <= Pow2(d)
  {
    var q := SumMultiple(ps, l, d);
    Pow2Add(d - l, l);
    Multiples(Pow2(d - a.len), Pow2(d - l), q, Pow2(l));
  }

  /** The codes of two weights, taken out. */
  lemma {:induction false} TakeTwo(ps: seq<Coded>, items: multiset<nat>, x: nat, y: nat, d: nat)
    returns (a: Coded, b: Coded, rest: seq<Coded>)
    requires Within(ps, d) && Weights(ps) == (items + multiset{y}) + multiset{x}
    ensures a.w == x && b.w == y && a.len <= d && b.len <= d && Within(rest, d) && Weights(rest) == items
    ensures Cost(ps) == a.w * a.len + (b.w * b.len + Cost(rest))
    ensures Sum(ps, d) == Pow2(d - a.len) + (Pow2(d - b.len) + Sum(rest, d))
  {
    hide Pow2;
    hide Cost;
    hide Sum;
    hide Weights;
    var i := FindWeight(ps, x);
    Cut(ps, i, d);
    CutWeights(ps, i);
    var others := ps[..i] + ps[i + 1..];
    RemoveOne(x, Weights(others), items + multiset{y});
    var j := FindWeight(others, y);
    Cut(others, j, d);
    CutWeights(others, j);
    a, b, rest := ps[i], others[j], others[..j] + others[j + 1..];
    RemoveOne(y, Weights(rest), items);
  }

  lemma RemoveOne(x: nat, r: multiset<nat>, s: multiset<nat>)
    requires multiset{x} + r == s + multiset{x}
    ensures r == s
  {
    assert r == (multiset{x} + r) - multiset{x};
    assert s == (s + multiset{x}) - multiset{x};
  }

  lemma Front(a: Coded, ps: seq<Coded>, d: nat)
    requires a.len <= d && Within(ps, d)
    ensures Within([a] + ps, d)
    ensures Cost([a] + ps) == a.w * a.len + Cost(ps)
    ensures Sum([a] + ps, d) == Pow2(d - a.len) + Sum(ps, d)
    ensures Weights([a] + ps) == multiset{a.w} + Weights(ps)
  {
    hide Pow2;
    assert ([a] + ps)[1..] == ps;
  }

  /** One merge of the two smallest weights. */
  lemma {:induction false} MergeStep(ps: seq<Coded>, items: multiset<nat>, x: nat, y: nat, d: nat) returns (qs: seq<Coded>)
    requires Assigns(ps, items + multiset{x} + multiset{y}, d) && x <= y
    requires forall w :: w in items ==> y <= w
    ensures Assigns(qs, items + multiset{x + y}, d)
    ensures Cost(qs) + x + y <= Cost(ps)
  {
    hide Pow2;
    hide Cost;
    hide Sum;
    hide Weights;
    assert items + multiset{x} + multiset{y} == (items + multiset{y}) + multiset{x};
    var a, b, rest := TakeTwo(ps, items, x, y, d);
    Front(b, rest, d);
    Front(a, [b] + rest, d);
    var a1, others := Promote(a, [b] + rest, d);
    var b0, rest0 := others[0], others[1..];
    assert others == [b0] + rest0;
    assert others[0].w == ([b] + rest)[0].w;
    Front(b0, rest0, d);
    assert Weights(others) == items + multiset{y};
    RemoveOne(y, Weights(rest0), items);
    var b1, rest1 := Promote(b0, rest0, d);
    assert forall j :: 0 <= j < |rest0| ==> rest0[j] == others[j + 1];
    assert b1.len <= a1.len;
    qs := MergeFront(a1, b1, rest1, d);
    assert items + multiset{x + y} == multiset{x + y} + items;
  }

  /** The two longest codes, cut to the same length, make room for one a bit shorter. */
  lemma {:induction false} MergeFront(a: Coded, b: Coded, rest: seq<Coded>, d: nat) returns (qs: seq<Coded>)
    requires b.len <= a.len <= d && Within(rest, d) && forall j :: 0 <= j < |rest| ==> rest[j].len <= b.len
    requires Pow2(d - a.len) + (Pow2(d - b.len) + Sum(rest, d)) <= Pow2(d)
    ensures Within(qs, d) && Weights(qs) == multiset{a.w + b.w} + Weights(rest) && Sum(qs, d) <= Pow2(d)
    ensures Cost(qs) + a.w + b.w <= a.w * a.len + (b.w * b.len + Cost(rest))
  {
    Front(b, rest, d);
    var ps := [b] + rest;
    assert forall j :: 0 <= j < |ps| ==> ps[j].len <= b.len;
    Shorten(a, ps, b.len, d);
    assert b.len > 0;
    var m := Coded(a.w + b.w, b.len - 1);
    Front(m, rest, d);
    qs := [m] + rest;
    assert Pow2(d - (b.len - 1)) == 2 * Pow2(d - b.len);
    LengthsCost(a.w, b.w, a.len, b.len);
  }

  lemma LengthsCost(x: nat, y: nat, la: nat, l: nat)
    requires 0 < l <= la
    ensures (x + y) * (l - 1) + x + y <= x * la + y * l
  {
    assert (x + y) * (l - 1) + (x + y) == (x + y) * l == x * l + y * l;
    assert x * l <= x * la;
  }

  // ---- runs of merges ----

  /** Any lengths for the first collection give lengths for the second at a cost lower
      by c at least. */
  ghost predicate Reduces(first: multiset<nat>, items: multiset<nat>, c: nat, d: nat) {
    forall ps: seq<Coded> :: Assigns(ps, first, d) ==> Lowered(ps, items, c, d)
  }

  ghost predicate Lowered(ps: seq<Coded>, items: multiset<nat>, c: nat, d: nat) {
    exists qs: seq<Coded> :: Assigns(qs, items, d) && Cost(qs) + c <= Cost(ps)
  }

  lemma ReducesSelf(items: multiset<nat>, d: nat)
    ensures Reduces(items, items, 0, d)
  {
    forall ps: seq<Coded> | Assigns(ps, items, d)
      ensures Lowered(ps, items, 0, d)
    {
      assert Assigns(ps, items, d) && Cost(ps) + 0 <= Cost(ps);
    }
  }

  lemma {:induction false} ReducesStep(first: multiset<nat>, items: multiset<nat>, x: nat, y: nat, c: nat, d: nat)
    requires Reduces(first, items + multiset{x} + multiset{y}, c, d) && x <= y
    requires forall w :: w in items ==> y <= w
    ensures Reduces(first, items + multiset{x + y}, c + x + y, d)
  {
    hide Assigns;
    forall ps: seq<Coded> | Assigns(ps, first, d)
      ensures Lowered(ps, items + multiset{x + y}, c + x + y, d)
    {
      assert Lowered(ps, items + multiset{x} + multiset{y}, c, d);
      var qs :| Assigns(qs, items + multiset{x} + multiset{y}, d) && Cost(qs) + c <= Cost(ps);
      var rs := MergeStep(qs, items, x, y, d);
      assert Assigns(rs, items + multiset{x + y}, d) && Cost(rs) + (c + x + y) <= Cost(ps);
    }
  }
}
