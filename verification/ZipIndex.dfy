/**
 The ZIP reader's file name index: entry numbers heap-sorted by lower-cased name,
 searched by bisection, against the linear scan over the directory.
 */
module ZipIndex {

  type Name = seq<nat>

  datatype Entry = Entry(name: Name, comment: seq<nat>)

  function ToLower(c: nat): nat {
    if 65 <= c <= 90 then c - 65 + 97 else c
  }

  function Lower(a: Name): (r: Name)
    ensures |r| == |a| && forall i :: 0 <= i < |a| ==> r[i] == ToLower(a[i])
  {
    seq(|a|, i requires 0 <= i < |a| => ToLower(a[i]))
  }

  /** The same letter, in either case, or the same byte. */
  predicate SameLetter(x: nat, y: nat) {
    x == y || (65 <= x <= 90 && y == x + 32) || (65 <= y <= 90 && x == y + 32)
  }

  /** Names are the same ignoring case exactly when they differ only in the case of letters;
      it is the capital letters that are replaced. */
  lemma LowerExactly(a: Name, b: Name)
    ensures Lower(a) == Lower(b) <==> |a| == |b| && forall i :: 0 <= i < |a| ==> SameLetter(a[i], b[i])
    ensures forall i :: 0 <= i < |a| ==> SameLetter(Lower(a)[i], a[i]) && !(65 <= Lower(a)[i] <= 90)
  {
    if Lower(a) == Lower(b) {
      forall i | 0 <= i < |a|
        ensures SameLetter(a[i], b[i])
      {
        assert Lower(a)[i] == Lower(b)[i];
      }
    }
  }

  // ---- the order of names ----

  ghost predicate Less(a: Name, b: Name) {
    if b == [] then false
    else if a == [] then true
    else if a[0] != b[0] then a[0] < b[0]
    else Less(a[1..], b[1..])
  }

  /** The names agree on their first n bytes, and the first one ends there or goes on with a
      lower byte. */
  predicate FirstDifference(a: Name, b: Name, n: nat) {
    n <= |a| && n < |b| && a[..n] == b[..n] && (n < |a| ==> a[n] < b[n])
  }

  /** The order is that of the dictionary. */
  lemma {:induction false} LessExactly(a: Name, b: Name)
    ensures Less(a, b) <==> exists n: nat :: FirstDifference(a, b, n)
  {
    if a == [] || b == [] || a[0] != b[0] {
      assert Less(a, b) ==> FirstDifference(a, b, 0);
      forall n: nat | FirstDifference(a, b, n)
        ensures n == 0
      {
        SamePrefix(a, b, n);
      }
    } else {
      LessExactly(a[1..], b[1..]);
      if Less(a, b) {
        var n: nat :| FirstDifference(a[1..], b[1..], n);
        var n' := n + 1;
        assert a[..n'] == [a[0]] + a[1..][..n] && b[..n'] == [b[0]] + b[1..][..n];
        assert FirstDifference(a, b, n');
      }
      forall n: nat | FirstDifference(a, b, n)
        ensures Less(a, b)
      {
        assert n > 0;
        var n' := n - 1;
        assert a[1..][..n'] == a[..n][1..] && b[1..][..n'] == b[..n][1..];
        assert FirstDifference(a[1..], b[1..], n');
      }
    }
  }

  lemma SamePrefix(a: Name, b: Name, n: nat)
    requires n <= |a| && n <= |b| && a[..n] == b[..n]
    ensures forall i :: 0 <= i < n ==> a[i] == b[i]
  {
    assert forall i :: 0 <= i < n ==> a[..n][i] == b[..n][i];
  }

  ghost predicate Leq(a: Name, b: Name) {
    !Less(b, a)
  }

  lemma {:induction false} LessTransitive(a: Name, b: Name, c: Name)
    requires Less(a, b) && Less(b, c)
    ensures Less(a, c)
  {
    if a != [] && a[0] == b[0] == c[0] {
      LessTransitive(a[1..], b[1..], c[1..]);
    }
  }

  lemma {:induction false} LessIrreflexive(a: Name)
    ensures !Less(a, a)
  {
    if a != [] {
      LessIrreflexive(a[1..]);
    }
  }

  /** Names that neither precede each other are equal. */
  lemma {:induction false} LessTotal(a: Name, b: Name)
    ensures Less(a, b) || Less(b, a) || a == b
  {
    if a != [] && b != [] && a[0] == b[0] {
      LessTotal(a[1..], b[1..]);
      assert a[1..] == b[1..] ==> [a[0]] + a[1..] == [b[0]] + b[1..];
      assert a == [a[0]] + a[1..] && b == [b[0]] + b[1..];
    }
  }

  lemma LeqTransitive(a: Name, b: Name, c: Name)
    requires Leq(a, b) && Leq(b, c)
    ensures Leq(a, c)
  {
    if Less(c, a) {
      LessTotal(a, b);
      LessTotal(b, c);
      if a == b {
      } else if b == c {
      } else {
        LessTransitive(a, b, c);
        LessTransitive(a, c, a);
        LessIrreflexive(a);
      }
    }
  }

  lemma LeqReflexive(a: Name)
    ensures Leq(a, a)
  {
    LessIrreflexive(a);
  }

  /** Which name comes first, ignoring case. */
  method FilenameLess(a: Name, b: Name) returns (less: bool)
    ensures less <==> Less(Lower(a), Lower(b))
  {
    ghost var la, lb := Lower(a), Lower(b);
    var i, n := 0, if |a| < |b| then |a| else |b|;
    assert la[0..] == la && lb[0..] == lb;
    while i < n
      invariant 0 <= i <= n && (Less(la, lb) <==> Less(la[i..], lb[i..]))
    {
      if ToLower(a[i]) != ToLower(b[i]) {
        return ToLower(a[i]) < ToLower(b[i]);
      }
      assert la[i..][1..] == la[i + 1..] && lb[i..][1..] == lb[i + 1..];
      i := i + 1;
    }
    less := |a| < |b|;
  }

  /** Negative, zero or positive as a comes before, equals or comes after b. */
  method FilenameCompare(a: Name, b: Name) returns (c: int)
    ensures c < 0 <==> Less(Lower(a), Lower(b))
    ensures c > 0 <==> Less(Lower(b), Lower(a))
    ensures c == 0 <==> Lower(a) == Lower(b)
  {
    ghost var la, lb := Lower(a), Lower(b);
    LessIrreflexive(la);
    var i, n := 0, if |a| < |b| then |a| else |b|;
    assert la[0..] == la && lb[0..] == lb;
    while i < n
      invariant 0 <= i <= n && la[..i] == lb[..i]
      invariant Less(la, lb) <==> Less(la[i..], lb[i..])
      invariant Less(lb, la) <==> Less(lb[i..], la[i..])
    {
      if ToLower(a[i]) != ToLower(b[i]) {
        return ToLower(a[i]) - ToLower(b[i]);
      }
      assert la[i..][1..] == la[i + 1..] && lb[i..][1..] == lb[i + 1..];
      i := i + 1;
    }
    assert |a| == |b| ==> la == la[..i] && lb == lb[..i];
    c := |a| - |b|;
  }

  // ---- heaps of entry numbers ----

  ghost predicate InRange(entries: seq<Entry>, s: seq<nat>) {
    forall k :: 0 <= k < |s| ==> s[k] < |entries|
  }

  ghost function Key(entries: seq<Entry>, i: nat): Name
    requires i < |entries|
  {
    Lower(entries[i].name)
  }

  ghost predicate LeqAt(entries: seq<Entry>, s: seq<nat>, i: int, j: int)
    requires InRange(entries, s) && 0 <= i < |s| && 0 <= j < |s|
  {
    Leq(Key(entries, s[i]), Key(entries, s[j]))
  }

  function Parent(c: int): (p: int)
    requires c >= 1
    ensures 0 <= p < c && (c == 2 * p + 1 || c == 2 * p + 2)
  {
    (c - 1) / 2
  }

  /** Below `size`, every node whose parent is at or after `from` is in place. */
  ghost predicate HeapFrom(entries: seq<Entry>, s: seq<nat>, from: int, size: int)
    requires InRange(entries, s)
  {
    0 <= size <= |s| && forall c :: 1 <= c < size && Parent(c) >= from ==> LeqAt(entries, s, c, Parent(c))
  }

  /** While a value sinks from `start`, only the pairs below `root` may be wrong,
      and the nodes below `root` would fit under the parent of `root`. */
  ghost predicate Sinking(entries: seq<Entry>, s: seq<nat>, start: int, root: int, size: int)
    requires InRange(entries, s)
  {
    && 0 <= start <= root < size <= |s|
    && (forall c :: 1 <= c < size && Parent(c) >= start && Parent(c) != root ==> LeqAt(entries, s, c, Parent(c)))
    && (forall c :: 1 <= c < size && Parent(c) == root && root >= 1 && Parent(root) >= start ==>
                      LeqAt(entries, s, c, Parent(root)))
  }

  ghost function Swap(s: seq<nat>, i: int, j: int): (t: seq<nat>)
    requires 0 <= i < |s| && 0 <= j < |s|
    ensures |t| == |s|
  {
    s[i := s[j]][j := s[i]]
  }

  lemma SwapPermutes(s: seq<nat>, i: int, j: int, n: int)
    requires 0 <= i < n <= |s| && 0 <= j < n
    ensures multiset(Swap(s, i, j)[..n]) == multiset(s[..n])
    ensures Swap(s, i, j)[n..] == s[n..]
  {
    assert Swap(s, i, j)[..n] == s[..n][i := s[j]][j := s[i]];
  }

  /** One level down: the larger child takes the place of the root. */
  lemma SinkStep(entries: seq<Entry>, s: seq<nat>, start: int, root: int, child: int, size: int)
    requires InRange(entries, s) && Sinking(entries, s, start, root, size)
    requires 1 <= child < size && Parent(child) == root
    requires LeqAt(entries, s, root, child)
    requires forall c :: 1 <= c < size && Parent(c) == root ==> LeqAt(entries, s, c, child)
    ensures InRange(entries, Swap(s, root, child))
    ensures Sinking(entries, Swap(s, root, child), start, child, size)
  {
    var t := Swap(s, root, child);
    forall c | 1 <= c < size && Parent(c) >= start && Parent(c) != child
      ensures LeqAt(entries, t, c, Parent(c))
    {
      if c == root {
        assert LeqAt(entries, s, child, Parent(root));
      } else if Parent(c) == root {
        assert LeqAt(entries, s, c, child);
      } else {
        assert LeqAt(entries, s, c, Parent(c));
      }
    }
    forall c | 1 <= c < size && Parent(c) == child
      ensures LeqAt(entries, t, c, Parent(child))
    {
      assert LeqAt(entries, s, c, Parent(c));
    }
  }

  lemma StartSinking(entries: seq<Entry>, s: seq<nat>, start: int, size: int)
    requires InRange(entries, s) && 0 <= start < size && HeapFrom(entries, s, start + 1, size)
    ensures Sinking(entries, s, start, start, size)
  {
  }

  lemma LessAtIsLeq(entries: seq<Entry>, s: seq<nat>, i: int, j: int)
    requires InRange(entries, s) && 0 <= i < |s| && 0 <= j < |s|
    requires Less(Key(entries, s[i]), Key(entries, s[j]))
    ensures LeqAt(entries, s, i, j)
  {
    LessIsLeq(Key(entries, s[i]), Key(entries, s[j]));
  }

  lemma NotLessAtIsLeq(entries: seq<Entry>, s: seq<nat>, i: int, j: int)
    requires InRange(entries, s) && 0 <= i < |s| && 0 <= j < |s|
    requires !Less(Key(entries, s[i]), Key(entries, s[j]))
    ensures LeqAt(entries, s, j, i)
  {
  }

  lemma SinkDone(entries: seq<Entry>, s: seq<nat>, start: int, root: int, size: int)
    requires InRange(entries, s) && Sinking(entries, s, start, root, size)
    requires forall c :: 1 <= c < size && Parent(c) == root ==> LeqAt(entries, s, c, root)
    ensures HeapFrom(entries, s, start, size)
  {
  }

  /** The root of a heap is its largest element. */
  lemma {:induction false} RootIsMax(entries: seq<Entry>, s: seq<nat>, size: int, c: int)
    requires InRange(entries, s) && HeapFrom(entries, s, 0, size) && 0 <= c < size
    ensures LeqAt(entries, s, c, 0)
    decreases c
  {
    if c == 0 {
      LeqReflexive(Key(entries, s[0]));
    } else {
      var p := Parent(c);
      assert LeqAt(entries, s, c, p);
      RootIsMax(entries, s, size, p);
      LeqTransitive(Key(entries, s[c]), Key(entries, s[p]), Key(entries, s[0]));
    }
  }

  ghost predicate SortedFrom(entries: seq<Entry>, s: seq<nat>, from: int)
    requires InRange(entries, s)
  {
    forall i, j :: 0 <= from <= i <= j < |s| ==> LeqAt(entries, s, i, j)
  }

  /** Everything before `end` is at most everything from `end` on. */
  ghost predicate Split(entries: seq<Entry>, s: seq<nat>, end: int)
    requires InRange(entries, s)
  {
    forall i, j :: 0 <= i < end <= j < |s| ==> LeqAt(entries, s, i, j)
  }

  class Directory {
    const entries: seq<Entry>
    const indices: array<nat>

    ghost predicate Valid()
      reads indices
    {
      indices.Length == |entries| && InRange(entries, indices[..])
    }

    /** The index of a directory that has just been read: the entries in their own order. */
    constructor (entries: seq<Entry>)
      ensures Valid() && this.entries == entries && fresh(indices) && Complete(entries, indices[..])
    {
      this.entries := entries;
      indices := new nat[|entries|](i => i);
      new;
      forall i: nat | i < |entries|
        ensures i in indices[..]
      {
        assert indices[..][i] == i;
      }
    }

    /** Lets the value at `start` sink to its place in the heap below `size`. */
    method SiftDown(start: int, size: int)
      requires Valid() && 0 <= start < size <= indices.Length
      requires HeapFrom(entries, indices[..], start + 1, size)
      modifies indices
      ensures Valid() && HeapFrom(entries, indices[..], start, size)
      ensures multiset(indices[..][..size]) == multiset(old(indices[..])[..size])
      ensures indices[..][size..] == old(indices[..])[size..]
    {
      hide HeapFrom;
      hide LeqAt;
      hide Swap;
      var root := start;
      StartSinking(entries, indices[..], start, size);
      hide Sinking;
      while true
        invariant Valid() && Sinking(entries, indices[..], start, root, size)
        invariant start <= root < size
        invariant multiset(indices[..][..size]) == multiset(old(indices[..])[..size])
        invariant indices[..][size..] == old(indices[..])[size..]
        decreases size - root
      {
        var child := 2 * root + 1;
        if child >= size {
          SinkDone(entries, indices[..], start, root, size);
          break;
        }
        child := LargerChild(child, size);
        var less := FilenameLess(entries[indices[root]].name, entries[indices[child]].name);
        if !less {
          NotLessAtIsLeq(entries, indices[..], root, child);
          AllBelow(entries, indices[..], root, child, size);
          SinkDone(entries, indices[..], start, root, size);
          break;
        }
        LessAtIsLeq(entries, indices[..], root, child);
        SinkStep(entries, indices[..], start, root, child, size);
        SwapPermutes(indices[..], root, child, size);
        SwapAt(root, child);
        root := child;
      }
    }

    method LargerChild(left: int, size: int) returns (child: int)
      requires Valid() && 1 <= left < size <= indices.Length && left % 2 == 1
      ensures 1 <= child < size && Parent(child) == Parent(left)
      ensures forall c :: 1 <= c < size && Parent(c) == Parent(left) ==> LeqAt(entries, indices[..], c, child)
    {
      child := left;
      if left + 1 < size {
        var less := FilenameLess(entries[indices[left]].name, entries[indices[left + 1]].name);
        if less {
          child := left + 1;
          LessIsLeq(Key(entries, indices[left]), Key(entries, indices[left + 1]));
        }
      }
      LeqReflexive(Key(entries, indices[child]));
      assert Parent(left) == left / 2;
    }

    method SwapAt(i: int, j: int)
      requires Valid() && 0 <= i < indices.Length && 0 <= j < indices.Length
      modifies indices
      ensures indices[..] == Swap(old(indices[..]), i, j)
    {
      indices[i], indices[j] := indices[j], indices[i];
    }

    /** Sorts the entry numbers by lower-cased name, in place. */
    method Sort()
      requires Valid()
      modifies indices
      ensures Valid() && SortedFrom(entries, indices[..], 0)
      ensures multiset(indices[..]) == multiset(old(indices[..]))
    {
      var size := indices.Length;
      var start := (size - 2) / 2;
      while start >= 0
        invariant -1 <= start && (start >= 0 ==> start < size)
        invariant Valid() && HeapFrom(entries, indices[..], start + 1, size)
        invariant multiset(indices[..]) == multiset(old(indices[..]))
      {
        ghost var s := indices[..];
        assert s[..size] == s;
        SiftDown(start, size);
        assert indices[..][..size] == indices[..];
        start := start - 1;
      }
      TakeApart();
    }

    method TakeApart()
      requires Valid() && HeapFrom(entries, indices[..], 0, indices.Length)
      modifies indices
      ensures Valid() && SortedFrom(entries, indices[..], 0)
      ensures multiset(indices[..]) == multiset(old(indices[..]))
    {
      var end := indices.Length - 1;
      while end > 0
        invariant -1 <= end < indices.Length
        invariant Valid() && HeapFrom(entries, indices[..], 0, end + 1)
        invariant SortedFrom(entries, indices[..], end + 1) && Split(entries, indices[..], end + 1)
        invariant multiset(indices[..]) == multiset(old(indices[..]))
      {
        MoveLargest(end);
        end := end - 1;
      }
      LastOne(entries, indices[..], end);
    }

    method MoveLargest(end: int)
      requires Valid() && 0 < end < indices.Length && HeapFrom(entries, indices[..], 0, end + 1)
      requires SortedFrom(entries, indices[..], end + 1) && Split(entries, indices[..], end + 1)
      modifies indices
      ensures Valid() && HeapFrom(entries, indices[..], 0, end)
      ensures SortedFrom(entries, indices[..], end) && Split(entries, indices[..], end)
      ensures multiset(indices[..]) == multiset(old(indices[..]))
    {
      ghost var s := indices[..];
      LargestOut(entries, s, end);
      SwapPermutes(s, end, 0, |s|);
      assert s[..|s|] == s && Swap(s, end, 0)[..|s|] == Swap(s, end, 0);
      SwapAt(end, 0);
      ghost var t := indices[..];
      SiftDown(0, end);
      SameEnds(t, indices[..], end);
      SiftKeeps(entries, t, indices[..], end);
    }
  }

  lemma LessIsLeq(a: Name, b: Name)
    requires Less(a, b)
    ensures Leq(a, b)
  {
    if Less(b, a) {
      LessTransitive(a, b, a);
      LessIrreflexive(a);
    }
  }

  lemma AllBelow(entries: seq<Entry>, s: seq<nat>, root: int, child: int, size: int)
    requires InRange(entries, s) && 0 <= root < size <= |s| && 1 <= child < size
    requires LeqAt(entries, s, child, root)
    requires forall c :: 1 <= c < size && Parent(c) == root ==> LeqAt(entries, s, c, child)
    ensures forall c :: 1 <= c < size && Parent(c) == root ==> LeqAt(entries, s, c, root)
  {
    forall c | 1 <= c < size && Parent(c) == root
      ensures LeqAt(entries, s, c, root)
    {
      LeqTransitive(Key(entries, s[c]), Key(entries, s[child]), Key(entries, s[root]));
    }
  }

  /** Moving the root of the heap behind it extends the sorted part. */
  lemma LargestOut(entries: seq<Entry>, s: seq<nat>, end: int)
    requires InRange(entries, s) && 0 < end < |s| && HeapFrom(entries, s, 0, end + 1)
    requires SortedFrom(entries, s, end + 1) && Split(entries, s, end + 1)
    ensures var t := Swap(s, end, 0);
            InRange(entries, t) && HeapFrom(entries, t, 1, end)
            && SortedFrom(entries, t, end) && Split(entries, t, end)
  {
    var t := Swap(s, end, 0);
    forall i | 0 <= i <= end
      ensures LeqAt(entries, s, i, 0)
    {
      RootIsMax(entries, s, end + 1, i);
    }
    forall c | 1 <= c < end && Parent(c) >= 1
      ensures LeqAt(entries, t, c, Parent(c))
    {
      assert LeqAt(entries, s, c, Parent(c));
    }
    forall i, j | end <= i <= j < |t|
      ensures LeqAt(entries, t, i, j)
    {
      if i == end == j {
        LeqReflexive(Key(entries, t[end]));
      } else if i == end {
        assert LeqAt(entries, s, 0, j);
      } else {
        assert LeqAt(entries, s, i, j);
      }
    }
    forall i, j | 0 <= i < end <= j < |t|
      ensures LeqAt(entries, t, i, j)
    {
      var i' := if i == 0 then end else i;
      if j == end {
        assert LeqAt(entries, s, i', 0);
      } else {
        assert LeqAt(entries, s, i', j);
      }
    }
  }

  lemma SameEnds(t: seq<nat>, u: seq<nat>, n: int)
    requires |t| == |u| && 0 <= n <= |t| && t[n..] == u[n..]
    requires multiset(t[..n]) == multiset(u[..n])
    ensures multiset(t) == multiset(u)
  {
    assert t == t[..n] + t[n..] && u == u[..n] + u[n..];
  }

  /** Rearranging the front leaves it below the sorted part. */
  lemma SiftKeeps(entries: seq<Entry>, t: seq<nat>, u: seq<nat>, end: int)
    requires InRange(entries, t) && InRange(entries, u) && |t| == |u| && 0 <= end <= |t|
    requires t[end..] == u[end..] && multiset(t[..end]) == multiset(u[..end])
    requires SortedFrom(entries, t, end) && Split(entries, t, end)
    ensures SortedFrom(entries, u, end) && Split(entries, u, end)
  {
    forall i, j | end <= i <= j < |u|
      ensures LeqAt(entries, u, i, j)
    {
      assert u[i] == u[end..][i - end] == t[i] && u[j] == u[end..][j - end] == t[j];
      assert LeqAt(entries, t, i, j);
    }
    forall i, j | 0 <= i < end <= j < |u|
      ensures LeqAt(entries, u, i, j)
    {
      assert u[j] == u[end..][j - end] == t[j];
      assert u[..end][i] in multiset(t[..end]);
      var k :| 0 <= k < end && t[..end][k] == u[i];
      assert LeqAt(entries, t, k, j);
    }
  }

  lemma LastOne(entries: seq<Entry>, s: seq<nat>, end: int)
    requires InRange(entries, s) && -1 <= end <= 0 && end < |s|
    requires SortedFrom(entries, s, end + 1) && Split(entries, s, end + 1)
    ensures SortedFrom(entries, s, 0)
  {
    forall i, j | 0 <= i <= j < |s|
      ensures LeqAt(entries, s, i, j)
    {
      if i == j {
        LeqReflexive(Key(entries, s[i]));
      } else if i == 0 && end == 0 {
        assert LeqAt(entries, s, 0, j);
      } else {
        assert LeqAt(entries, s, i, j);
      }
    }
  }

  // ---- searching ----

  /** Entries whose name is this one, ignoring case. */
  ghost predicate SameName(entries: seq<Entry>, i: nat, name: Name) {
    i < |entries| && Lower(entries[i].name) == Lower(name)
  }

  /** Every entry number is listed. */
  ghost predicate Complete(entries: seq<Entry>, s: seq<nat>) {
    forall i: nat :: i < |entries| ==> i in s
  }

  /** -1, or an entry number. */
  ghost predicate Found(entries: seq<Entry>, r: int, name: Name) {
    (r == -1 && forall i: nat :: !SameName(entries, i, name))
    || (r >= 0 && SameName(entries, r, name))
  }

  lemma BelowHasNone(entries: seq<Entry>, s: seq<nat>, m: int, name: Name)
    requires InRange(entries, s) && SortedFrom(entries, s, 0) && 0 <= m < |s|
    requires Less(Key(entries, s[m]), Lower(name))
    ensures forall k :: 0 <= k <= m ==> !SameName(entries, s[k], name)
  {
    forall k | 0 <= k <= m
      ensures !SameName(entries, s[k], name)
    {
      assert LeqAt(entries, s, k, m);
    }
  }

  lemma AboveHasNone(entries: seq<Entry>, s: seq<nat>, m: int, name: Name)
    requires InRange(entries, s) && SortedFrom(entries, s, 0) && 0 <= m < |s|
    requires Less(Lower(name), Key(entries, s[m]))
    ensures forall k :: m <= k < |s| ==> !SameName(entries, s[k], name)
  {
    forall k | m <= k < |s|
      ensures !SameName(entries, s[k], name)
    {
      assert LeqAt(entries, s, m, k);
    }
  }

  /** Bisection over the sorted entry numbers. */
  method BinarySearch(entries: seq<Entry>, indices: array<nat>, name: Name) returns (r: int)
    requires InRange(entries, indices[..]) && SortedFrom(entries, indices[..], 0) && Complete(entries, indices[..])
    ensures Found(entries, r, name)
  {
    ghost var s := indices[..];
    var l, h := 0, indices.Length - 1;
    while l <= h
      invariant 0 <= l <= h + 1 <= indices.Length
      invariant forall k :: 0 <= k < l || h < k < indices.Length ==> !SameName(entries, s[k], name)
    {
      var m := (l + h) / 2;
      var comp := FilenameCompare(entries[indices[m]].name, name);
      if comp == 0 {
        return indices[m];
      } else if comp < 0 {
        BelowHasNone(entries, s, m, name);
        l := m + 1;
      } else {
        AboveHasNone(entries, s, m, name);
        h := m - 1;
      }
    }
    forall i: nat
      ensures !SameName(entries, i, name)
    {
      if i < |entries| {
        assert i in s;
        var k :| 0 <= k < |s| && s[k] == i;
        assert !SameName(entries, s[k], name);
      }
    }
    r := -1;
  }

  // ---- the general search ----

  datatype Flags = Flags(caseSensitive: bool, ignorePath: bool)

  ghost predicate StringEqual(a: seq<nat>, b: seq<nat>, caseSensitive: bool) {
    if caseSensitive then a == b else Lower(a) == Lower(b)
  }

  predicate IsSeparator(c: nat) {
    c == 47 || c == 92 || c == 58
  }

  /** The name after its last '/', '\\' or ':'. */
  function BaseName(a: Name): (r: Name)
    ensures |r| <= |a|
  {
    if a == [] || IsSeparator(a[|a| - 1]) then []
    else BaseName(a[..|a| - 1]) + [a[|a| - 1]]
  }

  /** What stands behind the last of the bytes 47, 92 and 58, or the whole name. */
  ghost predicate BehindLast(a: Name, r: Name) {
    && |r| <= |a| && a[|a| - |r|..] == r
    && (forall i :: 0 <= i < |r| ==> !(r[i] == 47 || r[i] == 92 || r[i] == 58))
    && (|r| < |a| ==> var c := a[|a| - |r| - 1]; c == 47 || c == 92 || c == 58)
  }

  lemma {:induction false} BaseIsBehind(a: Name)
    ensures BehindLast(a, BaseName(a))
  {
    hide BehindLast;
    if a == [] || IsSeparator(a[|a| - 1]) {
      NothingBehind(a);
    } else {
      var most, last := a[..|a| - 1], a[|a| - 1];
      BaseIsBehind(most);
      OneMoreBehind(most, BaseName(most), last);
      assert a == most + [last];
    }
  }

  lemma NothingBehind(a: Name)
    requires a == [] || IsSeparator(a[|a| - 1])
    ensures BehindLast(a, [])
  {
  }

  lemma OneMoreBehind(a: Name, r: Name, x: nat)
    requires BehindLast(a, r) && !IsSeparator(x)
    ensures BehindLast(a + [x], r + [x])
  {
    var k := |a| - |r|;
    assert (a + [x])[k..] == a[k..] + [x];
  }

  lemma BehindOnce(a: Name, r: Name, s: Name)
    requires BehindLast(a, r) && BehindLast(a, s)
    ensures |r| >= |s|
  {
  }

  lemma BaseNameExactly(a: Name, r: Name)
    ensures r == BaseName(a) <==> BehindLast(a, r)
  {
    BaseIsBehind(a);
    if BehindLast(a, r) {
      BehindOnce(a, r, BaseName(a));
      BehindOnce(a, BaseName(a), r);
    }
  }

  ghost function Searched(e: Entry, flags: Flags): Name {
    if flags.ignorePath then BaseName(e.name) else e.name
  }

  /** What the search asks of an entry; an absent or empty comment asks nothing. */
  ghost predicate Wanted(e: Entry, name: Name, comment: seq<nat>, flags: Flags) {
    && StringEqual(name, Searched(e, flags), flags.caseSensitive)
    && (comment == [] || StringEqual(comment, e.comment, flags.caseSensitive))
  }

  method StringEqualMethod(a: seq<nat>, b: seq<nat>, caseSensitive: bool) returns (equal: bool)
    requires |a| == |b|
    ensures equal <==> StringEqual(a, b, caseSensitive)
  {
    if caseSensitive {
      return a == b;
    }
    var i := 0;
    while i < |a|
      invariant 0 <= i <= |a| && Lower(a)[..i] == Lower(b)[..i]
    {
      if ToLower(a[i]) != ToLower(b[i]) {
        assert Lower(a)[i] != Lower(b)[i];
        return false;
      }
      i := i + 1;
    }
    assert Lower(a)[..i] == Lower(a) && Lower(b)[..i] == Lower(b);
    equal := true;
  }

  lemma {:induction false} BaseStep(a: Name, ofs: int)
    requires 0 <= ofs < |a|
    ensures if IsSeparator(a[ofs]) then BaseName(a[..ofs + 1]) == []
            else BaseName(a[..ofs + 1]) + a[ofs + 1..] == BaseName(a[..ofs]) + a[ofs..]
  {
    var b := a[..ofs + 1];
    assert b[..|b| - 1] == a[..ofs] && b[|b| - 1] == a[ofs];
    assert a[ofs..] == [a[ofs]] + a[ofs + 1..];
  }

  /** Drops everything up to the last separator. */
  method StripPath(a: Name) returns (r: Name)
    ensures r == BaseName(a)
  {
    if a == [] {
      return a;
    }
    hide BaseName;
    var ofs := |a| - 1;
    assert a[..ofs + 1] == a && a[ofs + 1..] == [];
    while ofs >= 0 && !IsSeparator(a[ofs])
      invariant -1 <= ofs < |a|
      invariant BaseName(a) == BaseName(a[..ofs + 1]) + a[ofs + 1..]
    {
      BaseStep(a, ofs);
      ofs := ofs - 1;
    }
    if ofs >= 0 {
      BaseStep(a, ofs);
    } else {
      NoBase(a);
    }
    r := a[ofs + 1..];
    assert [] + r == r;
  }

  lemma {:induction false} NoBase(a: Name)
    ensures BaseName(a[..0]) == []
  {
  }

  lemma WantedLengths(e: Entry, name: Name, comment: seq<nat>, flags: Flags)
    requires Wanted(e, name, comment, flags)
    ensures |name| == |Searched(e, flags)| <= |e.name|
    ensures comment != [] ==> |e.comment| == |comment|
  {
    assert |Lower(name)| == |name| && |Lower(Searched(e, flags))| == |Searched(e, flags)|;
    assert |Lower(comment)| == |comment| && |Lower(e.comment)| == |e.comment|;
  }

  method EntryMatches(e: Entry, name: Name, comment: seq<nat>, flags: Flags) returns (b: bool)
    ensures b <==> Wanted(e, name, comment, flags)
  {
    ghost var w := Wanted(e, name, comment, flags);
    if w {
      WantedLengths(e, name, comment, flags);
    }
    if |e.name| < |name| {
      return false;
    }
    if |comment| != 0 {
      if |e.comment| != |comment| {
        return false;
      }
      var same := StringEqualMethod(comment, e.comment, flags.caseSensitive);
      if !same {
        return false;
      }
    }
    var searched := e.name;
    if flags.ignorePath && |searched| != 0 {
      searched := StripPath(searched);
    }
    if |searched| != |name| {
      return false;
    }
    b := StringEqualMethod(name, searched, flags.caseSensitive);
  }

  /** The directory's own limits: names and comments have 16-bit lengths. */
  ghost predicate Stored(entries: seq<Entry>) {
    forall i :: 0 <= i < |entries| ==> |entries[i].name| <= 0xFFFF && |entries[i].comment| <= 0xFFFF
  }

  ghost predicate WantedAt(entries: seq<Entry>, i: nat, name: Name, comment: seq<nat>, flags: Flags) {
    i < |entries| && Wanted(entries[i], name, comment, flags)
  }

  /** The first wanted entry, or -1 when there is none. */
  method LinearSearch(entries: seq<Entry>, name: Name, comment: seq<nat>, flags: Flags) returns (r: int)
    ensures r == -1 ==> forall i: nat :: !WantedAt(entries, i, name, comment, flags)
    ensures r != -1 ==> r >= 0 && WantedAt(entries, r, name, comment, flags)
                        && forall i: nat :: i < r ==> !WantedAt(entries, i, name, comment, flags)
  {
    var fileIndex := 0;
    while fileIndex < |entries|
      invariant 0 <= fileIndex <= |entries|
      invariant forall i: nat :: i < fileIndex ==> !WantedAt(entries, i, name, comment, flags)
    {
      var matches := EntryMatches(entries[fileIndex], name, comment, flags);
      if matches {
        return fileIndex;
      }
      fileIndex := fileIndex + 1;
    }
    r := -1;
  }

  /**
   The search behind the archive's public call. With a sorted index and neither
   flags nor a comment it bisects, otherwise it scans; either way it finds a wanted
   entry exactly when there is one, and by a scan the first one.
   */
  method LocateFile(entries: seq<Entry>, indices: array<nat>, hasComment: bool, name: Name, comment: seq<nat>,
                    flags: Flags)
    returns (r: int)
    requires Stored(entries) && (!hasComment ==> comment == [])
    requires indices.Length > 0 ==>
               InRange(entries, indices[..]) && SortedFrom(entries, indices[..], 0) && Complete(entries, indices[..])
    ensures r == -1 <==> forall i: nat :: !WantedAt(entries, i, name, comment, flags)
    ensures r != -1 ==> r >= 0 && WantedAt(entries, r, name, comment, flags)
    ensures flags.caseSensitive || flags.ignorePath || hasComment || indices.Length == 0 ==>
              forall i: nat :: i < r ==> !WantedAt(entries, i, name, comment, flags)
  {
    if !flags.caseSensitive && !flags.ignorePath && !hasComment && indices.Length > 0 {
      r := BinarySearch(entries, indices, name);
      SameNameIsWanted(entries, name, flags);
      return;
    }
    if |name| > 0xFFFF || |comment| > 0xFFFF {
      forall i: nat
        ensures !WantedAt(entries, i, name, comment, flags)
      {
        if WantedAt(entries, i, name, comment, flags) {
          WantedLengths(entries[i], name, comment, flags);
        }
      }
      return -1;
    }
    r := LinearSearch(entries, name, comment, flags);
  }

  /**
   Reading a directory, sorting its index unless the caller asks not to, and locating a
   file: it is found exactly when there is one. An archive without an index is scanned.
   */
  method OpenAndLocate(entries: seq<Entry>, doNotSort: bool, hasComment: bool, name: Name, comment: seq<nat>, flags: Flags)
    returns (r: int)
    requires Stored(entries) && (!hasComment ==> comment == [])
    ensures r == -1 <==> forall i: nat :: !WantedAt(entries, i, name, comment, flags)
    ensures r != -1 ==> r >= 0 && WantedAt(entries, r, name, comment, flags)
  {
    if doNotSort {
      var none := new nat[0];
      r := LocateFile(entries, none, hasComment, name, comment, flags);
      return;
    }
    var directory := new Directory(entries);
    ghost var before := directory.indices[..];
    directory.Sort();
    SortedIsComplete(entries, before, directory.indices[..]);
    r := LocateFile(entries, directory.indices, hasComment, name, comment, flags);
  }

  lemma SameNameIsWanted(entries: seq<Entry>, name: Name, flags: Flags)
    requires !flags.caseSensitive && !flags.ignorePath
    ensures forall i: nat :: SameName(entries, i, name) <==> WantedAt(entries, i, name, [], flags)
  {
  }

  /** Sorting lists every entry number when they were all listed before. */
  lemma SortedIsComplete(entries: seq<Entry>, s: seq<nat>, t: seq<nat>)
    requires multiset(s) == multiset(t) && Complete(entries, s)
    ensures Complete(entries, t)
  {
    forall i: nat | i < |entries|
      ensures i in t
    {
      assert i in s;
      assert i in multiset(s);
    }
  }
}
