/**
  Comparing nodes and attributes, and putting a node set into document order (pugixml.cpp:8320-8402,
  9048-9108).
 */
module NodeSorting {
  import opened Collections
  import opened Documents
  import opened XPath
  import opened XPathRewrite
  import opened XPathModes
  import NodeOrder
  import Sorting

  function DocOrder(): Sorting.Order<XNode> { (x, y) => Ahead(x, y) }

  lemma AheadTotal(x: XNode, y: XNode)
    ensures Ahead(x, y) || x == y || Ahead(y, x)
  {
    BeforeTotal(x.p, y.p);
  }

  lemma AheadTransitive(x: XNode, y: XNode, z: XNode)
    requires Ahead(x, y) && Ahead(y, z)
    ensures Ahead(x, z)
  {
    if Before(x.p, y.p) && Before(y.p, z.p) { BeforeTransitive(x.p, y.p, z.p); }
  }

  lemma NodeOrderTotal()
    ensures Sorting.TotalOrder(DocOrder())
  {
    forall x: XNode, y: XNode ensures !Ahead(x, x) && (Ahead(x, y) || x == y || Ahead(y, x)) {
      AheadStrict(x, y);
      AheadTotal(x, y);
    }
    forall x: XNode, y: XNode, z: XNode | Ahead(x, y) && Ahead(y, z) ensures Ahead(x, z) { AheadTransitive(x, y, z); }
  }

  lemma {:induction false} NoDupCount(q: seq<XNode>, x: XNode)
    requires NoDup(q)
    ensures multiset(q)[x] == if x in q then 1 else 0
  {
    if q != [] {
      NoDupCount(q[1..], x);
      assert q == [q[0]] + q[1..];
      assert q[0] !in q[1..];
    }
  }

  lemma SameMultiset(a: seq<XNode>, b: seq<XNode>)
    requires NoDup(a) && NoDup(b) && SameNodes(a, b)
    ensures multiset(a) == multiset(b)
  {
    forall x ensures multiset(a)[x] == multiset(b)[x] { NoDupCount(a, x); NoDupCount(b, x); }
  }

  /** Any rearrangement of a node set in document order is the document order of that set. */
  lemma SortedIsSortDoc(d: Tree, q: seq<XNode>, r: seq<XNode>)
    requires AllIn(d, q) && NoDup(q) && multiset(r) == multiset(q) && Sorting.Sorted(DocOrder(), r, 0, |r|)
    ensures r == SortDoc(d, q)
  {
    NodeOrderTotal();
    SortDocIs(d, q);
    SortDocInOrder(d, q);
    var s := SortDoc(d, q);
    SameMultiset(s, q);
    forall i: nat, j: nat | i < j < |s| ensures !Ahead(s[j], s[i]) { AheadStrict(s[i], s[j]); }
    Sorting.SortedUnique(DocOrder(), r, s);
  }

  // ---------------------------------------------------------------------
  // The comparator
  // ---------------------------------------------------------------------

  /** Where a node's or an attribute's name or value stands in the parse buffer, if it is still there. */
  type Buffer = XNode -> Option<nat>

  /** Parsing writes in document order; a document in which nodes were moved has no positions. */
  ghost predicate InParseOrder(d: Tree, buffer: Buffer) {
    forall x, y :: InDoc(d, x) && InDoc(d, y) && buffer(x).Some? && buffer(y).Some? ==>
      (buffer(x).value < buffer(y).value <==> Ahead(x, y))
  }

  /** What the comparator answers: document order, except that an attribute without a position comes before itself. */
  predicate Compares(buffer: Buffer, x: XNode, y: XNode) { Ahead(x, y) || (x == y && x.Attr? && buffer(x).None?) }

  function Comparison(buffer: Buffer): Sorting.Order<XNode> { (x, y) => Compares(buffer, x, y) }

  /**
    So it decides document order between different nodes, and is a strict order exactly if every
    attribute has a position.
   */
  lemma ComparisonDecides(buffer: Buffer)
    ensures Sorting.TotalOrder(DocOrder()) && Sorting.Decides(Comparison(buffer), DocOrder())
    ensures Sorting.Strict(Comparison(buffer)) <==> forall x: XNode :: x.Attr? ==> buffer(x).Some?
  {
    NodeOrderTotal();
    forall x: XNode ensures Comparison(buffer)(x, x) <==> x.Attr? && buffer(x).None? { AheadStrict(x, x); }
    if Sorting.Strict(Comparison(buffer)) {
      forall x: XNode | x.Attr? ensures buffer(x).Some? { assert !Comparison(buffer)(x, x); }
    }
  }

  /** The operator () of document_order_comparator. */
  method CompareNodes(d: Tree, ghost buffer: Buffer, lo: Option<nat>, ro: Option<nat>, lhs: XNode, rhs: XNode)
    returns (before: bool)
    requires InDoc(d, lhs) && InDoc(d, rhs) && InParseOrder(d, buffer) && lo == buffer(lhs) && ro == buffer(rhs)
    ensures before == Compares(buffer, lhs, rhs)
  {
    AheadStrict(lhs, rhs);
    AheadTotal(lhs, rhs);
    BeforeTotal(lhs.p, rhs.p);
    if lo.Some? && ro.Some? { return lo.value < ro.value; }
    if lhs.Attr? && rhs.Attr? {
      if lhs.p == rhs.p {
        before := AttributeReached(|At(d, lhs.p).attrs|, lhs.a, rhs.a);
        return;
      }
    } else if lhs.Attr? {
      if lhs.p == rhs.p { return false; }
    } else if rhs.Attr? {
      if rhs.p == lhs.p { return true; }
    }
    if lhs.p == rhs.p { return false; }
    before := NodeOrder.NodeIsBefore(d, lhs.p, rhs.p);
  }

  /** The loop over the attributes from the left one on. */
  method AttributeReached(n: nat, left: nat, right: nat) returns (reached: bool)
    requires left < n && right < n
    ensures reached == (left <= right)
  {
    var a := left;
    while a < n
      invariant left <= a <= n && !(left <= right < a)
    {
      if a == right { return true; }
      a := a + 1;
    }
    return false;
  }

  // ---------------------------------------------------------------------
  // Sorting a node set
  // ---------------------------------------------------------------------

  lemma BackwardsArranged(q: seq<XNode>)
    ensures Arranged(q, Descending) <==> InOrder(Backwards(q))
    ensures Backwards(Backwards(q)) == q
  {
    var r := Backwards(q);
    if InOrder(r) {
      forall i, j | 0 <= i < j < |q| ensures Ahead(q[j], q[i]) {
        assert Comes(Ascending, r[|q| - 1 - j], r[|q| - 1 - i]);
      }
    }
    if Arranged(q, Descending) {
      forall i, j | 0 <= i < j < |r| ensures Ahead(r[i], r[j]) {
        assert Comes(Descending, q[|q| - 1 - j], q[|q| - 1 - i]);
      }
    }
  }

  /** A node set in the order asked for. */
  function InType(d: Tree, q: seq<XNode>, rev: bool): seq<XNode> {
    if rev then Backwards(SortDoc(d, q)) else SortDoc(d, q)
  }

  lemma InOrderSame(d: Tree, q: seq<XNode>)
    requires AllIn(d, q) && InOrder(q)
    ensures SortDoc(d, q) == q
  {
    ArrangedNoDup(q, Ascending);
    forall i: nat, j: nat | i < j < |q| ensures !DocOrder()(q[j], q[i]) { AheadStrict(q[i], q[j]); }
    SortedIsSortDoc(d, q, q);
  }

  lemma BackwardsSet(d: Tree, q: seq<XNode>)
    requires AllIn(d, q) && NoDup(q)
    ensures Backwards(Backwards(q)) == q && AllIn(d, Backwards(q)) && SortDoc(d, Backwards(q)) == SortDoc(d, q)
  {
    forall x ensures x in Backwards(q) <==> x in q {
      if x in q {
        var i :| 0 <= i < |q| && q[i] == x;
        assert Backwards(q)[|q| - 1 - i] == x;
      }
    }
    AmongSame(AllNodes(d), Backwards(q), q);
  }

  lemma ArrangedIs(d: Tree, q: seq<XNode>, t: SetType)
    requires AllIn(d, q) && NoDup(q) && Arranged(q, t) && !t.Unsorted?
    ensures q == InType(d, q, t.Descending?)
  {
    if t.Ascending? {
      InOrderSame(d, q);
    } else {
      BackwardsSet(d, q);
      BackwardsArranged(q);
      InOrderSame(d, Backwards(q));
    }
  }

  /** Consecutive comparisons all alike make the whole sequence ascending or descending. */
  lemma {:induction false} StepsInOrder(q: seq<XNode>)
    requires forall i :: 0 <= i < |q| - 1 ==> Ahead(q[i], q[i + 1])
    ensures InOrder(q)
  {
    if |q| > 1 {
      var r := q[1..];
      forall i | 0 <= i < |r| - 1 ensures Ahead(r[i], r[i + 1]) { assert Ahead(q[i + 1], q[i + 1 + 1]); }
      StepsInOrder(r);
      forall i, j | 0 <= i < j < |q| ensures Ahead(q[i], q[j]) {
        assert Ahead(q[0], q[0 + 1]);
        if i > 0 { assert Ahead(r[i - 1], r[j - 1]); } else if j > 1 {
          assert Ahead(r[0], r[j - 1]);
          AheadTransitive(q[0], q[1], q[j]);
        }
      }
    }
  }

  lemma StepsDescend(q: seq<XNode>)
    requires forall i :: 0 <= i < |q| - 1 ==> Ahead(q[i + 1], q[i])
    ensures Arranged(q, Descending)
  {
    var r := Backwards(q);
    forall i | 0 <= i < |r| - 1 ensures Ahead(r[i], r[i + 1]) {
      var k := |q| - 2 - i;
      assert Ahead(q[k + 1], q[k]);
    }
    StepsInOrder(r);
    BackwardsArranged(q);
  }

  /** Consecutive nodes compare as `first` says. */
  predicate Steps(q: seq<XNode>, first: bool, n: nat) {
    n <= |q| && forall i :: 0 <= i < n - 1 ==> if first then Ahead(q[i], q[i + 1]) else Ahead(q[i + 1], q[i])
  }

  lemma StepsType(q: seq<XNode>, first: bool)
    requires Steps(q, first, |q|)
    ensures Arranged(q, if first then Ascending else Descending)
  {
    if first { StepsInOrder(q); } else { StepsDescend(q); }
  }

  /** xpath_get_order. */
  method GetOrder(d: Tree, buffer: Buffer, a: array<XNode>, n: nat) returns (t: SetType)
    requires n <= a.Length && AllIn(d, a[..n]) && NoDup(a[..n]) && InParseOrder(d, buffer)
    ensures Arranged(a[..n], t)
  {
    ghost var q := a[..n];
    if n < 2 { return Ascending; }
    var first := ComparePair(d, buffer, a, n, 0);
    var i := 1;
    while i + 1 < n
      invariant 1 <= i < n && Steps(q, first, i + 1)
    {
      var next := ComparePair(d, buffer, a, n, i);
      if next != first { return Unsorted; }
      i := i + 1;
    }
    StepsType(q, first);
    return if first then Ascending else Descending;
  }

  method ComparePair(d: Tree, buffer: Buffer, a: array<XNode>, n: nat, i: nat) returns (before: bool)
    requires i + 1 < n <= a.Length && AllIn(d, a[..n]) && NoDup(a[..n]) && InParseOrder(d, buffer)
    ensures if before then Ahead(a[..n][i], a[..n][i + 1]) else Ahead(a[..n][i + 1], a[..n][i])
  {
    assert a[..n][i] in a[..n] && a[..n][i + 1] in a[..n] && a[..n][i] != a[..n][i + 1];
    AheadTotal(a[i], a[i + 1]);
    before := CompareNodes(d, buffer, buffer(a[i]), buffer(a[i + 1]), a[i], a[i + 1]);
  }

  /** The ends of s[..n] outside [begin, end) have changed places. */
  ghost predicate Turned(s: seq<XNode>, t: seq<XNode>, n: nat, begin: nat, end: nat) {
    && begin <= end <= n <= |s| == |t| && begin + end == n && t[n..] == s[n..]
    && (forall k :: begin <= k < end ==> t[k] == s[k])
    && (forall k :: 0 <= k < begin || end <= k < n ==> t[k] == s[n - 1 - k])
  }

  lemma TurnedMore(s: seq<XNode>, t: seq<XNode>, n: nat, begin: nat, end: nat)
    requires Turned(s, t, n, begin, end) && end - begin > 1
    ensures Turned(s, t[begin := t[end - 1]][end - 1 := t[begin]], n, begin + 1, end - 1)
  {
    var u := t[begin := t[end - 1]][end - 1 := t[begin]];
    assert u[n..] == t[n..];
    assert t[begin] == s[begin] && t[end - 1] == s[end - 1];
  }

  lemma TurnedAll(s: seq<XNode>, t: seq<XNode>, n: nat, begin: nat, end: nat)
    requires Turned(s, t, n, begin, end) && end - begin <= 1
    ensures t[..n] == Backwards(s[..n])
  {
  }

  method Reverse(a: array<XNode>, n: nat)
    requires n <= a.Length
    modifies a
    ensures a[..n] == Backwards(old(a[..n])) && a[n..] == old(a[n..])
  {
    var begin, end := 0, n;
    while end - begin > 1
      invariant Turned(old(a[..]), a[..], n, begin, end)
    {
      TurnedMore(old(a[..]), a[..], n, begin, end);
      SwapNodes(a, begin, end - 1);
      begin, end := begin + 1, end - 1;
    }
    TurnedAll(old(a[..]), a[..], n, begin, end);
    assert a[..n] == a[..][..n] && a[n..] == a[..][n..];
  }

  method SwapNodes(a: array<XNode>, i: nat, j: nat)
    requires i < j < a.Length
    modifies a
    ensures a[..] == old(a[..])[i := old(a[j])][j := old(a[i])]
  {
    a[i], a[j] := a[j], a[i];
  }

  /** xpath_sort: sorts what is not known to be sorted, unless it turns out to be, and reverses if asked to. */
  method SortSet(d: Tree, buffer: Buffer, a: array<XNode>, n: nat, t: SetType, rev: bool) returns (order: SetType)
    requires n <= a.Length && AllIn(d, a[..n]) && NoDup(a[..n]) && InParseOrder(d, buffer) && Arranged(a[..n], t)
    modifies a
    ensures order == (if rev then Descending else Ascending)
    ensures a[..n] == InType(d, old(a[..n]), rev) && a[n..] == old(a[n..])
  {
    order := if rev then Descending else Ascending;
    var t' := ToSorted(d, buffer, a, n, t);
    OtherWay(d, old(a[..n]), t'.Descending?);
    if t' != order { Reverse(a, n); }
  }

  lemma OtherWay(d: Tree, q: seq<XNode>, rev: bool)
    ensures Backwards(InType(d, q, rev)) == InType(d, q, !rev)
  {
    var s := SortDoc(d, q);
    assert Backwards(Backwards(s)) == s;
  }

  /** The set in one of the two orders. */
  method ToSorted(d: Tree, buffer: Buffer, a: array<XNode>, n: nat, t: SetType) returns (t': SetType)
    requires n <= a.Length && AllIn(d, a[..n]) && NoDup(a[..n]) && InParseOrder(d, buffer) && Arranged(a[..n], t)
    modifies a
    ensures !t'.Unsorted? && a[..n] == InType(d, old(a[..n]), t'.Descending?) && a[n..] == old(a[n..])
  {
    t' := t;
    if t.Unsorted? {
      t' := GetOrder(d, buffer, a, n);
      if t'.Unsorted? {
        SortNodes(d, buffer, a, n);
        t' := Ascending;
        return;
      }
    }
    ArrangedIs(d, a[..n], t');
  }

  /** The quicksort on the array of a node set of n nodes, with the comparator as it is. */
  method SortNodes(d: Tree, buffer: Buffer, a: array<XNode>, n: nat)
    requires n <= a.Length && AllIn(d, a[..n]) && NoDup(a[..n])
    modifies a
    ensures a[..n] == SortDoc(d, old(a[..n])) && a[n..] == old(a[n..])
  {
    ComparisonDecides(buffer);
    ghost var s := a[..];
    assert s[0..n] == a[..n];
    NoDupSingle(s, n);
    var _ := Sorting.Sort(a, 0, n, Comparison(buffer), DocOrder());
    SortedPart(d, s, a[..], n);
    assert a[..n] == a[..][..n] && a[n..] == a[..][n..];
  }

  lemma NoDupSingle(s: seq<XNode>, n: nat)
    requires n <= |s| && NoDup(s[0..n])
    ensures Sorting.Single(s, 0, n)
  {
    forall x ensures multiset(s[0..n])[x] <= 1 { NoDupCount(s[0..n], x); }
  }

  lemma SortedPart(d: Tree, s: seq<XNode>, t: seq<XNode>, n: nat)
    requires Sorting.Permuted(s, t, 0, n) && Sorting.Sorted(DocOrder(), t, 0, n) && AllIn(d, s[..n]) && NoDup(s[..n])
    ensures t[..n] == SortDoc(d, s[..n]) && t[n..] == s[n..]
  {
    assert s[0..n] == s[..n] && t[0..n] == t[..n];
    forall i: nat, j: nat | i < j < n ensures !Ahead(t[..n][j], t[..n][i]) { assert !DocOrder()(t[j], t[i]); }
    SortedIsSortDoc(d, s[..n], t[..n]);
  }

  // ---------------------------------------------------------------------
  // The first node
  // ---------------------------------------------------------------------

  /** xpath_first: the first node in document order, from either end or by a search. */
  method FirstNode(d: Tree, buffer: Buffer, a: array<XNode>, n: nat, t: SetType) returns (first: Option<XNode>)
    requires n <= a.Length && AllIn(d, a[..n]) && NoDup(a[..n]) && InParseOrder(d, buffer) && Arranged(a[..n], t)
    ensures var s := SortDoc(d, a[..n]); first == if s == [] then None else Some(s[0])
    ensures first.None? <==> n == 0
  {
    ghost var q := a[..n];
    SortDocIs(d, q);
    assert SortDoc(d, q) != [] ==> SortDoc(d, q)[0] in q;
    if n == 0 { return None; }
    assert q[0] in SortDoc(d, q);
    match t {
      case Ascending =>
        ArrangedIs(d, q, t);
        first := Some(a[0]);
      case Descending =>
        ArrangedIs(d, q, t);
        SameLength(SortDoc(d, q), q);
        first := Some(a[n - 1]);
      case Unsorted =>
        var least := MinElement(d, buffer, a, n);
        LeastIsFirst(d, q, least);
        first := Some(a[least]);
    }
  }

  predicate Least(q: seq<XNode>, m: nat) { m < |q| && forall k :: 0 <= k < |q| && k != m ==> Ahead(q[m], q[k]) }

  method MinElement(d: Tree, buffer: Buffer, a: array<XNode>, n: nat) returns (m: nat)
    requires 0 < n <= a.Length && AllIn(d, a[..n]) && NoDup(a[..n]) && InParseOrder(d, buffer)
    ensures Least(a[..n], m)
  {
    ghost var q := a[..n];
    m := 0;
    var it := 1;
    while it != n
      invariant 1 <= it <= n && m < it
      invariant forall k :: 0 <= k < it && k != m ==> Ahead(q[m], q[k])
      decreases n - it
    {
      assert q[it] in q && q[m] in q && q[it] != q[m];
      AheadTotal(q[it], q[m]);
      var before := CompareNodes(d, buffer, buffer(a[it]), buffer(a[m]), a[it], a[m]);
      if before {
        forall k | 0 <= k < it ensures Ahead(q[it], q[k]) { if k != m { AheadTransitive(q[it], q[m], q[k]); } }
        m := it;
      }
      it := it + 1;
    }
  }

  lemma LeastIsFirst(d: Tree, q: seq<XNode>, m: nat)
    requires AllIn(d, q) && NoDup(q) && Least(q, m)
    ensures SortDoc(d, q) != [] && SortDoc(d, q)[0] == q[m]
  {
    var s := SortDoc(d, q);
    SortDocIs(d, q);
    SortDocInOrder(d, q);
    assert q[m] in s;
    var i :| 0 <= i < |s| && s[i] == q[m];
    if i > 0 {
      assert s[0] in q;
      var k :| 0 <= k < |q| && q[k] == s[0];
      AheadStrict(s[0], s[i]);
    }
  }
}
