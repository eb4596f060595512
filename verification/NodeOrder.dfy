/** Deciding document order by following parent and sibling links (pugixml.cpp:8246-8311). */
module NodeOrder {
  import opened Documents
  import Sorting

  /** A node pointer of the source. */
  datatype Ptr = Null | To(p: Path)

  function Parent(x: Ptr): Ptr {
    if x.Null? || x.p == [] then Null else To(x.p[..|x.p| - 1])
  }

  function NextSibling(t: Tree, x: Ptr): Ptr
    requires x.To? ==> Has(t, x.p)
  {
    if x.Null? || x.p == [] then Null
    else
      var q, i := x.p[..|x.p| - 1], x.p[|x.p| - 1];
      if Has(t, q + [i + 1]) then To(q + [i + 1]) else Null
  }

  /** Child i of q exists exactly when i is below the number of children. */
  lemma ChildExists(t: Tree, q: Path, i: nat)
    requires Has(t, q)
    ensures Has(t, q + [i]) <==> i < |At(t, q).kids|
  {
    HasAppend(t, q, [i]);
  }

  lemma {:induction false} BeforeSiblings(q: Path, a: nat, b: nat)
    ensures Before(q + [a], q + [b]) <==> a < b
    decreases |q|
  {
    if q == [] {
      assert q + [a] == [a] && q + [b] == [b];
    } else {
      BeforeSiblings(q[1..], a, b);
      assert (q + [a])[1..] == q[1..] + [a] && (q + [b])[1..] == q[1..] + [b];
    }
  }

  /** Order is decided where the two branches part. */
  lemma {:induction false} BeforeByBranch(a: Path, b: Path, p: Path, q: Path)
    requires |a| == |b| <= |p| && |b| <= |q| && a == p[..|a|] && b == q[..|b|] && a != b
    ensures Before(p, q) <==> Before(a, b)
    decreases |a|
  {
    if a != [] && a[0] == b[0] {
      assert a[1..] == p[1..][..|a| - 1] && b[1..] == q[1..][..|b| - 1];
      assert a == [a[0]] + a[1..] && b == [b[0]] + b[1..];
      BeforeByBranch(a[1..], b[1..], p[1..], q[1..]);
    }
  }

  lemma {:induction false} AncestorBefore(p: Path, q: Path)
    requires |p| < |q| && p == q[..|p|]
    ensures Before(p, q) && !Before(q, p)
    decreases |p|
  {
    if p != [] {
      assert p[1..] == q[1..][..|p| - 1];
      AncestorBefore(p[1..], q[1..]);
    }
  }

  /** Child i of q as a pointer, null past the last of n children. */
  ghost function Child(q: Path, i: nat, n: nat): Ptr { if i < n then To(q + [i]) else Null }

  lemma ChildPtr(t: Tree, q: Path, i: nat, n: nat, c: nat)
    requires Has(t, q) && i < n == |At(t, q).kids|
    ensures Has(t, Child(q, i, n).p) && NextSibling(t, Child(q, i, n)) == Child(q, i + 1, n)
    ensures Child(q, i, n) == To(q + [c]) <==> i == c
  {
    ChildExists(t, q, i);
    ChildExists(t, q, i + 1);
    assert (q + [i])[..|q + [i]| - 1] == q;
    assert (q + [i])[|q|] == i && (q + [c])[|q|] == c;
  }

  method NodeIsBeforeSibling(t: Tree, ln: Path, rn: Path) returns (before: bool)
    requires Has(t, ln) && Has(t, rn) && ln != rn && ln != [] && rn != []
    requires ln[..|ln| - 1] == rn[..|rn| - 1]
    ensures before == Before(ln, rn)
  {
    ghost var q, a, b := ln[..|ln| - 1], ln[|ln| - 1], rn[|rn| - 1];
    assert ln == q + [a] && rn == q + [b];
    HasPrefix(t, q, [a]);
    before := WalkSiblings(t, ln, rn, q, a, b);
    BeforeSiblings(q, a, b);
  }

  /** Walk both sibling chains in step until one meets the other node or ends. */
  method WalkSiblings(t: Tree, ln: Path, rn: Path, ghost q: Path, ghost a: nat, ghost b: nat) returns (before: bool)
    requires Has(t, q) && Has(t, ln) && Has(t, rn) && ln == q + [a] && rn == q + [b] && a != b
    ensures before == (a < b)
  {
    var ls, rs := To(ln), To(rn);
    ghost var i, j, n := a, b, |At(t, q).kids|;
    ChildExists(t, q, a);
    ChildExists(t, q, b);
    while ls.To? && rs.To?
      invariant i <= n && j <= n && j - i == b - a
      invariant ls == Child(q, i, n) && rs == Child(q, j, n)
      invariant if a < b then i <= b else j <= a
      decreases n - i
    {
      ChildPtr(t, q, i, n, b);
      ChildPtr(t, q, j, n, a);
      if ls == To(rn) {
        return true;
      }
      if rs == To(ln) {
        return false;
      }
      ls, rs := NextSibling(t, ls), NextSibling(t, rs);
      i, j := i + 1, j + 1;
    }
    return rs.Null?;
  }

  /** The pointer k levels up. */
  function Up(p: Path, k: nat): Ptr {
    if k <= |p| then To(p[..|p| - k]) else Null
  }

  lemma UpParent(p: Path, k: nat)
    ensures Parent(Up(p, k)) == Up(p, k + 1)
  {
    if k < |p| { assert p[..|p| - k][..|p| - k - 1] == p[..|p| - k - 1]; }
  }

  /** Two different nodes with the same parent, seen from below. */
  lemma SameParent(t: Tree, p: Path, q: Path, k: nat)
    requires Has(t, p) && Has(t, q) && k <= |p| && k <= |q|
    requires Up(p, k) != Up(q, k) && Up(p, k + 1) == Up(q, k + 1)
    ensures |p| == |q| && k < |p|
    ensures var a, b := p[..|p| - k], q[..|q| - k];
            Has(t, a) && Has(t, b) && a != b && a[..|a| - 1] == b[..|b| - 1] && (Before(p, q) <==> Before(a, b))
  {
    var a, b := p[..|p| - k], q[..|q| - k];
    assert p == a + p[|p| - k..] && q == b + q[|q| - k..];
    HasPrefix(t, a, p[|p| - k..]);
    HasPrefix(t, b, q[|q| - k..]);
    if k < |p| && k < |q| {
      assert |p[..|p| - k - 1]| == |q[..|q| - k - 1]|;
      assert a[..|a| - 1] == p[..|p| - k - 1] && b[..|b| - 1] == q[..|q| - k - 1];
      BeforeByBranch(a, b, p, q);
    }
  }

  /** node_is_before decides document order for any two distinct nodes of one tree. */
  method NodeIsBefore(t: Tree, left: Path, right: Path) returns (before: bool)
    requires Has(t, left) && Has(t, right) && left != right
    ensures before == Before(left, right)
  {
    var lp, rp := To(left), To(right);
    ghost var k := 0;
    while lp.To? && rp.To? && Parent(lp) != Parent(rp)
      invariant lp == Up(left, k) && rp == Up(right, k)
      invariant k <= |left| + 1 && k <= |right| + 1
      invariant lp != rp
      decreases |left| + 1 - k
    {
      UpParent(left, k);
      UpParent(right, k);
      lp, rp := Parent(lp), Parent(rp);
      k := k + 1;
    }
    UpParent(left, k);
    UpParent(right, k);

    if lp.To? && rp.To? {
      SameParent(t, left, right, k);
      before := NodeIsBeforeSibling(t, lp.p, rp.p);
      return;
    }
    before := NodeIsBeforeUneven(t, left, right, lp, rp, k);
  }

  /** The nodes are at different depths: raise the deeper one, then look for the branch again. */
  method NodeIsBeforeUneven(t: Tree, left: Path, right: Path, lp0: Ptr, rp0: Ptr, ghost k: nat) returns (before: bool)
    requires Has(t, left) && Has(t, right)
    requires lp0 == Up(left, k) && rp0 == Up(right, k) && lp0 != rp0 && (lp0.Null? || rp0.Null?)
    requires k <= |left| + 1 && k <= |right| + 1
    ensures before == Before(left, right)
  {
    var leftHigher := lp0.Null?;
    var lp, rp, ln, rn := lp0, rp0, To(left), To(right);
    ghost var i, j := 0, 0;
    while lp.To?
      invariant lp == Up(left, k + i) && ln == Up(left, i)
      invariant i == 0 || k + i <= |left| + 1
      decreases |left| + 1 - k - i
    {
      UpParent(left, k + i);
      UpParent(left, i);
      lp, ln := Parent(lp), Parent(ln);
      i := i + 1;
    }
    while rp.To?
      invariant rp == Up(right, k + j) && rn == Up(right, j)
      invariant j == 0 || k + j <= |right| + 1
      decreases |right| + 1 - k - j
    {
      UpParent(right, k + j);
      UpParent(right, j);
      rp, rn := Parent(rp), Parent(rn);
      j := j + 1;
    }
    ghost var p, q := ln.p, rn.p;
    assert |p| == |q|;
    if ln == rn {
      if leftHigher { AncestorBefore(left, right); } else { AncestorBefore(right, left); }
      return leftHigher;
    }
    before := BeforeAtBranch(t, left, right, ln.p, rn.p);
  }

  method BeforeAtBranch(t: Tree, left: Path, right: Path, p: Path, q: Path) returns (before: bool)
    requires Has(t, left) && Has(t, right)
    requires |p| == |q| && p != q && |p| <= |left| && |q| <= |right| && p == left[..|p|] && q == right[..|q|]
    ensures before == Before(left, right)
  {
    assert left == p + left[|p|..] && right == q + right[|q|..];
    HasPrefix(t, p, left[|p|..]);
    HasPrefix(t, q, right[|q|..]);
    BeforeByBranch(p, q, left, right);
    var ln, rn := To(p), To(q);
    ghost var k := 0;
    while Parent(ln) != Parent(rn)
      invariant k <= |p|
      invariant ln == Up(p, k) && rn == Up(q, k) && ln != rn
      decreases |p| - k
    {
      UpParent(p, k);
      UpParent(q, k);
      ln, rn := Parent(ln), Parent(rn);
      k := k + 1;
    }
    UpParent(p, k);
    UpParent(q, k);
    SameParent(t, p, q, k);
    before := NodeIsBeforeSibling(t, ln.p, rn.p);
  }

  // ---------------------------------------------------------------------
  // Sorting nodes
  // ---------------------------------------------------------------------

  function DocumentOrder(): Sorting.Order<Path> { (p, q) => Before(p, q) }

  /** Document order meets what the sorting algorithm asks of a comparison. */
  lemma DocumentOrderTotal()
    ensures Sorting.TotalOrder(DocumentOrder())
  {
    forall p, q ensures !Before(p, p) && (Before(p, q) || p == q || Before(q, p)) {
      BeforeTotal(p, q);
      BeforeTotal(p, p);
    }
    forall p, q, r | Before(p, q) && Before(q, r) ensures Before(p, r) { BeforeTransitive(p, q, r); }
  }
}
