/**
  The walks of step_fill along the following and preceding axes (pugixml.cpp:10237-10314,
  10391-10430):
  they follow sibling, child and parent links without a stack, and list the nodes behind a node, or those
  in front of it from the nearest back, without its descendants and ancestors.
 */
module AxisWalks {
  import opened Documents
  import opened Traversal
  import opened XPath
  import XPathModes

  // ---------------------------------------------------------------------
  // Order beside a node
  // ---------------------------------------------------------------------

  /** What is not below q compares with every node below q as with q. */
  lemma {:induction false} BesideSame(q: Path, y: Path, x: Path)
    requires !IsPrefix(q, x)
    ensures Before(q + y, x) <==> Before(q, x)
    ensures IsPrefix(x, q) || (Before(x, q + y) <==> Before(x, q))
    decreases |q|
  {
    assert x[..0] == [];
    assert (q + y)[0] == q[0] && (q + y)[1..] == q[1..] + y;
    if x != [] && x[0] == q[0] {
      assert x == [x[0]] + x[1..] && q == [q[0]] + q[1..];
      if |q| <= |x| { assert x[..|q|] == [x[0]] + x[1..][..|q| - 1]; }
      BesideSame(q[1..], y, x[1..]);
      if IsPrefix(x[1..], q[1..]) { assert q[..|x|] == [q[0]] + q[1..][..|x| - 1]; }
    } else if x == [] {
      assert q[..0] == x;
    }
  }

  lemma PrefixBelow(q: Path, y: Path)
    ensures IsPrefix(q, q + y) && (q + y)[|q|..] == y
  {
  }

  /** The nodes below q, split at child i. */
  lemma BelowSplit(q: Path, i: nat, y: Path)
    ensures Before(q + [i], q + y) && !IsPrefix(q + [i], q + y) <==> y != [] && i < y[0]
    ensures Before(q + y, q + [i]) && !IsPrefix(q + y, q + [i]) <==> y != [] && y[0] < i
  {
    XPathModes.BeforeUnder(q, [i], y);
    XPathModes.BeforeUnder(q, y, [i]);
    if y != [] && y[0] == i { assert (q + y)[..|q| + 1] == q + [i]; }
    if y == [] { assert q + y == q && (q + [i])[..|q|] == q; }
    if y != [] && y[0] != i { assert (q + y)[|q|] == y[0] && (q + [i])[|q|] == i; }
  }

  lemma RootedIn(q: Path, ps: seq<Path>, x: Path)
    ensures x in Rooted(q, ps) <==> IsPrefix(q, x) && x[|q|..] in ps
  {
    var r := Rooted(q, ps);
    if x in r {
      var k :| 0 <= k < |r| && r[k] == x;
      PrefixBelow(q, ps[k]);
      assert ps[k] in ps;
    }
    if IsPrefix(q, x) && x[|q|..] in ps {
      var k :| 0 <= k < |ps| && ps[k] == x[|q|..];
      assert x == q + ps[k];
      assert r[k] == x;
    }
  }

  lemma RootedOrdered(q: Path, ps: seq<Path>)
    requires Ordered(ps)
    ensures Ordered(Rooted(q, ps))
  {
    var r := Rooted(q, ps);
    forall i, j | 0 <= i < j < |r| ensures Before(r[i], r[j]) { XPathModes.BeforeUnder(q, ps[i], ps[j]); }
  }

  lemma OrderedConcat(a: seq<Path>, b: seq<Path>)
    requires Ordered(a) && Ordered(b) && forall x, y :: x in a && y in b ==> Before(x, y)
    ensures Ordered(a + b)
  {
    forall i, j | 0 <= i < j < |a + b| ensures Before((a + b)[i], (a + b)[j]) {
      if i < |a| <= j { assert a[i] in a && b[j - |a|] in b; }
    }
  }

  lemma {:induction false} OrderedUnique(a: seq<Path>, b: seq<Path>)
    requires Ordered(a) && Ordered(b) && forall x :: x in a <==> x in b
    ensures a == b
    decreases |a|
  {
    if a == [] {
      if b != [] { SomeIn(b); }
    } else {
      assert a[0] in b;
      SameHead(a, b);
      forall x ensures x in a[1..] <==> x in b[1..] {
        TailIn(a, x);
        TailIn(b, x);
      }
      assert forall i :: 0 <= i < |a[1..]| ==> a[1..][i] == a[i + 1];
      assert forall i :: 0 <= i < |b[1..]| ==> b[1..][i] == b[i + 1];
      OrderedUnique(a[1..], b[1..]);
      assert a == [a[0]] + a[1..] && b == [b[0]] + b[1..];
    }
  }

  lemma SomeIn(b: seq<Path>)
    requires b != []
    ensures exists x :: x in b
  {
    assert b[0] in b;
  }

  lemma SameHead(a: seq<Path>, b: seq<Path>)
    requires Ordered(a) && Ordered(b) && a != [] && b != [] && a[0] in b && b[0] in a
    ensures a[0] == b[0]
  {
    var i :| 0 <= i < |b| && b[i] == a[0];
    var j :| 0 <= j < |a| && a[j] == b[0];
    BeforeTotal(a[0], b[0]);
  }

  lemma TailIn(a: seq<Path>, x: Path)
    requires Ordered(a) && a != []
    ensures x in a[1..] <==> x in a && x != a[0]
  {
    BeforeTotal(a[0], a[0]);
    if x in a[1..] {
      var i :| 0 <= i < |a[1..]| && a[1..][i] == x;
      assert Before(a[0], a[i + 1]);
    }
    if x in a && x != a[0] {
      var i :| 0 <= i < |a| && a[i] == x;
      assert a[1..][i - 1] == x;
    }
  }

  // ---------------------------------------------------------------------
  // The following axis
  // ---------------------------------------------------------------------

  lemma {:induction false} BehindIn(u: Tree, p: Path, x: Path)
    requires Has(u, p)
    ensures x in Behind(u, p) <==> Has(u, x) && Before(p, x) && !IsPrefix(p, x)
    decreases |p|
  {
    if p == [] {
      assert x[..0] == p;
    } else {
      ParentHas(u, p);
      var q, i := p[..|p| - 1], p[|p| - 1];
      assert p == q + [i];
      BehindIn(u, q, x);
      RootedIn(q, PreorderKids(At(u, q), i + 1), x);
      if IsPrefix(q, x) {
        var y := x[|q|..];
        assert x == q + y;
        HasAppend(u, q, y);
        PreorderKidsHas(At(u, q), i + 1, y);
        BelowSplit(q, i, y);
      } else {
        BesideSame(q, [i], x);
        NotBelowChild(q, i, x);
      }
    }
  }

  lemma NotBelowChild(q: Path, i: nat, x: Path)
    requires !IsPrefix(q, x)
    ensures !IsPrefix(q + [i], x)
  {
    if |q| < |x| { assert x[..|q| + 1][..|q|] == x[..|q|] && (q + [i])[..|q|] == q; }
  }

  lemma {:induction false} BehindOrdered(u: Tree, p: Path)
    requires Has(u, p)
    ensures Ordered(Behind(u, p))
    decreases |p|
  {
    if p != [] {
      ParentHas(u, p);
      var q, i := p[..|p| - 1], p[|p| - 1];
      var kids := PreorderKids(At(u, q), i + 1);
      BehindOrdered(u, q);
      PreorderKidsOrdered(At(u, q), i + 1);
      RootedOrdered(q, kids);
      forall x, y | x in Rooted(q, kids) && y in Behind(u, q) ensures Before(x, y) {
        RootedIn(q, kids, x);
        BehindIn(u, q, y);
        assert x == q + x[|q|..];
        BesideSame(q, x[|q|..], y);
      }
      OrderedConcat(Rooted(q, kids), Behind(u, q));
    }
  }

  /** What is behind the subtree of p is the following axis of p. */
  lemma BehindIsFollowing(u: Tree, p: Path)
    requires Has(u, p)
    ensures Behind(u, p) == NodesAfter(u, p)
  {
    BehindOrdered(u, p);
    XPathModes.WhereInOrder(u, q => Before(p, q) && !IsPrefix(p, q));
    forall x ensures x in Behind(u, p) <==> x in NodesAfter(u, p) {
      BehindIn(u, p, x);
      PreorderHas(u, x);
      WhereIs(Preorder(u), q => Before(p, q) && !IsPrefix(p, q));
    }
    OrderedUnique(Behind(u, p), NodesAfter(u, p));
  }

  lemma FollowingAxis(u: Tree, p: Path)
    requires Has(u, p)
    ensures AxisNodes(u, Following, Elem(p)) == AsElems(Behind(u, p))
  {
    BehindIsFollowing(u, p);
  }

  /** The following axis of an element. */
  method WalkFollowing(u: Tree, p: Path) returns (out: seq<Path>)
    requires Has(u, p)
    ensures AsElems(out) == AxisNodes(u, Following, Elem(p))
  {
    FollowingAxis(u, p);
    if p == [] { return []; }
    var cur, done := Climb(u, p);
    if done { return []; }
    out := WalkOn(u, cur);
  }

  lemma SubtreeIn(u: Tree, p: Path, x: Path)
    requires Has(u, p)
    ensures x in Subtree(u, p) <==> Has(u, x) && IsPrefix(p, x)
  {
    RootedIn(p, Preorder(At(u, p)), x);
    if IsPrefix(p, x) {
      assert x == p + x[|p|..];
      HasAppend(u, p, x[|p|..]);
      PreorderHas(At(u, p), x[|p|..]);
    }
  }

  lemma RestOrdered(u: Tree, p: Path)
    requires Has(u, p)
    ensures Ordered(Rest(u, p))
  {
    PreorderOrdered(At(u, p));
    RootedOrdered(p, Preorder(At(u, p)));
    BehindOrdered(u, p);
    forall x, y | x in Subtree(u, p) && y in Behind(u, p) ensures Before(x, y) {
      SubtreeIn(u, p, x);
      BehindIn(u, p, y);
      assert x == p + x[|p|..];
      BesideSame(p, x[|p|..], y);
    }
    OrderedConcat(Subtree(u, p), Behind(u, p));
  }

  /** From an attribute of p, the following axis goes on below p. */
  lemma AttributeFollowing(u: Tree, p: Path, a: nat)
    requires Has(u, p) && a < |At(u, p).attrs|
    ensures Rest(u, p) == [p] + Rest(u, p)[1..]
    ensures AxisNodes(u, Following, Attr(p, a)) == AsElems(Rest(u, p)[1..])
  {
    var all, after := Rest(u, p), Where(Preorder(u), q => Before(p, q));
    AtNode(u, p);
    RestOrdered(u, p);
    XPathModes.WhereInOrder(u, q => Before(p, q));
    forall x ensures x in all[1..] <==> x in after {
      TailIn(all, x);
      SubtreeIn(u, p, x);
      BehindIn(u, p, x);
      PreorderHas(u, x);
      WhereIs(Preorder(u), q => Before(p, q));
      BeforeTotal(p, p);
      if IsPrefix(p, x) && x != p { XPathModes.AncestorFirst(p, x); }
    }
    assert Ordered(all[1..]) by {
      forall i, j | 0 <= i < j < |all[1..]| ensures Before(all[1..][i], all[1..][j]) {
        assert Before(all[i + 1], all[j + 1]);
      }
    }
    OrderedUnique(all[1..], after);
  }

  method WalkFollowingAttribute(u: Tree, p: Path, a: nat) returns (out: seq<Path>)
    requires Has(u, p) && a < |At(u, p).attrs|
    ensures AsElems(out) == AxisNodes(u, Following, Attr(p, a))
  {
    AttributeFollowing(u, p, a);
    Descend(u, p);
    var cur, done;
    if |At(u, p).kids| > 0 {
      cur, done := p + [0], false;
    } else if p == [] {
      return [];
    } else {
      cur, done := Climb(u, p);
    }
    if done { return []; }
    out := WalkOn(u, cur);
  }

  // ---------------------------------------------------------------------
  // The preceding axis
  // ---------------------------------------------------------------------

  /** The first i children of the root of t with all below them, in document order. */
  function KidsBefore(t: Tree, i: nat): seq<Path>
    requires i <= |t.kids|
  {
    if i == 0 then [] else KidsBefore(t, i - 1) + Under(i - 1, Preorder(t.kids[i - 1]))
  }

  lemma {:induction false} KidsSplit(t: Tree, i: nat)
    requires i <= |t.kids|
    ensures PreorderKids(t, 0) == KidsBefore(t, i) + PreorderKids(t, i)
    decreases i
  {
    if i > 0 {
      KidsSplit(t, i - 1);
      ConcatAgain(KidsBefore(t, i - 1), Under(i - 1, Preorder(t.kids[i - 1])), PreorderKids(t, i));
    }
  }

  lemma {:induction false} KidsBeforeHas(t: Tree, i: nat, y: Path)
    requires i <= |t.kids|
    ensures y in KidsBefore(t, i) <==> y != [] && y[0] < i && Has(t, y)
    decreases i
  {
    if i > 0 {
      KidsBeforeHas(t, i - 1, y);
      UnderHas(t, i - 1, y);
    }
  }

  lemma UnderHas(t: Tree, i: nat, y: Path)
    requires i < |t.kids|
    ensures y in Under(i, Preorder(t.kids[i])) <==> y != [] && y[0] == i && Has(t, y)
  {
    var ps := Preorder(t.kids[i]);
    if y in Under(i, ps) {
      var k :| 0 <= k < |ps| && Under(i, ps)[k] == y;
      assert y[1..] == ps[k];
      PreorderHas(t.kids[i], ps[k]);
      assert ps[k] in ps;
    }
    if y != [] && y[0] == i && Has(t, y) {
      PreorderHas(t.kids[i], y[1..]);
      var k :| 0 <= k < |ps| && ps[k] == y[1..];
      assert Under(i, ps)[k] == [i] + y[1..] == y;
    }
  }

  lemma KidsBeforeOrdered(t: Tree, i: nat)
    requires i <= |t.kids|
    ensures Ordered(KidsBefore(t, i))
  {
    PreorderKidsOrdered(t, 0);
    KidsSplit(t, i);
    var a, all := KidsBefore(t, i), PreorderKids(t, 0);
    forall j, k | 0 <= j < k < |a| ensures Before(a[j], a[k]) { assert a[j] == all[j] && a[k] == all[k]; }
  }

  /** The node x, unless it is above n. */
  function Unless(x: Path, n: Path): seq<Path> { if IsPrefix(x, n) then [] else [x] }

  /** In document order, the nodes in front of the subtree of p that the walk from n visits. */
  function Front(u: Tree, p: Path, n: Path): seq<Path>
    requires Has(u, p)
    decreases |p|
  {
    if p == [] then []
    else
      ParentHas(u, p);
      var q := p[..|p| - 1];
      Front(u, q, n) + Unless(q, n) + Rooted(q, KidsBefore(At(u, q), p[|p| - 1]))
  }

  lemma {:induction false} FrontIn(u: Tree, p: Path, n: Path, x: Path)
    requires Has(u, p) && IsPrefix(p, n)
    ensures x in Front(u, p, n) <==> Has(u, x) && Before(x, p) && !IsPrefix(x, p)
    decreases |p|
  {
    if p != [] {
      ParentHas(u, p);
      var q, i := p[..|p| - 1], p[|p| - 1];
      assert p == q + [i] && n[..|q|] == n[..|p|][..|q|];
      FrontIn(u, q, n, x);
      RootedIn(q, KidsBefore(At(u, q), i), x);
      if IsPrefix(q, x) {
        var y := x[|q|..];
        assert x == q + y;
        HasAppend(u, q, y);
        KidsBeforeHas(At(u, q), i, y);
        BelowSplit(q, i, y);
        NotBefore(q, y);
      } else {
        BesideSame(q, [i], x);
        NotAboveChild(q, i, x);
      }
    }
  }

  lemma NotBefore(q: Path, y: Path)
    ensures !Before(q + y, q)
  {
    XPathModes.BeforeUnder(q, y, []);
    assert q + [] == q;
  }

  lemma NotAboveChild(q: Path, i: nat, x: Path)
    requires !IsPrefix(q, x)
    ensures IsPrefix(x, q + [i]) <==> IsPrefix(x, q)
  {
    if |x| <= |q| { assert (q + [i])[..|x|] == q[..|x|]; }
    if |x| == |q| + 1 { assert (q + [i])[..|x|] == q + [i] && (q + [i])[..|q|] == q; }
  }

  lemma {:induction false} FrontOrdered(u: Tree, p: Path, n: Path)
    requires Has(u, p) && IsPrefix(p, n)
    ensures Ordered(Front(u, p, n))
    decreases |p|
  {
    if p != [] {
      ParentHas(u, p);
      var q, i := p[..|p| - 1], p[|p| - 1];
      var kids := KidsBefore(At(u, q), i);
      assert n[..|q|] == n[..|p|][..|q|];
      FrontOrdered(u, q, n);
      KidsBeforeOrdered(At(u, q), i);
      RootedOrdered(q, kids);
      forall x, y | x in Front(u, q, n) && y in Rooted(q, kids) ensures Before(x, y) {
        FrontIn(u, q, n, x);
        RootedIn(q, kids, y);
        assert y == q + y[|q|..];
        if |q| <= |x| {
          NotBefore(q, x[|q|..]);
          assert x[..|q|] + x[|q|..] == x;
        }
        BesideSame(q, y[|q|..], x);
      }
      OrderedConcat(Front(u, q, n), Rooted(q, kids));
      assert Front(u, q, n) + [] == Front(u, q, n);
    }
  }

  /** What the walk visits in front of n is the preceding axis, in document order. */
  lemma FrontIsPreceding(u: Tree, n: Path)
    requires Has(u, n)
    ensures Front(u, n, n) == NodesBefore(u, n)
  {
    assert n[..|n|] == n;
    FrontOrdered(u, n, n);
    XPathModes.WhereInOrder(u, q => Before(q, n) && !IsPrefix(q, n));
    forall x ensures x in Front(u, n, n) <==> x in NodesBefore(u, n) {
      FrontIn(u, n, n, x);
      PreorderHas(u, x);
      WhereIs(Preorder(u), q => Before(q, n) && !IsPrefix(q, n));
    }
    OrderedUnique(Front(u, n, n), NodesBefore(u, n));
  }

  /** What the walk has yet to visit when it comes to p from behind, in document order. */
  function ToVisit(u: Tree, p: Path, n: Path): seq<Path>
    requires Has(u, p)
  {
    Front(u, p, n) + Subtree(u, p)
  }

  /** With a previous sibling: what is in front of p ends with that sibling's subtree. */
  lemma ToSibling(u: Tree, p: Path, n: Path)
    requires Has(u, p) && p != [] && p[|p| - 1] > 0
    ensures var r := p[..|p| - 1] + [p[|p| - 1] - 1]; Has(u, r) && Front(u, p, n) == ToVisit(u, r, n)
  {
    ParentHas(u, p);
    var q, i := p[..|p| - 1], p[|p| - 1];
    var a := KidsBefore(At(u, q), i - 1);
    SiblingSubtree(u, q, i - 1);
    assert Front(u, p, n) == Front(u, q, n) + Unless(q, n) + Rooted(q, KidsBefore(At(u, q), i));
    FrontOfChild(u, q, i - 1, n);
    ConcatAgain(Front(u, q, n) + Unless(q, n), Rooted(q, a), Subtree(u, q + [i - 1]));
  }

  lemma FrontOfChild(u: Tree, q: Path, i: nat, n: Path)
    requires Has(u, q) && i < |At(u, q).kids|
    ensures Has(u, q + [i])
    ensures Front(u, q + [i], n) == Front(u, q, n) + Unless(q, n) + Rooted(q, KidsBefore(At(u, q), i))
  {
    HasAppend(u, q, [i]);
    assert (q + [i])[..|q + [i]| - 1] == q && (q + [i])[|q + [i]| - 1] == i;
  }

  /** The children up to i are those before i and the subtree of child i. */
  lemma SiblingSubtree(u: Tree, q: Path, i: nat)
    requires Has(u, q) && i < |At(u, q).kids|
    ensures Has(u, q + [i])
    ensures Rooted(q, KidsBefore(At(u, q), i + 1)) == Rooted(q, KidsBefore(At(u, q), i)) + Subtree(u, q + [i])
  {
    var a, b := KidsBefore(At(u, q), i), Under(i, Preorder(At(u, q).kids[i]));
    HasAppend(u, q, [i]);
    assert At(u, q + [i]) == At(u, q).kids[i];
    assert KidsBefore(At(u, q), i + 1) == a + b;
    BelowConcat(q, a, b);
    BelowUnder(q, i, Preorder(At(u, q).kids[i]));
  }

  /** Without one: it ends with the parent, unless that is above n. */
  lemma ToParent(u: Tree, p: Path, n: Path)
    requires Has(u, p) && p != [] && p[|p| - 1] == 0
    ensures Has(u, p[..|p| - 1]) && Front(u, p, n) == Front(u, p[..|p| - 1], n) + Unless(p[..|p| - 1], n)
  {
    ParentHas(u, p);
    var q := p[..|p| - 1];
    assert Rooted(q, KidsBefore(At(u, q), 0)) == [];
  }

  /** A node with children: the walk goes to the last one first. */
  lemma ToLastChild(u: Tree, p: Path, n: Path)
    requires Has(u, p) && |At(u, p).kids| > 0 && !IsPrefix(p, n)
    ensures var r := p + [|At(u, p).kids| - 1]; Has(u, r) && ToVisit(u, p, n) == ToVisit(u, r, n)
  {
    var t := At(u, p);
    var k := |t.kids| - 1;
    var f, a := Front(u, p, n), Rooted(p, KidsBefore(t, k));
    FrontOfChild(u, p, k, n);
    SiblingSubtree(u, p, k);
    KidsSplit(t, k + 1);
    assert KidsBefore(t, k + 1) + [] == PreorderKids(t, 0);
    AtNode(u, p);
    ConcatFour(f, [p], a, Subtree(u, p + [k]));
  }

  lemma ConcatFour(a: seq<Path>, b: seq<Path>, c: seq<Path>, d: seq<Path>)
    ensures a + (b + (c + d)) == a + b + c + d
  {
  }

  lemma LeafSubtree(u: Tree, p: Path)
    requires Has(u, p) && |At(u, p).kids| == 0
    ensures Subtree(u, p) == [p]
  {
    AtNode(u, p);
  }

  /** Adding x in front of what is listed backwards. */
  lemma Listed(x: Path, s: seq<Path>)
    ensures Backwards([x] + s) == Backwards(s) + [x]
  {
  }

  lemma ListedAfter(a: seq<Path>, x: Path, b: seq<Path>)
    ensures Backwards(a + [x] + b) == Backwards(b) + [x] + Backwards(a)
  {
  }

  /** Where the walk from n can stand: above n or in front of it. */
  predicate UpTo(p: Path, n: Path) { IsPrefix(p, n) || Before(p, n) }

  lemma UpToParent(p: Path, n: Path)
    requires UpTo(p, n) && p != []
    ensures UpTo(p[..|p| - 1], n)
  {
    var q := p[..|p| - 1];
    if IsPrefix(p, n) {
      assert n[..|q|] == n[..|p|][..|q|] == q;
    } else {
      XPathModes.AncestorFirst(q, p);
      BeforeTransitive(q, p, n);
    }
  }

  /** A previous sibling is in front of n, not above it. */
  lemma UpToSibling(p: Path, n: Path)
    requires UpTo(p, n) && p != [] && p[|p| - 1] > 0
    ensures var r := p[..|p| - 1] + [p[|p| - 1] - 1]; Before(r, n) && !IsPrefix(r, n)
  {
    var q, i := p[..|p| - 1], p[|p| - 1];
    var r := q + [i - 1];
    assert p == q + [i];
    BelowSplit(q, i, [i - 1]);
    if IsPrefix(p, n) {
      assert n[|q|] == n[..|p|][|q|] == i;
      if p != n { XPathModes.AncestorFirst(p, n); }
    }
    if p != n { BeforeTransitive(r, p, n); }
    if |r| <= |n| {
      var y := [i - 1] + n[|r|..];
      assert n[..|r|][|q|] == n[|q|] && r[|q|] == i - 1;
      assert n[..|r|] == r ==> n == q + y;
      BelowSplit(q, i, y);
      BeforeTotal(n, p);
    }
  }

  /** Leaves n: climbs to the nearest node on the way up with a previous sibling, and goes to that. */
  method LeaveNode(u: Tree, n: Path) returns (cur: Path, done: bool)
    requires Has(u, n)
    ensures !done ==> Has(u, cur) && Before(cur, n) && !IsPrefix(cur, n)
    ensures Front(u, n, n) == if done then [] else ToVisit(u, cur, n)
  {
    cur := n;
    assert n[..|n|] == n;
    while cur == [] || cur[|cur| - 1] == 0
      invariant Has(u, cur) && IsPrefix(cur, n) && Front(u, n, n) == Front(u, cur, n)
      decreases |cur|
    {
      if cur == [] { return cur, true; }
      UpToParent(cur, n);
      ToParent(u, cur, n);
      assert n[..|cur| - 1] == n[..|cur|][..|cur| - 1] == cur[..|cur| - 1];
      cur := cur[..|cur| - 1];
      assert Front(u, cur, n) + [] == Front(u, cur, n);
    }
    ToSibling(u, cur, n);
    UpToSibling(cur, n);
    cur := cur[..|cur| - 1] + [cur[|cur| - 1] - 1];
    done := false;
  }

  /** The same from a leaf p, listing the nodes it passes unless they are above n. */
  method ClimbBack(u: Tree, p: Path, n: Path) returns (cur: Path, done: bool, out: seq<Path>)
    requires Has(u, p) && UpTo(p, n)
    ensures !done ==> Has(u, cur) && Before(cur, n) && !IsPrefix(cur, n)
    ensures Front(u, p, n) == (if done then [] else ToVisit(u, cur, n)) + Backwards(out)
  {
    cur, out := p, [];
    ghost var seen: seq<Path> := [];
    assert Front(u, p, n) + seen == Front(u, p, n);
    while cur == [] || cur[|cur| - 1] == 0
      invariant Has(u, cur) && UpTo(cur, n) && out == Backwards(seen)
      invariant Front(u, p, n) == Front(u, cur, n) + seen
      decreases |cur|
    {
      Relist(seen);
      if cur == [] { return cur, true, out; }
      ToParent(u, cur, n);
      UpToParent(cur, n);
      cur := cur[..|cur| - 1];
      ConcatAgain(Front(u, cur, n), Unless(cur, n), seen);
      Listed(cur, seen);
      seen := Unless(cur, n) + seen;
      if !IsPrefix(cur, n) { out := out + [cur]; }
    }
    Relist(seen);
    ToSibling(u, cur, n);
    UpToSibling(cur, n);
    cur := cur[..|cur| - 1] + [cur[|cur| - 1] - 1];
    done := false;
  }

  lemma Relist(s: seq<Path>)
    ensures Backwards(Backwards(s)) == s
    ensures [] + s == s
  {
  }

  lemma InFrontChild(u: Tree, p: Path, n: Path, k: nat)
    requires Has(u, p) && Before(p, n) && !IsPrefix(p, n)
    ensures Before(p + [k], n) && !IsPrefix(p + [k], n)
  {
    BesideSame(p, [k], n);
    NotBelowChild(p, k, n);
  }

  /** What is still to come, in document order, when the walk stands at cur. */
  function Coming(u: Tree, cur: Path, n: Path, done: bool): seq<Path>
    requires !done ==> Has(u, cur)
  {
    if done then [] else ToVisit(u, cur, n)
  }

  /** One leaf: it is listed, and so is what the walk passes on the way to the next subtree. */
  method LeafStep(u: Tree, leaf: Path, n: Path, out0: seq<Path>) returns (cur: Path, done: bool, out: seq<Path>)
    requires Has(u, leaf) && Before(leaf, n) && |At(u, leaf).kids| == 0
    ensures !done ==> Has(u, cur) && Before(cur, n) && !IsPrefix(cur, n)
    ensures |out| > |out0|
    ensures ToVisit(u, leaf, n) + Backwards(out0) == Coming(u, cur, n, done) + Backwards(out)
  {
    var passed;
    cur, done, passed := ClimbBack(u, leaf, n);
    out := out0 + [leaf] + passed;
    LeafSubtree(u, leaf);
    ListedAfter(out0, leaf, passed);
    Regroup(Coming(u, cur, n, done), Backwards(passed), [leaf], Backwards(out0));
  }

  lemma Regroup(a: seq<Path>, b: seq<Path>, c: seq<Path>, d: seq<Path>)
    ensures ((a + b) + c) + d == a + (b + c + d)
  {
  }

  /** The preceding axis of an element: from the nearest node back to the start of the document. */
  method WalkPreceding(u: Tree, n: Path) returns (out: seq<Path>)
    requires Has(u, n)
    ensures AsElems(out) == AxisNodes(u, Preceding, Elem(n))
  {
    var cur, done := LeaveNode(u, n);
    out := [];
    ghost var all := Front(u, n, n);
    while !done
      invariant !done ==> Has(u, cur) && Before(cur, n) && !IsPrefix(cur, n)
      invariant all == Coming(u, cur, n, done) + Backwards(out)
      decreases |all| - |out|, if done then 0 else |Subtree(u, cur)|
    {
      if |At(u, cur).kids| > 0 {
        var k := |At(u, cur).kids| - 1;
        ToLastChild(u, cur, n);
        SmallerSubtree(u, cur, k);
        InFrontChild(u, cur, n, k);
        cur := cur + [k];
      } else {
        cur, done, out := LeafStep(u, cur, n, out);
      }
    }
    Relist(out);
    PrecedingAxis(u, n);
  }

  lemma PrecedingAxis(u: Tree, n: Path)
    requires Has(u, n)
    ensures AxisNodes(u, Preceding, Elem(n)) == AsElems(Backwards(Front(u, n, n)))
    ensures forall a: nat :: a < |At(u, n).attrs| ==>
            AxisNodes(u, Preceding, Attr(n, a)) == AxisNodes(u, Preceding, Elem(n))
  {
    FrontIsPreceding(u, n);
  }

  lemma SmallerSubtree(u: Tree, p: Path, k: nat)
    requires Has(u, p) && k == |At(u, p).kids| - 1
    ensures Has(u, p + [k]) && |Subtree(u, p + [k])| < |Subtree(u, p)|
  {
    var t := At(u, p);
    HasAppend(u, p, [k]);
    KidsSplit(t, k + 1);
    assert At(u, p + [k]) == t.kids[k];
  }
}
