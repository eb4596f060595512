/**
  XML document trees.  A node is named by its path from the root: the empty path is the
  root, and p + [i] is child i of p.  A path stands for the node pointer of the source:
  dropping the last element is the parent link, adding one to it is next_sibling.
 */
module Documents {

  /** `tag` stands for the node's type and name; `attrs` for its attributes' names. */
  datatype Tree = Node(tag: nat, attrs: seq<nat>, kids: seq<Tree>)

  type Path = seq<nat>

  predicate Has(t: Tree, p: Path)
    decreases |p|
  {
    p == [] || (p[0] < |t.kids| && Has(t.kids[p[0]], p[1..]))
  }

  function At(t: Tree, p: Path): Tree
    requires Has(t, p)
    decreases |p|
  {
    if p == [] then t else At(t.kids[p[0]], p[1..])
  }

  lemma {:induction false} HasAppend(t: Tree, p: Path, q: Path)
    requires Has(t, p)
    ensures Has(t, p + q) <==> Has(At(t, p), q)
    ensures Has(t, p + q) ==> At(t, p + q) == At(At(t, p), q)
    decreases |p|
  {
    if p == [] {
      assert p + q == q;
    } else {
      HasAppend(t.kids[p[0]], p[1..], q);
      assert (p + q)[1..] == p[1..] + q;
    }
  }

  lemma {:induction false} HasPrefix(t: Tree, p: Path, q: Path)
    requires Has(t, p + q)
    ensures Has(t, p)
    decreases |p|
  {
    if p != [] {
      assert (p + q)[1..] == p[1..] + q;
      HasPrefix(t.kids[p[0]], p[1..], q);
    }
  }

  lemma ParentHas(u: Tree, p: Path)
    requires Has(u, p) && p != []
    ensures var q := p[..|p| - 1]; Has(u, q) && p[|p| - 1] < |At(u, q).kids|
  {
    var q, i := p[..|p| - 1], p[|p| - 1];
    assert p == q + [i];
    HasPrefix(u, q, [i]);
    HasAppend(u, q, [i]);
  }

  // ---------------------------------------------------------------------
  // Document order
  // ---------------------------------------------------------------------

  /** An ancestor comes before its descendants, and siblings' subtrees follow sibling order. */
  predicate Before(p: Path, q: Path)
    decreases |p|
  {
    q != [] && (p == [] || p[0] < q[0] || (p[0] == q[0] && Before(p[1..], q[1..])))
  }

  predicate IsPrefix(p: Path, q: Path) { |p| <= |q| && q[..|p|] == p }

  function Under(i: nat, ps: seq<Path>): (r: seq<Path>)
    ensures |r| == |ps| && forall k :: 0 <= k < |ps| ==> r[k] == [i] + ps[k]
  {
    seq(|ps|, k requires 0 <= k < |ps| => [i] + ps[k])
  }

  /** All nodes of t, each before its children, children in order: the traversal order of the document. */
  function Preorder(t: Tree): seq<Path>
    decreases t, 1
  {
    [[]] + PreorderKids(t, 0)
  }

  function PreorderKids(t: Tree, i: nat): seq<Path>
    requires i <= |t.kids|
    decreases t, 0, |t.kids| - i
  {
    if i == |t.kids| then [] else Under(i, Preorder(t.kids[i])) + PreorderKids(t, i + 1)
  }

  lemma {:induction false} PreorderHas(t: Tree, p: Path)
    ensures p in Preorder(t) <==> Has(t, p)
    decreases t, 1
  {
    if p == [] {
      assert Preorder(t)[0] == p;
    } else {
      PreorderKidsHas(t, 0, p);
      assert p in [[]] + PreorderKids(t, 0) <==> p in PreorderKids(t, 0);
    }
  }

  lemma {:induction false} PreorderKidsHas(t: Tree, i: nat, p: Path)
    requires i <= |t.kids|
    ensures p in PreorderKids(t, i) <==> p != [] && i <= p[0] && Has(t, p)
    decreases t, 0, |t.kids| - i
  {
    if i < |t.kids| {
      var ps := Preorder(t.kids[i]);
      PreorderKidsHas(t, i + 1, p);
      if p != [] && p[0] == i {
        PreorderHas(t.kids[i], p[1..]);
        assert p == [i] + p[1..];
        if p[1..] in ps {
          var k :| 0 <= k < |ps| && ps[k] == p[1..];
          assert Under(i, ps)[k] == p;
        }
      }
      if p in Under(i, ps) {
        var k :| 0 <= k < |ps| && Under(i, ps)[k] == p;
        assert p == [i] + ps[k] && p[1..] == ps[k];
      }
    }
  }

  predicate Ordered(ps: seq<Path>) {
    forall i, j :: 0 <= i < j < |ps| ==> Before(ps[i], ps[j])
  }

  lemma {:induction false} PreorderOrdered(t: Tree)
    ensures Ordered(Preorder(t))
    decreases t, 1
  {
    PreorderKidsOrdered(t, 0);
    var ks := PreorderKids(t, 0);
    forall k | 0 <= k < |ks| ensures ks[k] != [] { PreorderKidsHas(t, 0, ks[k]); }
  }

  lemma {:induction false} PreorderKidsOrdered(t: Tree, i: nat)
    requires i <= |t.kids|
    ensures Ordered(PreorderKids(t, i))
    decreases t, 0, |t.kids| - i
  {
    if i < |t.kids| {
      PreorderOrdered(t.kids[i]);
      PreorderKidsOrdered(t, i + 1);
      var a, b := Under(i, Preorder(t.kids[i])), PreorderKids(t, i + 1);
      forall j, k | 0 <= j < k < |a + b| ensures Before((a + b)[j], (a + b)[k]) {
        if k < |a| {
          assert a[j][1..] == Preorder(t.kids[i])[j] && a[k][1..] == Preorder(t.kids[i])[k];
        } else {
          PreorderKidsHas(t, i + 1, b[k - |a|]);
          if j >= |a| { assert Before(b[j - |a|], b[k - |a|]); }
        }
      }
    }
  }

  lemma {:induction false} BeforeTotal(p: Path, q: Path)
    ensures p == q || Before(p, q) || Before(q, p)
    ensures !(Before(p, q) && Before(q, p)) && !Before(p, p)
    decreases |p|
  {
    if p != [] {
      if q != [] && p[0] == q[0] {
        BeforeTotal(p[1..], q[1..]);
        assert p == [p[0]] + p[1..] && q == [q[0]] + q[1..];
      }
      BeforeTotal(p[1..], p[1..]);
    }
  }

  lemma {:induction false} BeforeTransitive(p: Path, q: Path, r: Path)
    requires Before(p, q) && Before(q, r)
    ensures Before(p, r)
    decreases |p|
  {
    if p != [] && p[0] == q[0] && q[0] == r[0] { BeforeTransitive(p[1..], q[1..], r[1..]); }
  }

  /** The order relation is position in the traversal. */
  lemma BeforeIsTraversalOrder(t: Tree, i: nat, j: nat)
    requires i < |Preorder(t)| && j < |Preorder(t)|
    ensures i < j <==> Before(Preorder(t)[i], Preorder(t)[j])
  {
    PreorderOrdered(t);
    BeforeTotal(Preorder(t)[i], Preorder(t)[j]);
    BeforeTotal(Preorder(t)[j], Preorder(t)[j]);
  }

  // ---------------------------------------------------------------------
  // Some of the nodes
  // ---------------------------------------------------------------------

  function Where(ps: seq<Path>, keep: Path -> bool): seq<Path> {
    if ps == [] then [] else (if keep(ps[0]) then [ps[0]] else []) + Where(ps[1..], keep)
  }

  lemma {:induction false} WhereIs(ps: seq<Path>, keep: Path -> bool)
    ensures forall p :: p in Where(ps, keep) <==> p in ps && keep(p)
  {
    if ps != [] {
      WhereIs(ps[1..], keep);
      assert ps == [ps[0]] + ps[1..];
    }
  }

  lemma {:induction false} WhereOrdered(ps: seq<Path>, keep: Path -> bool)
    requires Ordered(ps)
    ensures Ordered(Where(ps, keep))
  {
    if ps != [] {
      WhereOrdered(ps[1..], keep);
      WhereIs(ps[1..], keep);
      var r, rest := Where(ps, keep), Where(ps[1..], keep);
      forall i, j | 0 <= i < j < |r| ensures Before(r[i], r[j]) {
        if keep(ps[0]) {
          if i == 0 {
            assert r[j] in ps[1..];
            var k :| 0 <= k < |ps[1..]| && ps[1..][k] == r[j];
            assert ps[k + 1] == r[j];
          }
        }
      }
    }
  }

  /** The nodes behind p that are not below it, in document order. */
  function NodesAfter(t: Tree, p: Path): seq<Path> { Where(Preorder(t), q => Before(p, q) && !IsPrefix(p, q)) }

  /** The nodes before p that are not above it, in document order. */
  function NodesBefore(t: Tree, p: Path): seq<Path> { Where(Preorder(t), q => Before(q, p) && !IsPrefix(q, p)) }

  function Backwards<T>(q: seq<T>): (r: seq<T>)
    ensures |r| == |q| && forall i :: 0 <= i < |q| ==> r[i] == q[|q| - 1 - i]
  {
    seq(|q|, i requires 0 <= i < |q| => q[|q| - 1 - i])
  }
}
