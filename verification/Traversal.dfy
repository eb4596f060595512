/**
  The descendant walk of step_fill (pugixml.cpp:10186-10214): it follows first-child, next-sibling
  and parent links, without a stack, and visits the nodes below n in document order.
 */
module Traversal {
  import opened Documents

  /** Paths ps below the node q. */
  function Rooted(q: Path, ps: seq<Path>): (r: seq<Path>)
    ensures |r| == |ps| && forall k :: 0 <= k < |ps| ==> r[k] == q + ps[k]
  {
    seq(|ps|, k requires 0 <= k < |ps| => q + ps[k])
  }

  lemma BelowConcat(q: Path, a: seq<Path>, b: seq<Path>)
    ensures Rooted(q, a + b) == Rooted(q, a) + Rooted(q, b)
  {
  }

  lemma BelowUnder(q: Path, i: nat, ps: seq<Path>)
    ensures Rooted(q, Under(i, ps)) == Rooted(q + [i], ps)
  {
    forall k | 0 <= k < |ps| ensures q + ([i] + ps[k]) == q + [i] + ps[k] { }
  }

  lemma BelowRoot(ps: seq<Path>)
    ensures Rooted([], ps) == ps
  {
    forall k | 0 <= k < |ps| ensures [] + ps[k] == ps[k] { }
  }

  /** The subtree of q in document order. */
  function Subtree(u: Tree, q: Path): seq<Path>
    requires Has(u, q)
  {
    Rooted(q, Preorder(At(u, q)))
  }

  /** The nodes of u behind the subtree of p in document order. */
  function Behind(u: Tree, p: Path): seq<Path>
    requires Has(u, p)
    decreases |p|
  {
    if p == [] then []
    else
      ParentHas(u, p);
      var q := p[..|p| - 1];
      Rooted(q, PreorderKids(At(u, q), p[|p| - 1] + 1)) + Behind(u, q)
  }

  /** At a node: itself, its children, and what is behind it. */
  lemma AtNode(u: Tree, p: Path)
    requires Has(u, p)
    ensures Subtree(u, p) == [p] + Rooted(p, PreorderKids(At(u, p), 0))
  {
    BelowConcat(p, [[]], PreorderKids(At(u, p), 0));
    assert Rooted(p, [[]]) == [p] by { assert p + [] == p; }
  }

  lemma BehindChild(u: Tree, q: Path, i: nat)
    requires Has(u, q) && i < |At(u, q).kids|
    ensures Has(u, q + [i]) && Behind(u, q + [i]) == Rooted(q, PreorderKids(At(u, q), i + 1)) + Behind(u, q)
  {
    HasAppend(u, q, [i]);
    assert (q + [i])[..|q + [i]| - 1] == q && (q + [i])[|q + [i]| - 1] == i;
  }

  /** From child i on: that child's subtree, and what is behind it. */
  lemma FromChild(u: Tree, q: Path, i: nat)
    requires Has(u, q) && i < |At(u, q).kids|
    ensures Has(u, q + [i])
    ensures Rooted(q, PreorderKids(At(u, q), i)) + Behind(u, q) == Subtree(u, q + [i]) + Behind(u, q + [i])
  {
    var c := q + [i];
    HasAppend(u, q, [i]);
    var a, b := Under(i, Preorder(At(u, q).kids[i])), PreorderKids(At(u, q), i + 1);
    assert At(u, c) == At(u, q).kids[i];
    assert Rooted(q, a) == Subtree(u, c) by { BelowUnder(q, i, Preorder(At(u, q).kids[i])); }
    BehindChild(u, q, i);
    assert PreorderKids(At(u, q), i) == a + b;
    assert Rooted(q, PreorderKids(At(u, q), i)) == Rooted(q, a) + Rooted(q, b) by { BelowConcat(q, a, b); }
    ConcatAgain(Rooted(q, a), Rooted(q, b), Behind(u, q));
  }

  lemma ConcatAgain(a: seq<Path>, b: seq<Path>, c: seq<Path>)
    ensures a + b + c == a + (b + c)
  {
  }

  /** Past the last child: what is behind the parent. */
  lemma LastChild(u: Tree, p: Path)
    requires Has(u, p) && p != [] && !Has(u, p[..|p| - 1] + [p[|p| - 1] + 1])
    ensures Has(u, p[..|p| - 1]) && Behind(u, p) == Behind(u, p[..|p| - 1])
  {
    var q, i := p[..|p| - 1], p[|p| - 1];
    ParentHas(u, p);
    HasAppend(u, q, [i + 1]);
    assert PreorderKids(At(u, q), i + 1) == [];
    assert [] + Behind(u, q) == Behind(u, q);
  }

  /**
    Climbs from cur to the nearest node on the way up with a next sibling, and goes to it; done at the
    root of the walk.
   */
  method Climb(u: Tree, p: Path) returns (cur: Path, done: bool)
    requires Has(u, p) && p != []
    ensures done ==> Behind(u, p) == []
    ensures !done ==> Has(u, cur) && cur != [] && Behind(u, p) == Subtree(u, cur) + Behind(u, cur)
  {
    cur := p;
    while !Has(u, cur[..|cur| - 1] + [cur[|cur| - 1] + 1])
      invariant Has(u, cur) && cur != [] && Behind(u, cur) == Behind(u, p)
      decreases |cur|
    {
      LastChild(u, cur);
      cur := cur[..|cur| - 1];
      if cur == [] { return cur, true; }
    }
    ParentHas(u, cur);
    var q, i := cur[..|cur| - 1], cur[|cur| - 1];
    HasAppend(u, q, [i + 1]);
    FromChild(u, q, i + 1);
    return q + [i + 1], false;
  }

  /** What the walk has yet to visit when it stands at p. */
  function Rest(u: Tree, p: Path): seq<Path>
    requires Has(u, p)
  {
    Subtree(u, p) + Behind(u, p)
  }

  function Remaining(u: Tree, p: Path, done: bool): seq<Path>
    requires !done ==> Has(u, p)
  {
    if done then [] else Rest(u, p)
  }

  lemma Descend(u: Tree, p: Path)
    requires Has(u, p)
    ensures if |At(u, p).kids| > 0 then Has(u, p + [0]) && Rest(u, p) == [p] + Rest(u, p + [0])
            else Rest(u, p) == [p] + Behind(u, p)
  {
    AtNode(u, p);
    var kids := Rooted(p, PreorderKids(At(u, p), 0));
    ConcatAgain([p], kids, Behind(u, p));
    if |At(u, p).kids| > 0 { FromChild(u, p, 0); } else { assert kids == []; }
  }

  /** One round of the loop: from a visited node to the next. */
  method NextNode(u: Tree, p: Path) returns (cur: Path, done: bool)
    requires Has(u, p) && p != []
    ensures !done ==> Has(u, cur) && cur != []
    ensures Rest(u, p) == [p] + Remaining(u, cur, done)
  {
    Descend(u, p);
    if |At(u, p).kids| > 0 { return p + [0], false; }
    cur, done := Climb(u, p);
  }

  lemma StartBelow(u: Tree)
    requires |u.kids| > 0
    ensures Has(u, [0]) && Preorder(u) == [[]] + Rest(u, [0])
  {
    Descend(u, []);
    BelowRoot(Preorder(u));
    assert [] + [0] == [0] && Rest(u, []) == Preorder(u) + [];
  }

  lemma WalkStep(out: seq<Path>, cur: Path, rest: seq<Path>)
    ensures out + ([cur] + rest) == out + [cur] + rest
  {
  }

  /** The loop: from `start` on, to the end of the tree. */
  method WalkOn(u: Tree, start: Path) returns (out: seq<Path>)
    requires Has(u, start) && start != []
    ensures out == Rest(u, start)
  {
    out := [];
    var cur, done := start, false;
    ghost var all := Rest(u, start);
    while !done
      invariant !done ==> Has(u, cur) && cur != []
      invariant all == out + Remaining(u, cur, done)
      decreases !done, |all| - |out|
    {
      var next, end := NextNode(u, cur);
      WalkStep(out, cur, Remaining(u, next, end));
      out := out + [cur];
      cur, done := next, end;
    }
  }

  /** The walk visits the proper descendants of the root of u, each once, in document order. */
  method WalkDescendants(u: Tree) returns (out: seq<Path>)
    ensures [[]] + out == Preorder(u)
  {
    if |u.kids| == 0 { return []; }
    StartBelow(u);
    out := WalkOn(u, [0]);
  }
}
