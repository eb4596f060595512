/**
  What a query denotes (sections 2.1 to 2.5 and 3.3 of XPath 1.0), as sets of nodes named by their paths: axes
  are relations between paths, a predicate keeps the nodes of which it is true at their place, and a place is
  the number of nodes that do not come later.  Evaluation (pugixml.cpp:10448-10493, 11110-11209) yields
  just these nodes.
 */
module XPathMeaning {
  import opened Collections
  import opened Documents
  import opened XPath
  import opened XPathRewrite
  import opened XPathPreserves
  import opened XPathModes

  // ---------------------------------------------------------------------
  // Axes
  // ---------------------------------------------------------------------

  /** q is a child of p. */
  predicate ChildOf(p: Path, q: Path) { |q| == |p| + 1 && q[..|p|] == p }

  predicate Proper(p: Path, q: Path) { IsPrefix(p, q) && p != q }

  /** q is the sibling of p at another place. */
  predicate SiblingOf(p: Path, q: Path) {
    p != [] && |q| == |p| && p[..|p| - 1] == q[..|p| - 1] && p[|p| - 1] != q[|p| - 1]
  }

  /** y is on the axis of x. */
  predicate Reaches(axis: Axis, x: XNode, y: XNode) {
    match axis
    case Self => y == x
    case Child => x.Elem? && y.Elem? && ChildOf(x.p, y.p)
    case Parent => y.Elem? && if x.Attr? then y.p == x.p else ChildOf(y.p, x.p)
    case Attribute => x.Elem? && y.Attr? && y.p == x.p
    case Descendant => x.Elem? && y.Elem? && Proper(x.p, y.p)
    case DescendantOrSelf => y == x || (x.Elem? && y.Elem? && Proper(x.p, y.p))
    case Ancestor => y.Elem? && if x.Attr? then IsPrefix(y.p, x.p) else Proper(y.p, x.p)
    case AncestorOrSelf => y == x || (y.Elem? && if x.Attr? then IsPrefix(y.p, x.p) else Proper(y.p, x.p))
    case FollowingSibling => x.Elem? && y.Elem? && SiblingOf(x.p, y.p) && Before(x.p, y.p)
    case PrecedingSibling => x.Elem? && y.Elem? && SiblingOf(x.p, y.p) && Before(y.p, x.p)
    case Following => y.Elem? && Before(x.p, y.p) && (x.Elem? ==> !IsPrefix(x.p, y.p))
    case Preceding => y.Elem? && Before(y.p, x.p) && !IsPrefix(y.p, x.p)
  }

  lemma ElemsIn(qs: seq<Path>, y: XNode)
    ensures y in AsElems(qs) <==> y.Elem? && y.p in qs
  {
    if y.Elem? && y.p in qs {
      var i :| 0 <= i < |qs| && qs[i] == y.p;
      assert AsElems(qs)[i] == y;
    }
  }

  lemma AboveIn(p: Path, q: Path)
    ensures q in Above(p) <==> Proper(q, p)
  {
    if Proper(q, p) { assert Above(p)[|p| - 1 - |q|] == p[..|q|]; }
  }

  lemma SiblingOrder(p: Path, q: Path)
    requires SiblingOf(p, q)
    ensures Before(p, q) <==> p[|p| - 1] < q[|p| - 1]
    ensures Before(q, p) <==> q[|p| - 1] < p[|p| - 1]
  {
    BeforeTotal(p, q);
    if p[|p| - 1] < q[|p| - 1] { SiblingBefore(p, q); } else { SiblingBefore(q, p); }
  }

  /** The nodes below r that are children of it, by their places. */
  lemma ChildPlace(d: Tree, r: Path, q: Path)
    requires Has(d, r) && |q| == |r| + 1 && q[..|r|] == r
    ensures q == r + [q[|r|]] && (Has(d, q) <==> q[|r|] < |At(d, r).kids|)
  {
    HasAppend(d, r, [q[|r|]]);
  }

  lemma NextSiblingsIn(d: Tree, p: Path, q: Path)
    requires Has(d, p)
    ensures q in NextSiblings(d, p) <==> Has(d, q) && SiblingOf(p, q) && Before(p, q)
  {
    if p != [] {
      ParentHas(d, p);
      NextSiblingsAre(d, p);
      var r, i := p[..|p| - 1], p[|p| - 1];
      if q in NextSiblings(d, p) {
        var k :| 0 <= k < |NextSiblings(d, p)| && NextSiblings(d, p)[k] == q;
        assert SiblingAt(p, q, i + 1 + k);
        SiblingOrder(p, q);
        ChildPlace(d, r, q);
      }
      if Has(d, q) && SiblingOf(p, q) && Before(p, q) {
        SiblingOrder(p, q);
        ChildPlace(d, r, q);
        assert NextSiblings(d, p)[q[|p| - 1] - i - 1] == q;
      }
    }
  }

  lemma PreviousSiblingsIn(d: Tree, p: Path, q: Path)
    requires Has(d, p)
    ensures q in PreviousSiblings(p) <==> Has(d, q) && SiblingOf(p, q) && Before(q, p)
  {
    if p != [] {
      if q in PreviousSiblings(p) { PreviousSiblingIs(d, p, q); }
      if Has(d, q) && SiblingOf(p, q) && Before(q, p) {
        ParentHas(d, p);
        SiblingOrder(p, q);
        ChildPlace(d, p[..|p| - 1], q);
        assert PreviousSiblings(p)[p[|p| - 1] - 1 - q[|p| - 1]] == q;
      }
    }
  }

  lemma PreviousSiblingIs(d: Tree, p: Path, q: Path)
    requires Has(d, p) && p != [] && q in PreviousSiblings(p)
    ensures Has(d, q) && SiblingOf(p, q) && Before(q, p)
  {
    ParentHas(d, p);
    PreviousSiblingsAre(p);
    var k :| 0 <= k < |PreviousSiblings(p)| && PreviousSiblings(p)[k] == q;
    assert SiblingAt(p, q, p[|p| - 1] - 1 - k);
    SiblingOrder(p, q);
    ChildPlace(d, p[..|p| - 1], q);
  }

  lemma WhereIn(d: Tree, keep: Path -> bool, q: Path)
    ensures q in Where(Preorder(d), keep) <==> Has(d, q) && keep(q)
  {
    WhereIs(Preorder(d), keep);
    PreorderHas(d, q);
  }

  lemma BackwardsIn<T>(q: seq<T>, x: T)
    ensures x in Backwards(q) <==> x in q
  {
    if x in q {
      var i :| 0 <= i < |q| && q[i] == x;
      assert Backwards(q)[|q| - 1 - i] == x;
    }
  }

  lemma BesideIn(d: Tree, p: Path, y: XNode)
    ensures y in AsElems(NodesAfter(d, p)) <==> InDoc(d, y) && y.Elem? && Before(p, y.p) && !IsPrefix(p, y.p)
    ensures y in AsElems(Where(Preorder(d), q => Before(p, q))) <==> InDoc(d, y) && y.Elem? && Before(p, y.p)
    ensures y in AsElems(Backwards(NodesBefore(d, p))) <==>
            InDoc(d, y) && y.Elem? && Before(y.p, p) && !IsPrefix(y.p, p)
  {
    ElemsIn(NodesAfter(d, p), y);
    WhereIn(d, q => Before(p, q) && !IsPrefix(p, q), y.p);
    ElemsIn(Where(Preorder(d), q => Before(p, q)), y);
    WhereIn(d, q => Before(p, q), y.p);
    ElemsIn(Backwards(NodesBefore(d, p)), y);
    BackwardsIn(NodesBefore(d, p), y.p);
    WhereIn(d, q => Before(q, p) && !IsPrefix(q, p), y.p);
  }

  lemma AboveNodes(d: Tree, p: Path, y: XNode)
    requires Has(d, p)
    ensures y in AsElems(Above(p)) <==> InDoc(d, y) && y.Elem? && Proper(y.p, p)
  {
    ElemsIn(Above(p), y);
    AboveIn(p, y.p);
    if Proper(y.p, p) {
      assert p == y.p + p[|y.p|..];
      HasPrefix(d, y.p, p[|y.p|..]);
    }
  }

  lemma AttributeAxisIs(d: Tree, axis: Axis, x: XNode, y: XNode)
    requires InDoc(d, x) && x.Attr?
    ensures y in AttributeAxis(d, axis, x) <==> InDoc(d, y) && Reaches(axis, x, y)
  {
    BesideIn(d, x.p, y);
    AboveNodes(d, x.p, y);
    assert x.p[..|x.p|] == x.p;
    assert y.p == x.p ==> IsPrefix(y.p, x.p);
    assert IsPrefix(y.p, x.p) ==> Has(d, y.p) by {
      if IsPrefix(y.p, x.p) {
        assert x.p == y.p + x.p[|y.p|..];
        HasPrefix(d, y.p, x.p[|y.p|..]);
      }
    }
  }

  lemma AroundAxisIs(d: Tree, axis: Axis, x: XNode, y: XNode)
    requires InDoc(d, x) && x.Elem? && axis !in {Child, Descendant, DescendantOrSelf, Self, Attribute, Parent}
    ensures y in AroundAxis(d, axis, x.p) <==> InDoc(d, y) && Reaches(axis, x, y)
  {
    match axis {
      case Following => BesideIn(d, x.p, y);
      case Preceding => BesideIn(d, x.p, y);
      case Ancestor => AboveNodes(d, x.p, y);
      case AncestorOrSelf => AboveNodes(d, x.p, y);
      case FollowingSibling => ElemsIn(NextSiblings(d, x.p), y); NextSiblingsIn(d, x.p, y.p);
      case PrecedingSibling => ElemsIn(PreviousSiblings(x.p), y); PreviousSiblingsIn(d, x.p, y.p);
    }
  }

  lemma NearAxisIs(d: Tree, axis: Axis, x: XNode, y: XNode)
    requires InDoc(d, x) && x.Elem? && axis in {Self, Attribute, Parent}
    ensures y in AxisNodes(d, axis, x) <==> InDoc(d, y) && Reaches(axis, x, y)
  {
    match axis {
      case Self =>
      case Attribute =>
        if y.Attr? && y.p == x.p && InDoc(d, y) { assert AxisNodes(d, Attribute, x)[y.a] == y; }
      case Parent =>
        if x.p != [] { ParentHas(d, x.p); }
    }
  }

  /** An axis lists just the nodes that it reaches. */
  lemma AxisIs(d: Tree, axis: Axis, x: XNode, y: XNode)
    requires InDoc(d, x)
    ensures y in AxisNodes(d, axis, x) <==> InDoc(d, y) && Reaches(axis, x, y)
  {
    if x.Attr? {
      AttributeAxisIs(d, axis, x, y);
    } else if axis == Child {
      ChildIs(d, x, y);
    } else if axis == Descendant {
      DescendantIs(d, x, y);
    } else if axis == DescendantOrSelf {
      DescendantOrSelfIs(d, x, y);
      assert x.p[..|x.p|] == x.p;
    } else if axis in {Self, Attribute, Parent} {
      NearAxisIs(d, axis, x, y);
    } else {
      AroundAxisIs(d, axis, x, y);
    }
  }

  // ---------------------------------------------------------------------
  // Denotation
  // ---------------------------------------------------------------------

  /** No attribute before it has its name. */
  predicate FirstNamed(d: Tree, y: XNode)
    requires InDoc(d, y)
  {
    y.Attr? && forall b :: 0 <= b < y.a ==> At(d, y.p).attrs[b] != At(d, y.p).attrs[y.a]
  }

  /** y passes the step from x; of several attributes of one name a test by that name takes the first. */
  predicate Chosen(d: Tree, axis: Axis, test: Test, x: XNode, y: XNode) {
    && InDoc(d, y) && Reaches(axis, x, y) && Takes(d, axis, test, y)
    && (axis == Attribute && test.Named? ==> FirstNamed(d, y))
  }

  function Selected(d: Tree, axis: Axis, test: Test, x: XNode): set<XNode> {
    set y | y in AllNodes(d) && Chosen(d, axis, test, x, y)
  }

  /** The place of y in a set of this order: how many do not come after it. */
  function Place(order: SetType, nodes: set<XNode>, y: XNode): nat {
    |set z | z in nodes && (z == y || Comes(order, z, y))|
  }

  predicate NodesOf(d: Tree, nodes: set<XNode>) { forall y :: y in nodes ==> InDoc(d, y) }

  function NumMeaning(w: World, e: Expr, c: Ctx): Number
    requires InDoc(w.d, c.n)
    decreases e, 0
  {
    match e
    case Num(n) => n
    case Var(v) => if v in w.vars then w.vars[v] else NaN
    case Position => OfNat(c.pos)
    case Last => OfNat(c.size)
    case Count(a) => OfNat(|SetMeaning(w, a, c)|)
    case Plus(l, r) => NumPlus(NumMeaning(w, l, c), NumMeaning(w, r, c))
    case _ => NaN
  }

  predicate IsTrue(w: World, e: Expr, c: Ctx)
    requires InDoc(w.d, c.n)
    decreases e, 0
  {
    match e
    case Equal(l, r) => NumEq(NumMeaning(w, l, c), NumMeaning(w, r, c))
    case Less(l, r) => NumLess(NumMeaning(w, l, c), NumMeaning(w, r, c))
    case And(l, r) => IsTrue(w, l, c) && IsTrue(w, r, c)
    case Or(l, r) => IsTrue(w, l, c) || IsTrue(w, r, c)
    case Not(a) => !IsTrue(w, a, c)
    case NonEmpty(a) => SetMeaning(w, a, c) != {}
    case _ => false
  }

  function SetMeaning(w: World, e: Expr, c: Ctx): (r: set<XNode>)
    requires InDoc(w.d, c.n)
    ensures NodesOf(w.d, r)
    decreases e, 0
  {
    match e
    case Root => {Elem([])}
    case Step(left, axis, test, preds) =>
      if left.Here? then StepMeaning(w, axis, test, preds, c.n)
      else set x, y | x in SetMeaning(w, left.e, c) && y in StepMeaning(w, axis, test, preds, x) :: y
    case Filter(a, pred) => Kept(w, pred, SetMeaning(w, a, c), Ascending)
    case Union(l, r) => SetMeaning(w, l, c) + SetMeaning(w, r, c)
    case _ => {}
  }

  function StepMeaning(w: World, axis: Axis, test: Test, preds: Preds, x: XNode): (r: set<XNode>)
    requires InDoc(w.d, x)
    ensures NodesOf(w.d, r)
    decreases preds, 1
  {
    KeptAll(w, preds, Selected(w.d, axis, test, x), AxisOrder(axis))
  }

  function KeptAll(w: World, preds: Preds, nodes: set<XNode>, order: SetType): (r: set<XNode>)
    requires NodesOf(w.d, nodes)
    ensures NodesOf(w.d, r)
    decreases preds, 0
  {
    if preds.Nil? then nodes else KeptAll(w, preds.next, Kept(w, preds.p, nodes, order), order)
  }

  /** A predicate keeps the nodes of which it is true at their place; a number is true at that place. */
  function Kept(w: World, pred: Pred, nodes: set<XNode>, order: SetType): (r: set<XNode>)
    requires NodesOf(w.d, nodes)
    ensures NodesOf(w.d, r) && r <= nodes
    decreases pred, 0
  {
    set y | y in nodes && Admits(w, pred.e, Ctx(y, Place(order, nodes, y), |nodes|))
  }

  predicate Admits(w: World, e: Expr, c: Ctx)
    requires InDoc(w.d, c.n)
    decreases e, 1
  {
    if TypeOf(e) == TNum then NumEq(NumMeaning(w, e, c), OfNat(c.pos)) else IsTrue(w, e, c)
  }

  // ---------------------------------------------------------------------
  // Places
  // ---------------------------------------------------------------------

  /** In an arranged set the place of a node is its index, counted from 1. */
  lemma PlaceIs(nodes: seq<XNode>, order: SetType, i: nat)
    requires Arranged(nodes, order) && order != Unsorted && i < |nodes|
    ensures Place(order, Elems(nodes), nodes[i]) == i + 1
  {
    ArrangedNoDup(nodes, order);
    var front, y := nodes[..i + 1], nodes[i];
    var r := set z | z in Elems(nodes) && (z == y || Comes(order, z, y));
    forall z ensures z in r <==> z in Elems(front) {
      if z in front {
        var j :| 0 <= j < |front| && front[j] == z;
        assert nodes[j] == z && (j == i || Comes(order, nodes[j], nodes[i]));
      }
      if z in r {
        var j :| 0 <= j < |nodes| && nodes[j] == z;
        if i < j {
          assert Comes(order, nodes[i], nodes[j]);
          AheadStrict(y, z);
        }
        assert front[j] == z;
      }
    }
    assert r == Elems(front);
    DistinctSize(front);
  }

  lemma SameSize(nodes: seq<XNode>, order: SetType)
    requires Arranged(nodes, order) && order != Unsorted
    ensures |Elems(nodes)| == |nodes|
  {
    ArrangedNoDup(nodes, order);
    DistinctSize(nodes);
  }

  predicate TrueAt(w: World, e: Expr, nodes: seq<XNode>, j: nat)
    requires AllIn(w.d, nodes) && j < |nodes|
  {
    EvalBool(w, e, Ctx(nodes[j], j + 1, |nodes|))
  }

  predicate PlacedAt(w: World, e: Expr, nodes: seq<XNode>, j: nat)
    requires AllIn(w.d, nodes) && j < |nodes|
  {
    NumEq(EvalNum(w, e, Ctx(nodes[j], j + 1, |nodes|)), OfNat(j + 1))
  }

  lemma {:induction false} KeepBoolIn(w: World, e: Expr, nodes: seq<XNode>, i: nat, y: XNode)
    requires AllIn(w.d, nodes) && i <= |nodes|
    ensures y in KeepBool(w, e, nodes, i) <==>
            exists j: nat :: i <= j < |nodes| && nodes[j] == y && TrueAt(w, e, nodes, j)
    decreases |nodes| - i
  {
    if i < |nodes| {
      KeepBoolIn(w, e, nodes, i + 1, y);
      assert KeepBool(w, e, nodes, i) ==
             (if TrueAt(w, e, nodes, i) then [nodes[i]] else []) + KeepBool(w, e, nodes, i + 1);
    }
  }

  lemma {:induction false} KeepNumIn(w: World, e: Expr, nodes: seq<XNode>, i: nat, y: XNode)
    requires AllIn(w.d, nodes) && i <= |nodes|
    ensures y in KeepNum(w, e, nodes, i) <==>
            exists j: nat :: i <= j < |nodes| && nodes[j] == y && PlacedAt(w, e, nodes, j)
    decreases |nodes| - i
  {
    if i < |nodes| {
      KeepNumIn(w, e, nodes, i + 1, y);
      assert KeepNum(w, e, nodes, i) ==
             (if PlacedAt(w, e, nodes, i) then [nodes[i]] else []) + KeepNum(w, e, nodes, i + 1);
    }
  }

  // ---------------------------------------------------------------------
  // Evaluation yields what a query denotes
  // ---------------------------------------------------------------------

  /** The values of e agree with what it denotes, whatever the context. */
  ghost predicate Means(w: World, e: Expr, c: Ctx)
    requires InDoc(w.d, c.n)
  {
    EvalNum(w, e, c) == NumMeaning(w, e, c) && EvalBool(w, e, c) == IsTrue(w, e, c)
  }

  predicate Judged(w: World, e: Expr, nodes: seq<XNode>, j: nat)
    requires AllIn(w.d, nodes) && j < |nodes|
  {
    if TypeOf(e) == TNum then PlacedAt(w, e, nodes, j) else TrueAt(w, e, nodes, j)
  }

  lemma PredIn(w: World, p: Pred, nodes: seq<XNode>, y: XNode)
    requires AllIn(w.d, nodes) && p.kind == Default
    ensures y in ApplyPred(w, p, nodes) <==> exists j: nat :: j < |nodes| && nodes[j] == y && Judged(w, p.e, nodes, j)
  {
    KeepBoolIn(w, p.e, nodes, 0, y);
    KeepNumIn(w, p.e, nodes, 0, y);
    if y in ApplyPred(w, p, nodes) {
      if TypeOf(p.e) == TNum {
        var j: nat :| j < |nodes| && nodes[j] == y && PlacedAt(w, p.e, nodes, j);
        assert Judged(w, p.e, nodes, j);
      } else {
        var j: nat :| j < |nodes| && nodes[j] == y && TrueAt(w, p.e, nodes, j);
        assert Judged(w, p.e, nodes, j);
      }
    }
  }

  lemma {:induction false} PredMeans(w: World, p: Pred, nodes: seq<XNode>, order: SetType)
    requires AllIn(w.d, nodes) && Arranged(nodes, order) && order != Unsorted
    requires p.kind == Default && Parsed(p.e) && TypeOf(p.e) != TSet
    ensures Elems(ApplyPred(w, p, nodes)) == Kept(w, p, Elems(nodes), order)
    decreases p, 0
  {
    var s := Elems(nodes);
    SameSize(nodes, order);
    forall j: nat | j < |nodes|
      ensures Judged(w, p.e, nodes, j) <==> Admits(w, p.e, Ctx(nodes[j], Place(order, s, nodes[j]), |s|))
    {
      PlaceIs(nodes, order, j);
      ExprMeans(w, p.e, Ctx(nodes[j], j + 1, |nodes|));
    }
    forall y ensures y in ApplyPred(w, p, nodes) <==> y in Kept(w, p, s, order) {
      PredIn(w, p, nodes, y);
      if y in Kept(w, p, s, order) {
        var j: nat :| j < |nodes| && nodes[j] == y;
        assert Judged(w, p.e, nodes, j);
      }
    }
  }

  lemma {:induction false} PredsMean(w: World, ps: Preds, nodes: seq<XNode>, order: SetType)
    requires AllIn(w.d, nodes) && Arranged(nodes, order) && order != Unsorted && ParsedPreds(ps)
    ensures Elems(ApplyPreds(w, ps, nodes)) == KeptAll(w, ps, Elems(nodes), order)
    decreases ps, 0
  {
    if ps.Cons? {
      PredMeans(w, ps.p, nodes, order);
      ApplyPredArranged(w, ps.p, nodes, order);
      PredsMean(w, ps.next, ApplyPred(w, ps.p, nodes), order);
    }
  }

  /** What step_fill lists is what the step selects. */
  lemma FillMeans(d: Tree, axis: Axis, test: Test, x: XNode)
    requires InDoc(d, x)
    ensures Elems(Fill(d, axis, test, x, axis == Attribute && test.Named?)) == Selected(d, axis, test, x)
  {
    var q := Fill(d, axis, test, x, axis == Attribute && test.Named?);
    AllNodesAre(d);
    forall y ensures y in q <==> y in Selected(d, axis, test, x) {
      if axis == Attribute && test.Named? {
        FirstMeans(d, test, x, y);
      } else {
        SelectIn(d, axis, test, x, AxisNodes(d, axis, x), y);
        AxisIs(d, axis, x, y);
      }
    }
  }

  lemma FirstMeans(d: Tree, test: Test, x: XNode, y: XNode)
    requires InDoc(d, x) && test.Named?
    ensures y in Fill(d, Attribute, test, x, true) <==> InDoc(d, y) && Chosen(d, Attribute, test, x, y)
  {
    var ys := AxisNodes(d, Attribute, x);
    var all := Select(d, Attribute, test, x, ys);
    AxisArranged(d, Attribute, x);
    SelectArranged(d, Attribute, test, x, ys, Ascending);
    SelectIn(d, Attribute, test, x, ys, y);
    AxisIs(d, Attribute, x, y);
    if all != [] {
      assert all[0] in all;
      SelectIn(d, Attribute, test, x, ys, all[0]);
      AxisIs(d, Attribute, x, all[0]);
      if y in all {
        var j :| 0 <= j < |all| && all[j] == y;
        assert j > 0 ==> Comes(Ascending, all[0], all[j]);
        BeforeTotal(x.p, x.p);
        if j == 0 { EarlierNamed(d, test, x, y, all); }
      }
    }
  }

  /** The first of those that pass has none of its name before it. */
  lemma EarlierNamed(d: Tree, test: Test, x: XNode, y: XNode, all: seq<XNode>)
    requires InDoc(d, x) && test.Named? && all == Select(d, Attribute, test, x, AxisNodes(d, Attribute, x))
    requires all != [] && y == all[0] && Arranged(all, Ascending) && InDoc(d, y) && Reaches(Attribute, x, y)
    requires Takes(d, Attribute, test, y)
    ensures FirstNamed(d, y)
  {
    forall b: nat | b < y.a ensures At(d, y.p).attrs[b] != At(d, y.p).attrs[y.a] {
      var z := Attr(y.p, b);
      SelectIn(d, Attribute, test, x, AxisNodes(d, Attribute, x), z);
      AxisIs(d, Attribute, x, z);
      if z in all {
        var j :| 0 <= j < |all| && all[j] == z;
        assert j > 0 ==> Comes(Ascending, all[0], all[j]);
        BeforeTotal(y.p, y.p);
      }
    }
  }

  lemma {:induction false} StepMeans(w: World, axis: Axis, test: Test, ps: Preds, x: XNode)
    requires InDoc(w.d, x) && ParsedPreds(ps)
    ensures Elems(StepOne(w, axis, test, ps, x)) == StepMeaning(w, axis, test, ps, x)
    decreases ps, 1
  {
    var once := axis == Attribute && test.Named?;
    assert StopsEarly(axis, test, ps) == once;
    FillIn(w.d, axis, test, x, once);
    FillMeans(w.d, axis, test, x);
    AxisArranged(w.d, axis, x);
    SelectArranged(w.d, axis, test, x, AxisNodes(w.d, axis, x), AxisOrder(axis));
    PredsMean(w, ps, Fill(w.d, axis, test, x, once), AxisOrder(axis));
  }

  lemma {:induction false} ExprMeans(w: World, e: Expr, c: Ctx)
    requires Parsed(e) && InDoc(w.d, c.n) && TypeOf(e) != TSet
    ensures Means(w, e, c)
    decreases e, 0
  {
    match e {
      case Count(a) => SetMeans(w, a, c); EvalSetNoDup(w, a, c); DistinctSize(EvalSet(w, a, c).nodes);
      case NonEmpty(a) => SetMeans(w, a, c); NoneIn(EvalSet(w, a, c).nodes);
      case Plus(l, r) => ExprMeans(w, l, c); ExprMeans(w, r, c);
      case Equal(l, r) => ExprMeans(w, l, c); ExprMeans(w, r, c);
      case Less(l, r) => ExprMeans(w, l, c); ExprMeans(w, r, c);
      case And(l, r) => ExprMeans(w, l, c); ExprMeans(w, r, c);
      case Or(l, r) => ExprMeans(w, l, c); ExprMeans(w, r, c);
      case Not(a) => ExprMeans(w, a, c);
      case _ =>
    }
  }

  lemma NoneIn(q: seq<XNode>)
    ensures q == [] <==> Elems(q) == {}
  {
    if q != [] { assert q[0] in Elems(q); }
  }

  /** The nodes that full evaluation yields for a parsed query are those that the query denotes. */
  lemma {:induction false} SetMeans(w: World, e: Expr, c: Ctx)
    requires Parsed(e) && InDoc(w.d, c.n) && TypeOf(e) == TSet
    ensures Elems(EvalSet(w, e, c).nodes) == SetMeaning(w, e, c)
    decreases e, 1
  {
    match e {
      case Root =>
      case Step(left, axis, test, ps) =>
        if left.Here? { StepMeans(w, axis, test, ps, c.n); } else { StepFromMeans(w, e, c); }
      case Filter(_, _) => FilterMeans(w, e, c);
      case Union(l, r) =>
        SetMeans(w, l, c);
        SetMeans(w, r, c);
        UnionSelects(w, l, r, c);
    }
  }

  lemma {:induction false} StepFromMeans(w: World, e: Expr, c: Ctx)
    requires e.Step? && e.left.From? && Parsed(e) && InDoc(w.d, c.n)
    ensures Elems(EvalSet(w, e, c).nodes) == SetMeaning(w, e, c)
    decreases e, 0
  {
    var left, srcs := e.left.e, EvalSet(w, e.left.e, c).nodes;
    SetMeans(w, left, c);
    forall x | x in srcs
      ensures Elems(StepOne(w, e.axis, e.test, e.preds, x)) == StepMeaning(w, e.axis, e.test, e.preds, x)
    {
      StepMeans(w, e.axis, e.test, e.preds, x);
    }
    forall y ensures y in EvalSet(w, e, c).nodes <==> y in SetMeaning(w, e, c) {
      StepSelects(w, left, e.axis, e.test, e.preds, c, y);
      if y in EvalSet(w, e, c).nodes {
        var x := SourceOf(w, e.axis, e.test, e.preds, srcs, y);
        assert x in SetMeaning(w, left, c) && y in StepMeaning(w, e.axis, e.test, e.preds, x);
      }
      if y in SetMeaning(w, e, c) {
        var x :| x in SetMeaning(w, left, c) && y in StepMeaning(w, e.axis, e.test, e.preds, x);
        assert x in srcs && y in Elems(StepOne(w, e.axis, e.test, e.preds, x));
        YieldedBy(w, e.axis, e.test, e.preds, srcs, x, y);
      }
    }
  }

  lemma {:induction false} FilterMeans(w: World, e: Expr, c: Ctx)
    requires e.Filter? && Parsed(e) && InDoc(w.d, c.n)
    ensures Elems(EvalSet(w, e, c).nodes) == SetMeaning(w, e, c)
    decreases e, 0
  {
    var s := EvalSet(w, e.arg, c).nodes;
    SetMeans(w, e.arg, c);
    SortedNodes(w.d, s);
    PredMeans(w, e.pred, SortDoc(w.d, s), Ascending);
  }

  lemma SortedNodes(d: Tree, s: seq<XNode>)
    requires AllIn(d, s)
    ensures AllIn(d, SortDoc(d, s)) && Arranged(SortDoc(d, s), Ascending) && Elems(SortDoc(d, s)) == Elems(s)
  {
    SortDocIs(d, s);
    SortIn(d, s);
    SortDocInOrder(d, s);
  }

  /** A union selects just what either side does. */
  lemma UnionSelects(w: World, l: Expr, r: Expr, c: Ctx)
    requires InDoc(w.d, c.n)
    ensures forall y :: y in EvalSet(w, Union(l, r), c).nodes <==>
                        y in EvalSet(w, l, c).nodes || y in EvalSet(w, r, c).nodes
  {
    DedupeElements(EvalSet(w, l, c).nodes + EvalSet(w, r, c).nodes);
  }

  /** A filter keeps the nodes of its argument of which its condition is true, at their places in document order. */
  lemma FilterSelects(w: World, a: Expr, p: Pred, c: Ctx, y: XNode)
    requires InDoc(w.d, c.n) && p.kind == Default && TypeOf(p.e) == TBool
    ensures var s := Elems(EvalSet(w, a, c).nodes);
            y in EvalSet(w, Filter(a, p), c).nodes <==>
              y in s && InDoc(w.d, y) && EvalBool(w, p.e, Ctx(y, Place(Ascending, s, y), |s|))
  {
    var s := EvalSet(w, a, c).nodes;
    SortedNodes(w.d, s);
    FilteredAt(w, p, SortDoc(w.d, s), y);
  }

  lemma FilteredAt(w: World, p: Pred, q: seq<XNode>, y: XNode)
    requires AllIn(w.d, q) && Arranged(q, Ascending) && p.kind == Default && TypeOf(p.e) == TBool
    ensures var s := Elems(q);
            y in ApplyPred(w, p, q) <==> y in s && InDoc(w.d, y) && EvalBool(w, p.e, Ctx(y, Place(Ascending, s, y), |s|))
  {
    SameSize(q, Ascending);
    PredIn(w, p, q, y);
    if y in q {
      var j: nat :| j < |q| && q[j] == y;
      PlaceIs(q, Ascending, j);
      OnlyPlace(q, j);
      assert Judged(w, p.e, q, j) <==> EvalBool(w, p.e, Ctx(y, Place(Ascending, Elems(q), y), |Elems(q)|));
    }
  }

  lemma OnlyPlace(q: seq<XNode>, j: nat)
    requires Arranged(q, Ascending) && j < |q|
    ensures forall k: nat :: k < |q| && q[k] == q[j] ==> k == j
  {
    ArrangedNoDup(q, Ascending);
  }

  /** The first node of a set in document order. */
  predicate FirstIn(nodes: set<XNode>, y: XNode) { y in nodes && forall z :: z in nodes ==> z == y || Ahead(y, z) }

  /**
    What pugixml computes for a parsed query, optimized and stopping early, is what the query denotes:
    its number, its truth, its nodes, the first of them in document order, and whether there are any.
   */
  lemma QueryMeans(w: World, e: Expr, c: Ctx)
    requires Parsed(e) && InDoc(w.d, c.n)
    ensures TypeOf(e) == TNum ==> FastNum(w, Optimize(e), c) == NumMeaning(w, e, c)
    ensures TypeOf(e) == TBool ==> FastBool(w, Optimize(e), c) == IsTrue(w, e, c)
    ensures TypeOf(e) == TSet ==> Elems(FastSet(w, Optimize(e), c, All).nodes) == SetMeaning(w, e, c)
    ensures TypeOf(e) == TSet ==>
              var first := FirstOf(w.d, FastSet(w, Optimize(e), c, First));
              if SetMeaning(w, e, c) == {} then first == []
              else |first| == 1 && FirstIn(SetMeaning(w, e, c), first[0])
  {
    QueryPreserved(w, e, c);
    if TypeOf(e) == TSet {
      SetMeans(w, e, c);
      FirstMeansLeast(w.d, EvalSet(w, e, c).nodes);
    } else {
      ExprMeans(w, e, c);
    }
  }

  lemma FirstMeansLeast(d: Tree, s: seq<XNode>)
    requires AllIn(d, s)
    ensures var first := Cut(SortDoc(d, s), true);
            if Elems(s) == {} then first == [] else |first| == 1 && FirstIn(Elems(s), first[0])
    ensures forall q: seq<XNode> :: SameNodes(q, s) ==> Elems(q) == Elems(s)
  {
    SortDocFirst(d, s);
    NoneIn(s);
  }

  /** Asked only whether there is any node, or for the first on an axis in document order, a step stops at one. */
  lemma EarlyStop(w: World, axis: Axis, test: Test, preds: Preds, c: Ctx, mode: Mode)
    requires Parsed(Step(Here, axis, test, preds)) && InDoc(w.d, c.n)
    requires mode == Any || (mode == First && AxisOrder(axis) == Ascending)
    ensures |FastSet(w, Optimize(Step(Here, axis, test, preds)), c, mode).nodes| <= 1
  {
    var e := Step(Here, axis, test, preds);
    OptimizedKinds(e);
    AgreeOne(w, axis, test, OptimizePreds(preds), c.n);
    OneCut(w, axis, test, OptimizePreds(preds), c.n, AxisOrder(axis), mode);
  }

  // ---------------------------------------------------------------------
  // Numbers
  // ---------------------------------------------------------------------

  /** Numbers but NaN are totally ordered, finite ones as reals between the infinities; NaN compares with nothing. */
  lemma NumberOrder(a: Number, b: Number)
    ensures a.Fin? && b.Fin? ==> (NumLess(a, b) <==> a.r < b.r) && (NumEq(a, b) <==> a.r == b.r)
    ensures a.NaN? || b.NaN? ==> !NumLess(a, b) && !NumEq(a, b)
    ensures !a.NaN? && !b.NaN? && a != b && (a == Inf(false) || b == Inf(true)) ==> NumLess(a, b) && !NumLess(b, a)
    ensures !a.NaN? && !b.NaN? ==> (NumEq(a, b) <==> a == b) && !NumLess(a, a)
  {
  }

  lemma NumberSums(a: Number, b: Number)
    ensures a.Fin? && b.Fin? ==> NumPlus(a, b) == Fin(a.r + b.r)
    ensures a.Inf? && (b.Fin? || b == a) ==> NumPlus(a, b) == NumPlus(b, a) == a
    ensures a.NaN? || b.NaN? || (a.Inf? && b.Inf? && a != b) ==> NumPlus(a, b) == NaN
  {
  }
}
