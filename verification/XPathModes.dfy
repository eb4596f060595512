/**
  Evaluation that stops early.  pugixml evaluates node sets in three modes: all nodes, enough to
  know the first in document order, or enough to know whether there is any (pugixml.cpp:9867-9870,
  10448-10493, 11124-11146).  This module models that evaluator and proves it against XPath.EvalSet.
 */
module XPathModes {
  import opened Collections
  import opened Documents
  import opened XPath
  import opened XPathRewrite
  import opened XPathPreserves

  datatype Mode = All | First | Any

  /** eval_once */
  predicate EvalOnce(order: SetType, mode: Mode) { if order == Ascending then mode != All else mode == Any }

  // ---------------------------------------------------------------------
  // The evaluator
  // ---------------------------------------------------------------------

  function FastNum(w: World, e: Expr, c: Ctx): Number
    requires InDoc(w.d, c.n)
    decreases e, 0
  {
    match e
    case Num(n) => n
    case Var(v) => if v in w.vars then w.vars[v] else NaN
    case Position => OfNat(c.pos)
    case Last => OfNat(c.size)
    case Count(a) => OfNat(|FastSet(w, a, c, All).nodes|)
    case Plus(l, r) => NumPlus(FastNum(w, l, c), FastNum(w, r, c))
    case _ => NaN
  }

  function FastBool(w: World, e: Expr, c: Ctx): bool
    requires InDoc(w.d, c.n)
    decreases e, 0
  {
    match e
    case Equal(l, r) => NumEq(FastNum(w, l, c), FastNum(w, r, c))
    case Less(l, r) => NumLess(FastNum(w, l, c), FastNum(w, r, c))
    case And(l, r) => FastBool(w, l, c) && FastBool(w, r, c)
    case Or(l, r) => FastBool(w, l, c) || FastBool(w, r, c)
    case Not(a) => !FastBool(w, a, c)
    case NonEmpty(a) => FastSet(w, a, c, Any).nodes != []
    case _ => false
  }

  function FastSet(w: World, e: Expr, c: Ctx, mode: Mode): (s: NodeSet)
    requires InDoc(w.d, c.n)
    ensures AllIn(w.d, s.nodes)
    decreases e, 0
  {
    match e
    case Root => NodeSet([Elem([])], Ascending)
    case Step(left, axis, test, preds) =>
      if left.Here? then NodeSet(FastOne(w, axis, test, preds, c.n, AxisOrder(axis), mode), AxisOrder(axis))
      else
        var s := FastSet(w, left.e, c, All);
        var ns := FastAll(w, axis, test, preds, s.nodes, Start(axis, s), mode);
        if axis != Child && axis != Attribute && axis != Self && ns.order == Unsorted
        then DedupeIn(w.d, ns.nodes); NodeSet(Dedupe(ns.nodes), Unsorted) else ns
    case Filter(a, pred) =>
      var s := FastSet(w, a, c, if pred.kind == ConstantOne then First else All);
      var nodes := if pred.kind == Posinv then s.nodes else SortDoc(w.d, s.nodes);
      var order := FilterOrder(pred, s);
      SortIn(w.d, s.nodes);
      NodeSet(FastPred(w, pred, nodes, EvalOnce(order, mode)), order)
    case Union(l, r) =>
      var ls, rs := FastSet(w, l, c, mode), FastSet(w, r, c, mode);
      DedupeIn(w.d, ls.nodes + rs.nodes);
      NodeSet(Dedupe(ls.nodes + rs.nodes), Unsorted)
    case _ => NodeSet([], Ascending)
  }

  function FastAll(
      w: World, axis: Axis, test: Test, preds: Preds, srcs: seq<XNode>, acc: NodeSet, mode: Mode): (s: NodeSet)
    requires AllIn(w.d, srcs) && AllIn(w.d, acc.nodes)
    ensures AllIn(w.d, s.nodes)
    decreases preds, 2, |srcs|
  {
    if srcs == [] then acc
    else
      assert forall x :: x in srcs[1..] ==> x in srcs;
      var order := StepOrder(axis, acc);
      var one := FastOne(w, axis, test, preds, srcs[0], order, mode);
      FastAll(w, axis, test, preds, srcs[1..], NodeSet(acc.nodes + one, order), mode)
  }

  function FastOne(
      w: World, axis: Axis, test: Test, preds: Preds, x: XNode, order: SetType, mode: Mode): (q: seq<XNode>)
    requires InDoc(w.d, x)
    ensures AllIn(w.d, q)
    decreases preds, 1
  {
    var once := StopsEarly(axis, test, preds) || (preds.Nil? && EvalOnce(AxisOrder(axis), mode));
    FillIn(w.d, axis, test, x, once);
    FastPreds(w, preds, Fill(w.d, axis, test, x, once), EvalOnce(order, mode))
  }

  function FastPreds(w: World, preds: Preds, nodes: seq<XNode>, lastOnce: bool): (q: seq<XNode>)
    requires AllIn(w.d, nodes)
    ensures AllIn(w.d, q)
    decreases preds, 0
  {
    if preds.Nil? then nodes
    else FastPreds(w, preds.next, FastPred(w, preds.p, nodes, preds.next.Nil? && lastOnce), lastOnce)
  }

  function FastPred(w: World, pred: Pred, nodes: seq<XNode>, once: bool): (q: seq<XNode>)
    requires AllIn(w.d, nodes)
    ensures AllIn(w.d, q)
    decreases pred, 0
  {
    if nodes == [] then []
    else if pred.kind == Constant || pred.kind == ConstantOne
    then Pick(nodes, FastNum(w, pred.e, Ctx(Elem([]), 1, |nodes|)))
    else if TypeOf(pred.e) == TNum then FastKeepNum(w, pred.e, nodes, 0, once)
    else FastKeepBool(w, pred.e, nodes, 0, once)
  }

  /** apply_predicate_boolean; with `once` it stops at the first node it keeps. */
  function FastKeepBool(w: World, e: Expr, nodes: seq<XNode>, i: nat, once: bool): (q: seq<XNode>)
    requires AllIn(w.d, nodes) && i <= |nodes|
    ensures AllIn(w.d, q)
    decreases e, 1, |nodes| - i
  {
    if i == |nodes| then []
    else if !FastBool(w, e, Ctx(nodes[i], i + 1, |nodes|)) then FastKeepBool(w, e, nodes, i + 1, once)
    else if once then [nodes[i]]
    else [nodes[i]] + FastKeepBool(w, e, nodes, i + 1, once)
  }

  function FastKeepNum(w: World, e: Expr, nodes: seq<XNode>, i: nat, once: bool): (q: seq<XNode>)
    requires AllIn(w.d, nodes) && i <= |nodes|
    ensures AllIn(w.d, q)
    decreases e, 1, |nodes| - i
  {
    if i == |nodes| then []
    else if !NumEq(FastNum(w, e, Ctx(nodes[i], i + 1, |nodes|)), OfNat(i + 1))
        then FastKeepNum(w, e, nodes, i + 1, once)
    else if once then [nodes[i]]
    else [nodes[i]] + FastKeepNum(w, e, nodes, i + 1, once)
  }

  // ---------------------------------------------------------------------
  // Document order of nodes and attributes
  // ---------------------------------------------------------------------

  /** Elements in document order, each followed by its attributes. */
  predicate Ahead(x: XNode, y: XNode) {
    Before(x.p, y.p) || (x.p == y.p && y.Attr? && (x.Elem? || x.a < y.a))
  }

  /** x may come before y in a set of this type. */
  predicate Comes(order: SetType, x: XNode, y: XNode) {
    match order
    case Unsorted => true
    case Ascending => Ahead(x, y)
    case Descending => Ahead(y, x)
  }

  /** What the type of a node set says of it. */
  predicate Arranged(q: seq<XNode>, order: SetType) { forall i, j :: 0 <= i < j < |q| ==> Comes(order, q[i], q[j]) }

  predicate InOrder(q: seq<XNode>) { Arranged(q, Ascending) }

  lemma AheadStrict(x: XNode, y: XNode)
    ensures !Ahead(x, x) && !(Ahead(x, y) && Ahead(y, x))
  {
    BeforeTotal(x.p, y.p);
    BeforeTotal(x.p, x.p);
  }

  lemma ArrangedNoDup(q: seq<XNode>, order: SetType)
    requires Arranged(q, order) && order != Unsorted
    ensures NoDup(q)
  {
    forall i, j | 0 <= i < j < |q| ensures q[i] != q[j] {
      assert Comes(order, q[i], q[j]);
      AheadStrict(q[i], q[j]);
    }
  }

  lemma ArrangedConcat(a: seq<XNode>, b: seq<XNode>, order: SetType)
    requires Arranged(a, order) && Arranged(b, order) && forall x, y :: x in a && y in b ==> Comes(order, x, y)
    ensures Arranged(a + b, order)
  {
    forall i, j | 0 <= i < j < |a + b| ensures Comes(order, (a + b)[i], (a + b)[j]) {
      if i < |a| <= j { assert a[i] in a && b[j - |a|] in b; }
    }
  }

  lemma ArrangedTail(q: seq<XNode>, i: nat, order: SetType)
    requires Arranged(q, order) && i < |q|
    ensures Arranged(q[i + 1..], order) && forall y :: y in q[i + 1..] ==> Comes(order, q[i], y)
  {
    forall y | y in q[i + 1..] ensures Comes(order, q[i], y) {
      var j :| 0 <= j < |q[i + 1..]| && q[i + 1..][j] == y;
      assert y == q[i + 1 + j];
    }
  }

  lemma {:induction false} BeforeUnder(p: Path, a: Path, b: Path)
    ensures Before(p + a, p + b) <==> Before(a, b)
    decreases |p|
  {
    if p == [] {
      assert p + a == a && p + b == b;
    } else {
      BeforeUnder(p[1..], a, b);
      assert (p + a)[1..] == p[1..] + a && (p + b)[1..] == p[1..] + b;
    }
  }

  lemma ElemsUnderInOrder(p: Path, qs: seq<Path>)
    requires Ordered(qs)
    ensures InOrder(ElemsUnder(p, qs))
  {
    var r := ElemsUnder(p, qs);
    forall i, j | 0 <= i < j < |r| ensures Ahead(r[i], r[j]) { BeforeUnder(p, qs[i], qs[j]); }
  }

  lemma ChildrenArranged(d: Tree, x: XNode)
    requires InDoc(d, x) && x.Elem?
    ensures InOrder(AxisNodes(d, Child, x))
  {
    var ns := AxisNodes(d, Child, x);
    forall i: nat, j: nat | i < j < |ns| ensures Ahead(ns[i], ns[j]) { BeforeUnder(x.p, [i], [j]); }
  }

  lemma NearArranged(d: Tree, x: XNode)
    requires InDoc(d, x) && x.Elem?
    ensures InOrder(AxisNodes(d, Self, x)) && InOrder(AxisNodes(d, Attribute, x)) && InOrder(AxisNodes(d, Parent, x))
  {
  }

  lemma BelowArranged(d: Tree, x: XNode)
    requires InDoc(d, x) && x.Elem?
    ensures InOrder(AxisNodes(d, Descendant, x)) && InOrder(AxisNodes(d, DescendantOrSelf, x))
  {
    var ps := Preorder(At(d, x.p));
    PreorderOrdered(At(d, x.p));
    ElemsUnderInOrder(x.p, ps[1..]);
    ElemsUnderInOrder(x.p, ps);
  }

  /** Every axis lists its nodes in the order that step_do takes it to have. */
  lemma AxisArranged(d: Tree, axis: Axis, x: XNode)
    requires InDoc(d, x)
    ensures Arranged(AxisNodes(d, axis, x), AxisOrder(axis))
  {
    if x.Attr? {
      AttributeArranged(d, axis, x);
    } else if axis == Child {
      ChildrenArranged(d, x);
    } else if axis == Descendant || axis == DescendantOrSelf {
      BelowArranged(d, x);
    } else if axis == Self || axis == Attribute || axis == Parent {
      NearArranged(d, x);
    } else {
      AroundArranged(d, axis, x.p);
    }
  }

  lemma OrderedElems(qs: seq<Path>)
    requires Ordered(qs)
    ensures Arranged(AsElems(qs), Ascending) && Arranged(AsElems(Backwards(qs)), Descending)
  {
    var r := AsElems(Backwards(qs));
    forall i, j | 0 <= i < j < |r| ensures Ahead(r[j], r[i]) { assert Before(qs[|qs| - 1 - j], qs[|qs| - 1 - i]); }
  }

  lemma WhereInOrder(d: Tree, keep: Path -> bool)
    ensures Ordered(Where(Preorder(d), keep))
  {
    PreorderOrdered(d);
    WhereOrdered(Preorder(d), keep);
  }

  lemma AboveArranged(p: Path)
    ensures Arranged(AsElems(Above(p)), Descending) && Arranged([Elem(p)] + AsElems(Above(p)), Descending)
  {
    var r := [Elem(p)] + AsElems(Above(p));
    assert p[..|p|] == p;
    assert forall i :: 0 <= i < |r| ==> r[i] == Elem(p[..|p| - i]);
    forall i, j | 0 <= i < j < |r| ensures Ahead(r[j], r[i]) {
      assert r[j].p == r[i].p[..|p| - j];
      AncestorFirst(r[j].p, r[i].p);
    }
    assert AsElems(Above(p)) == r[1..];
    ArrangedTail(r, 0, Descending);
  }

  lemma {:induction false} AncestorFirst(p: Path, q: Path)
    requires IsPrefix(p, q) && p != q
    ensures Before(p, q)
    decreases |p|
  {
    if p != [] {
      assert q[..|p|][1..] == q[1..][..|p| - 1];
      AncestorFirst(p[1..], q[1..]);
      assert p == [p[0]] + p[1..];
    } else {
      assert q != [];
    }
  }

  lemma SiblingBefore(p: Path, q: Path)
    requires |p| == |q| > 0 && p[..|p| - 1] == q[..|q| - 1] && p[|p| - 1] < q[|q| - 1]
    ensures Before(p, q)
  {
    assert p == p[..|p| - 1] + [p[|p| - 1]] && q == p[..|p| - 1] + [q[|q| - 1]];
    BeforeUnder(p[..|p| - 1], [p[|p| - 1]], [q[|q| - 1]]);
  }

  lemma NextSiblingsArranged(d: Tree, p: Path)
    requires Has(d, p) && p != []
    ensures Arranged(AsElems(NextSiblings(d, p)), Ascending)
  {
    NextSiblingsAre(d, p);
    var qs := NextSiblings(d, p);
    forall i, j | 0 <= i < j < |qs| ensures Before(qs[i], qs[j]) { SiblingBefore(qs[i], qs[j]); }
  }

  lemma PreviousSiblingsArranged(p: Path)
    requires p != []
    ensures Arranged(AsElems(PreviousSiblings(p)), Descending)
  {
    PreviousSiblingsAre(p);
    var qs := PreviousSiblings(p);
    forall i, j | 0 <= i < j < |qs| ensures Before(qs[j], qs[i]) { SiblingBefore(qs[j], qs[i]); }
  }

  lemma BesideArranged(d: Tree, p: Path)
    ensures Arranged(AsElems(NodesAfter(d, p)), Ascending)
    ensures Arranged(AsElems(Where(Preorder(d), q => Before(p, q))), Ascending)
    ensures Arranged(AsElems(Backwards(NodesBefore(d, p))), Descending)
  {
    WhereInOrder(d, q => Before(p, q) && !IsPrefix(p, q));
    OrderedElems(NodesAfter(d, p));
    WhereInOrder(d, q => Before(p, q));
    OrderedElems(Where(Preorder(d), q => Before(p, q)));
    WhereInOrder(d, q => Before(q, p) && !IsPrefix(q, p));
    OrderedElems(NodesBefore(d, p));
  }

  lemma AroundArranged(d: Tree, axis: Axis, p: Path)
    requires Has(d, p)
    ensures Arranged(AroundAxis(d, axis, p), AxisOrder(axis))
  {
    match axis {
      case Following => BesideArranged(d, p);
      case Preceding => BesideArranged(d, p);
      case FollowingSibling => if p != [] { NextSiblingsArranged(d, p); }
      case PrecedingSibling => if p != [] { PreviousSiblingsArranged(p); }
      case Ancestor => AboveArranged(p);
      case AncestorOrSelf => AboveArranged(p);
      case _ =>
    }
  }

  /** From an attribute up: it comes after its element and all above. */
  lemma AttributeAboveArranged(x: XNode)
    requires x.Attr?
    ensures Arranged([Elem(x.p)] + AsElems(Above(x.p)), Descending)
    ensures Arranged([x, Elem(x.p)] + AsElems(Above(x.p)), Descending)
  {
    AboveArranged(x.p);
    var up := [Elem(x.p)] + AsElems(Above(x.p));
    forall y | y in up ensures Ahead(y, x) {
      if y != Elem(x.p) {
        var i :| 0 <= i < |up| && up[i] == y;
        assert Comes(Descending, up[0], up[i]);
      }
    }
    ArrangedConcat([x], up, Descending);
    assert [x] + up == [x, Elem(x.p)] + AsElems(Above(x.p));
  }

  lemma AttributeArranged(d: Tree, axis: Axis, x: XNode)
    requires x.Attr?
    ensures Arranged(AttributeAxis(d, axis, x), AxisOrder(axis))
  {
    match axis {
      case Following => BesideArranged(d, x.p);
      case Preceding => BesideArranged(d, x.p);
      case Ancestor => AttributeAboveArranged(x);
      case AncestorOrSelf => AttributeAboveArranged(x);
      case _ =>
    }
  }

  lemma {:induction false} SelectArranged(d: Tree, axis: Axis, test: Test, x: XNode, ys: seq<XNode>, order: SetType)
    requires Arranged(ys, order)
    ensures Arranged(Select(d, axis, test, x, ys), order)
  {
    if ys != [] {
      ArrangedTail(ys, 0, order);
      SelectArranged(d, axis, test, x, ys[1..], order);
      var head := if Takes(d, axis, test, ys[0]) then [ys[0]] else [];
      var rest := Select(d, axis, test, x, ys[1..]);
      forall a, b | a in head && b in rest ensures Comes(order, a, b) { SelectIn(d, axis, test, x, ys[1..], b); }
      ArrangedConcat(head, rest, order);
    }
  }

  lemma {:induction false} AmongInOrder(all: seq<XNode>, q: seq<XNode>)
    requires InOrder(all)
    ensures InOrder(Among(all, q))
  {
    if all != [] {
      ArrangedTail(all, 0, Ascending);
      AmongInOrder(all[1..], q);
      var head := if all[0] in q then [all[0]] else [];
      forall a, b | a in head && b in Among(all[1..], q) ensures Ahead(a, b) { AmongIn(all[1..], q, b); }
      ArrangedConcat(head, Among(all[1..], q), Ascending);
    }
  }

  lemma {:induction false} FlattenInOrder(d: Tree, ps: seq<Path>)
    requires (forall p :: p in ps ==> Has(d, p)) && Ordered(ps)
    ensures InOrder(Flatten(d, ps))
  {
    if ps != [] {
      FlattenInOrder(d, ps[1..]);
      forall x, y | x in WithAttrs(d, ps[0]) && y in Flatten(d, ps[1..]) ensures Ahead(x, y) {
        FlattenIn(d, ps[1..], y);
        var j :| 0 <= j < |ps[1..]| && ps[1..][j] == y.p;
        assert Before(ps[0], ps[j + 1]);
      }
      ArrangedConcat(WithAttrs(d, ps[0]), Flatten(d, ps[1..]), Ascending);
    }
  }

  lemma SortDocInOrder(d: Tree, q: seq<XNode>)
    ensures InOrder(SortDoc(d, q))
  {
    PreorderOrdered(d);
    forall p | p in Preorder(d) ensures Has(d, p) { PreorderHas(d, p); }
    FlattenInOrder(d, Preorder(d));
    AmongInOrder(AllNodes(d), q);
  }

  // ---------------------------------------------------------------------
  // Predicates keep document order
  // ---------------------------------------------------------------------

  lemma {:induction false} KeepBoolArranged(w: World, e: Expr, nodes: seq<XNode>, i: nat, order: SetType)
    requires AllIn(w.d, nodes) && i <= |nodes| && Arranged(nodes, order)
    ensures Arranged(KeepBool(w, e, nodes, i), order)
    decreases |nodes| - i
  {
    if i < |nodes| {
      KeepBoolArranged(w, e, nodes, i + 1, order);
      KeepBoolFrom(w, e, nodes, i + 1);
      ArrangedTail(nodes, i, order);
      ArrangedConcat([nodes[i]], KeepBool(w, e, nodes, i + 1), order);
    }
  }

  lemma {:induction false} KeepNumArranged(w: World, e: Expr, nodes: seq<XNode>, i: nat, order: SetType)
    requires AllIn(w.d, nodes) && i <= |nodes| && Arranged(nodes, order)
    ensures Arranged(KeepNum(w, e, nodes, i), order)
    decreases |nodes| - i
  {
    if i < |nodes| {
      KeepNumArranged(w, e, nodes, i + 1, order);
      KeepNumFrom(w, e, nodes, i + 1);
      ArrangedTail(nodes, i, order);
      ArrangedConcat([nodes[i]], KeepNum(w, e, nodes, i + 1), order);
    }
  }

  lemma ApplyPredArranged(w: World, p: Pred, nodes: seq<XNode>, order: SetType)
    requires AllIn(w.d, nodes) && Arranged(nodes, order)
    ensures Arranged(ApplyPred(w, p, nodes), order)
  {
    KeepBoolArranged(w, p.e, nodes, 0, order);
    KeepNumArranged(w, p.e, nodes, 0, order);
  }

  lemma {:induction false} ApplyPredsArranged(w: World, ps: Preds, nodes: seq<XNode>, order: SetType)
    requires AllIn(w.d, nodes) && Arranged(nodes, order)
    ensures Arranged(ApplyPreds(w, ps, nodes), order)
    decreases ps
  {
    if ps.Cons? {
      ApplyPredArranged(w, ps.p, nodes, order);
      ApplyPredsArranged(w, ps.next, ApplyPred(w, ps.p, nodes), order);
    }
  }

  lemma StepOneArranged(w: World, axis: Axis, test: Test, ps: Preds, x: XNode)
    requires InDoc(w.d, x)
    ensures Arranged(StepOne(w, axis, test, ps, x), AxisOrder(axis))
  {
    var once := StopsEarly(axis, test, ps);
    AxisArranged(w.d, axis, x);
    SelectArranged(w.d, axis, test, x, AxisNodes(w.d, axis, x), AxisOrder(axis));
    FillIn(w.d, axis, test, x, once);
    ApplyPredsArranged(w, ps, Fill(w.d, axis, test, x, once), AxisOrder(axis));
  }

  // ---------------------------------------------------------------------
  // Stopping early is taking the head
  // ---------------------------------------------------------------------

  function Cut(q: seq<XNode>, once: bool): seq<XNode> { if once && q != [] then q[..1] else q }

  lemma CutCons(x: XNode, q: seq<XNode>, once: bool)
    ensures Cut([x] + q, once) == if once then [x] else [x] + q
    ensures Cut([] + q, once) == Cut(q, once) && [] + q == q
  {
    assert ([x] + q)[..1] == [x];
  }

  predicate BoolAgrees(w: World, e: Expr, nodes: seq<XNode>, j: nat)
    requires AllIn(w.d, nodes) && j < |nodes|
  {
    var c := Ctx(nodes[j], j + 1, |nodes|); FastBool(w, e, c) == EvalBool(w, e, c)
  }

  predicate NumAgrees(w: World, e: Expr, nodes: seq<XNode>, j: nat)
    requires AllIn(w.d, nodes) && j < |nodes|
  {
    var c := Ctx(nodes[j], j + 1, |nodes|); FastNum(w, e, c) == EvalNum(w, e, c)
  }

  lemma {:induction false} KeepBoolCuts(w: World, e: Expr, nodes: seq<XNode>, i: nat, once: bool)
    requires AllIn(w.d, nodes) && i <= |nodes| && forall j: nat :: i <= j < |nodes| ==> BoolAgrees(w, e, nodes, j)
    ensures FastKeepBool(w, e, nodes, i, once) == Cut(KeepBool(w, e, nodes, i), once)
    decreases |nodes| - i
  {
    if i < |nodes| {
      var keep, rest := EvalBool(w, e, Ctx(nodes[i], i + 1, |nodes|)), KeepBool(w, e, nodes, i + 1);
      assert BoolAgrees(w, e, nodes, i);
      assert KeepBool(w, e, nodes, i) == (if keep then [nodes[i]] else []) + rest;
      KeepBoolCuts(w, e, nodes, i + 1, once);
      CutCons(nodes[i], rest, once);
    }
  }

  lemma {:induction false} KeepNumCuts(w: World, e: Expr, nodes: seq<XNode>, i: nat, once: bool)
    requires AllIn(w.d, nodes) && i <= |nodes| && forall j: nat :: i <= j < |nodes| ==> NumAgrees(w, e, nodes, j)
    ensures FastKeepNum(w, e, nodes, i, once) == Cut(KeepNum(w, e, nodes, i), once)
    decreases |nodes| - i
  {
    if i < |nodes| {
      var keep, rest := NumEq(EvalNum(w, e, Ctx(nodes[i], i + 1, |nodes|)), OfNat(i + 1)), KeepNum(w, e, nodes, i + 1);
      assert NumAgrees(w, e, nodes, i);
      assert KeepNum(w, e, nodes, i) == (if keep then [nodes[i]] else []) + rest;
      KeepNumCuts(w, e, nodes, i + 1, once);
      CutCons(nodes[i], rest, once);
    }
  }

  // ---------------------------------------------------------------------
  // What early results say about full ones
  // ---------------------------------------------------------------------

  /** Every node of `full` is in r or behind a node of r. */
  ghost predicate Covers(r: seq<XNode>, full: seq<XNode>) {
    forall y :: y in full ==> exists z :: z in r && (z == y || Ahead(z, y))
  }

  ghost predicate Within(r: seq<XNode>, full: seq<XNode>) { forall z :: z in r ==> z in full }

  /** Same first node in document order. */
  ghost predicate Abridges(r: seq<XNode>, full: seq<XNode>) { Within(r, full) && Covers(r, full) }

  lemma CutAbridges(q: seq<XNode>, once: bool)
    requires once ==> InOrder(q)
    ensures Abridges(Cut(q, once), q)
  {
    if once && q != [] {
      forall y | y in q ensures q[0] in Cut(q, once) && (q[0] == y || Ahead(q[0], y)) {
        var j :| 0 <= j < |q| && q[j] == y;
      }
    }
  }

  lemma AbridgesSelf(q: seq<XNode>)
    ensures Abridges(q, q)
  {
  }

  /** The first in document order of q, if q has any node. */
  ghost predicate IsFirst(q: seq<XNode>, x: XNode) { x in q && forall y :: y in q ==> x == y || Ahead(x, y) }

  lemma SortDocFirst(d: Tree, q: seq<XNode>)
    requires AllIn(d, q)
    ensures q == [] <==> SortDoc(d, q) == []
    ensures q != [] ==> IsFirst(q, SortDoc(d, q)[0])
  {
    SortDocIs(d, q);
    SortDocInOrder(d, q);
    var s := SortDoc(d, q);
    if q != [] { assert q[0] in s; }
    if s != [] {
      assert s[0] in q;
      forall y | y in q ensures s[0] == y || Ahead(s[0], y) { var j :| 0 <= j < |s| && s[j] == y; }
    }
  }

  lemma SameFirst(d: Tree, r: seq<XNode>, full: seq<XNode>)
    requires AllIn(d, full) && AllIn(d, r) && Abridges(r, full)
    ensures r == [] <==> full == []
    ensures Cut(SortDoc(d, r), true) == Cut(SortDoc(d, full), true)
  {
    SortDocFirst(d, r);
    SortDocFirst(d, full);
    if full != [] {
      assert full[0] in full;
      var a, b := SortDoc(d, r)[0], SortDoc(d, full)[0];
      assert a in full && b in full;
      var z :| z in r && (z == b || Ahead(z, b));
      AheadStrict(b, z);
      AheadStrict(a, b);
    }
  }

  // ---------------------------------------------------------------------
  // Steps over many nodes
  // ---------------------------------------------------------------------

  predicate Cuts(axis: Axis, ps: Preds, order: SetType, mode: Mode) {
    EvalOnce(if ps.Nil? then AxisOrder(axis) else order, mode)
  }

  predicate OneSame(w: World, axis: Axis, test: Test, ps: Preds, x: XNode, order: SetType, mode: Mode)
    requires InDoc(w.d, x)
  {
    FastOne(w, axis, test, ps, x, order, mode) == Cut(StepOne(w, axis, test, ps, x), Cuts(axis, ps, order, mode))
  }

  /** One node's step agrees for every flag and mode. */
  ghost predicate OneAgrees(w: World, axis: Axis, test: Test, ps: Preds, x: XNode) {
    InDoc(w.d, x) && forall order, mode :: OneSame(w, axis, test, ps, x, order, mode)
  }

  /** The order that is known while a step goes on. */
  predicate StepFits(axis: Axis, order: SetType) { axis == Self || order == Unsorted || order == AxisOrder(axis) }

  lemma OneIs(w: World, axis: Axis, test: Test, ps: Preds, x: XNode, order: SetType, mode: Mode)
    requires OneAgrees(w, axis, test, ps, x) && StepFits(axis, order)
    ensures var q, full := FastOne(w, axis, test, ps, x, order, mode), StepOne(w, axis, test, ps, x);
            && Arranged(q, AxisOrder(axis)) && Within(q, full) && (full != [] ==> q != [])
            && (mode != Any ==> Abridges(q, full))
  {
    StepOneArranged(w, axis, test, ps, x);
    OneCut(w, axis, test, ps, x, order, mode);
    CutIs(axis, ps, StepOne(w, axis, test, ps, x), order, mode);
  }

  lemma OneCut(w: World, axis: Axis, test: Test, ps: Preds, x: XNode, order: SetType, mode: Mode)
    requires OneAgrees(w, axis, test, ps, x)
    ensures FastOne(w, axis, test, ps, x, order, mode) ==
            Cut(StepOne(w, axis, test, ps, x), Cuts(axis, ps, order, mode))
  {
    assert OneSame(w, axis, test, ps, x, order, mode);
  }

  lemma CutIs(axis: Axis, ps: Preds, full: seq<XNode>, order: SetType, mode: Mode)
    requires Arranged(full, AxisOrder(axis)) && StepFits(axis, order)
    ensures var q := Cut(full, Cuts(axis, ps, order, mode));
            && Arranged(q, AxisOrder(axis)) && Within(q, full) && (full != [] ==> q != [])
            && (mode != Any ==> Abridges(q, full))
  {
    CutArranged(full, Cuts(axis, ps, order, mode), AxisOrder(axis));
    if mode != Any {
      CutsAscending(axis, ps, order, mode);
      CutAbridges(full, Cuts(axis, ps, order, mode));
    }
  }

  lemma CutArranged(q: seq<XNode>, once: bool, order: SetType)
    requires Arranged(q, order)
    ensures Arranged(Cut(q, once), order) && Within(Cut(q, once), q) && (q != [] ==> Cut(q, once) != [])
  {
  }

  /** Only an ascending step is cut for the sake of its first node. */
  lemma CutsAscending(axis: Axis, ps: Preds, order: SetType, mode: Mode)
    requires StepFits(axis, order) && mode != Any
    ensures Cuts(axis, ps, order, mode) ==> AxisOrder(axis) == Ascending
  {
  }

  lemma {:induction false} FastAllIsStepAll(w: World, axis: Axis, test: Test, ps: Preds, srcs: seq<XNode>, acc: NodeSet)
    requires AllIn(w.d, srcs) && AllIn(w.d, acc.nodes) && forall x :: x in srcs ==> OneAgrees(w, axis, test, ps, x)
    ensures FastAll(w, axis, test, ps, srcs, acc, All) == StepAll(w, axis, test, ps, srcs, acc)
    decreases |srcs|
  {
    if srcs != [] {
      assert OneAgrees(w, axis, test, ps, srcs[0]);
      assert forall x :: x in srcs[1..] ==> x in srcs;
      var order := StepOrder(axis, acc);
      assert OneSame(w, axis, test, ps, srcs[0], order, All);
      FastAllIsStepAll(w, axis, test, ps, srcs[1..], NodeSet(acc.nodes + StepOne(w, axis, test, ps, srcs[0]), order));
    }
  }

  lemma {:induction false} FastAllWithin(
      w: World, axis: Axis, test: Test, ps: Preds, srcs: seq<XNode>, acc: NodeSet, mode: Mode, y: XNode)
    requires AllIn(w.d, srcs) && AllIn(w.d, acc.nodes) && forall x :: x in srcs ==> OneAgrees(w, axis, test, ps, x)
    requires y in FastAll(w, axis, test, ps, srcs, acc, mode).nodes
    ensures y in acc.nodes || Yields(w, axis, test, ps, srcs, y)
    decreases |srcs|
  {
    if srcs != [] {
      assert OneAgrees(w, axis, test, ps, srcs[0]);
      assert forall x :: x in srcs[1..] ==> x in srcs;
      var order := StepOrder(axis, acc);
      var one := FastOne(w, axis, test, ps, srcs[0], order, mode);
      assert OneSame(w, axis, test, ps, srcs[0], order, mode);
      FastAllWithin(w, axis, test, ps, srcs[1..], NodeSet(acc.nodes + one, order), mode, y);
      YieldsCons(w, axis, test, ps, srcs, y);
    }
  }

  lemma {:induction false} FastAllKeeps(
      w: World, axis: Axis, test: Test, ps: Preds, srcs: seq<XNode>, acc: NodeSet, mode: Mode, y: XNode)
    requires AllIn(w.d, srcs) && AllIn(w.d, acc.nodes) && y in acc.nodes
    ensures y in FastAll(w, axis, test, ps, srcs, acc, mode).nodes
    decreases |srcs|
  {
    if srcs != [] {
      assert forall x :: x in srcs[1..] ==> x in srcs;
      var order := StepOrder(axis, acc);
      var one := FastOne(w, axis, test, ps, srcs[0], order, mode);
      FastAllKeeps(w, axis, test, ps, srcs[1..], NodeSet(acc.nodes + one, order), mode, y);
    }
  }

  /** Whatever a source yields, the result has it or something ahead of it; or, in mode Any, it has something. */
  lemma {:induction false} FastAllCovers(
      w: World, axis: Axis, test: Test, ps: Preds, srcs: seq<XNode>, acc: NodeSet, mode: Mode, y: XNode)
    returns (z: XNode)
    requires AllIn(w.d, srcs) && AllIn(w.d, acc.nodes) && Yields(w, axis, test, ps, srcs, y)
    requires (forall x :: x in srcs ==> OneAgrees(w, axis, test, ps, x)) && StepFits(axis, acc.order)
    ensures z in FastAll(w, axis, test, ps, srcs, acc, mode).nodes && (mode == Any || z == y || Ahead(z, y))
    decreases |srcs|
  {
    assert srcs != [];
    assert forall x :: x in srcs[1..] ==> x in srcs;
    var order := StepOrder(axis, acc);
    var one := FastOne(w, axis, test, ps, srcs[0], order, mode);
    var acc' := NodeSet(acc.nodes + one, order);
    YieldsCons(w, axis, test, ps, srcs, y);
    if y in StepOne(w, axis, test, ps, srcs[0]) {
      z := CoveredBy(w, axis, test, ps, srcs[0], order, mode, y);
      FastAllKeeps(w, axis, test, ps, srcs[1..], acc', mode, z);
    } else {
      z := FastAllCovers(w, axis, test, ps, srcs[1..], acc', mode, y);
    }
  }

  lemma CoveredBy(
      w: World, axis: Axis, test: Test, ps: Preds, x: XNode, order: SetType, mode: Mode, y: XNode)
      returns (z: XNode)
    requires OneAgrees(w, axis, test, ps, x) && StepFits(axis, order) && y in StepOne(w, axis, test, ps, x)
    ensures z in FastOne(w, axis, test, ps, x, order, mode) && (mode == Any || z == y || Ahead(z, y))
  {
    OneIs(w, axis, test, ps, x, order, mode);
    var q := FastOne(w, axis, test, ps, x, order, mode);
    if mode == Any { z := q[0]; } else { z :| z in q && (z == y || Ahead(z, y)); }
  }

  /** While the set counts as sorted, either way, one source has supplied all of it. */
  lemma {:induction false} FastAllSorted(
      w: World, axis: Axis, test: Test, ps: Preds, srcs: seq<XNode>, acc: NodeSet, mode: Mode)
    requires AllIn(w.d, srcs) && AllIn(w.d, acc.nodes) && axis != Self
    requires Arranged(acc.nodes, acc.order) && StepFits(axis, acc.order)
    requires forall x :: x in srcs ==> OneAgrees(w, axis, test, ps, x)
    ensures var s := FastAll(w, axis, test, ps, srcs, acc, mode); Arranged(s.nodes, s.order)
    decreases |srcs|
  {
    if srcs != [] {
      assert forall x :: x in srcs[1..] ==> x in srcs;
      var order := StepOrder(axis, acc);
      var one := FastOne(w, axis, test, ps, srcs[0], order, mode);
      var acc' := NodeSet(acc.nodes + one, order);
      if order != Unsorted {
        OneIs(w, axis, test, ps, srcs[0], order, mode);
        assert [] + one == one;
      }
      FastAllSorted(w, axis, test, ps, srcs[1..], acc', mode);
    }
  }

  /** The self axis picks nodes from its source in their order. */
  lemma {:induction false} FastAllSelf(w: World, test: Test, ps: Preds, srcs: seq<XNode>, acc: NodeSet, mode: Mode)
    requires AllIn(w.d, srcs) && AllIn(w.d, acc.nodes) && Arranged(acc.nodes + srcs, acc.order)
    requires forall x :: x in srcs ==> OneAgrees(w, Self, test, ps, x)
    ensures var s := FastAll(w, Self, test, ps, srcs, acc, mode); Arranged(s.nodes, s.order)
    decreases |srcs|
  {
    if srcs == [] {
      assert acc.nodes + srcs == acc.nodes;
    } else {
      assert forall y :: y in srcs[1..] ==> y in srcs;
      var one := FastOne(w, Self, test, ps, srcs[0], acc.order, mode);
      SelfOne(w, test, ps, srcs[0], acc.order, mode);
      DropFirst(acc.nodes, srcs, one, acc.order);
      FastAllSelf(w, test, ps, srcs[1..], NodeSet(acc.nodes + one, acc.order), mode);
    }
  }

  lemma SelfOne(w: World, test: Test, ps: Preds, x: XNode, order: SetType, mode: Mode)
    requires OneAgrees(w, Self, test, ps, x)
    ensures var q := FastOne(w, Self, test, ps, x, order, mode); q == [] || q == [x]
  {
    assert OneSame(w, Self, test, ps, x, order, mode);
    StepOneSub(w, Self, test, ps, x);
    AllSame(StepOne(w, Self, test, ps, x), x);
  }

  lemma AllSame(q: seq<XNode>, x: XNode)
    requires NoDup(q) && forall y :: y in q ==> y == x
    ensures q == [] || q == [x]
  {
    DistinctSize(q);
    if q != [] {
      assert q[0] in q;
      assert Elems(q) == {x};
    }
  }

  lemma DropFirst(a: seq<XNode>, b: seq<XNode>, one: seq<XNode>, order: SetType)
    requires b != [] && Arranged(a + b, order) && (one == [] || one == [b[0]])
    ensures Arranged(a + one + b[1..], order)
  {
    assert a + b == a + [b[0]] + b[1..];
    DropOne(a, b[0], b[1..], one, order);
  }

  lemma DropOne(a: seq<XNode>, x: XNode, b: seq<XNode>, one: seq<XNode>, order: SetType)
    requires Arranged(a + [x] + b, order) && (one == [] || one == [x])
    ensures Arranged(a + one + b, order)
  {
    if one == [] {
      var s, r := a + [x] + b, a + one + b;
      forall i, j | 0 <= i < j < |r| ensures Comes(order, r[i], r[j]) {
        var i', j' := if i < |a| then i else i + 1, if j < |a| then j else j + 1;
        assert r[i] == s[i'] && r[j] == s[j'];
      }
    }
  }

  // ---------------------------------------------------------------------
  // The evaluators agree
  // ---------------------------------------------------------------------

  /** Only [1] is classified as the constant one; everywhere inside e. */
  predicate Kinds(e: Expr) {
    match e
    case Count(a) => Kinds(a)
    case Plus(l, r) => Kinds(l) && Kinds(r)
    case Equal(l, r) => Kinds(l) && Kinds(r)
    case Less(l, r) => Kinds(l) && Kinds(r)
    case And(l, r) => Kinds(l) && Kinds(r)
    case Or(l, r) => Kinds(l) && Kinds(r)
    case Not(a) => Kinds(a)
    case NonEmpty(a) => Kinds(a)
    case Step(left, _, _, preds) => (left.From? ==> Kinds(left.e)) && KindsPreds(preds)
    case Filter(a, p) => Kinds(a) && KindOk(p) && Kinds(p.e)
    case Union(l, r) => Kinds(l) && Kinds(r)
    case _ => true
  }

  predicate KindOk(p: Pred) { p.kind == ConstantOne ==> p.e == Num(Fin(1.0)) }

  predicate KindsPreds(ps: Preds) { ps.Cons? ==> KindOk(ps.p) && Kinds(ps.p.e) && KindsPreds(ps.next) }

  ghost predicate ValuesAgree(w: World, e: Expr, c: Ctx)
    requires InDoc(w.d, c.n)
  {
    FastNum(w, e, c) == EvalNum(w, e, c) && FastBool(w, e, c) == EvalBool(w, e, c)
  }

  /** All nodes; the first; whether there is any; and the type of the set says the truth. */
  ghost predicate SetsAgree(w: World, e: Expr, c: Ctx)
    requires InDoc(w.d, c.n)
  {
    var full := EvalSet(w, e, c).nodes;
    && FastSet(w, e, c, All) == EvalSet(w, e, c)
    && Abridges(FastSet(w, e, c, First).nodes, full)
    && Within(FastSet(w, e, c, Any).nodes, full) && (full != [] ==> FastSet(w, e, c, Any).nodes != [])
    && (forall mode :: Arranged(FastSet(w, e, c, mode).nodes, FastSet(w, e, c, mode).order))
  }

  lemma {:induction false} AgreePred(w: World, p: Pred, nodes: seq<XNode>, once: bool)
    requires AllIn(w.d, nodes) && Kinds(p.e)
    ensures FastPred(w, p, nodes, once) == Cut(ApplyPred(w, p, nodes), once)
    decreases p, 0
  {
    forall j: nat | j < |nodes| ensures ValuesAgree(w, p.e, Ctx(nodes[j], j + 1, |nodes|)) {
      ModesAgree(w, p.e, Ctx(nodes[j], j + 1, |nodes|));
    }
    if nodes == [] {
    } else if p.kind == Constant || p.kind == ConstantOne {
      ModesAgree(w, p.e, Ctx(Elem([]), 1, |nodes|));
    } else if TypeOf(p.e) == TNum {
      assert forall j: nat :: j < |nodes| ==> NumAgrees(w, p.e, nodes, j);
      KeepNumCuts(w, p.e, nodes, 0, once);
    } else {
      assert forall j: nat :: j < |nodes| ==> BoolAgrees(w, p.e, nodes, j);
      KeepBoolCuts(w, p.e, nodes, 0, once);
    }
  }

  lemma {:induction false} AgreePreds(w: World, ps: Preds, nodes: seq<XNode>, lastOnce: bool)
    requires AllIn(w.d, nodes) && KindsPreds(ps)
    ensures FastPreds(w, ps, nodes, lastOnce) == Cut(ApplyPreds(w, ps, nodes), lastOnce && ps.Cons?)
    decreases ps, 0
  {
    if ps.Cons? {
      AgreePred(w, ps.p, nodes, ps.next.Nil? && lastOnce);
      AgreePreds(w, ps.next, FastPred(w, ps.p, nodes, ps.next.Nil? && lastOnce), lastOnce);
    }
  }

  lemma {:induction false} AgreeOne(w: World, axis: Axis, test: Test, ps: Preds, x: XNode)
    requires InDoc(w.d, x) && KindsPreds(ps)
    ensures OneAgrees(w, axis, test, ps, x)
    decreases ps, 1
  {
    var once := StopsEarly(axis, test, ps);
    FillIn(w.d, axis, test, x, once);
    forall order, mode ensures OneSame(w, axis, test, ps, x, order, mode) {
      AgreePreds(w, ps, Fill(w.d, axis, test, x, once), EvalOnce(order, mode));
    }
  }

  /** The evaluator that stops early agrees with the one that does not. */
  lemma {:induction false} ModesAgree(w: World, e: Expr, c: Ctx)
    requires InDoc(w.d, c.n) && Kinds(e)
    ensures ValuesAgree(w, e, c) && SetsAgree(w, e, c)
    decreases e, 3
  {
    AgreeValues(w, e, c);
    match e {
      case Step(_, _, _, _) => AgreeStep(w, e, c);
      case Filter(_, _) => AgreeFilter(w, e, c);
      case Union(_, _) => AgreeUnion(w, e, c);
      case _ => AbridgesSelf(EvalSet(w, e, c).nodes);
    }
  }

  lemma {:induction false} AgreeValues(w: World, e: Expr, c: Ctx)
    requires InDoc(w.d, c.n) && Kinds(e)
    ensures ValuesAgree(w, e, c)
    decreases e, 2
  {
    match e {
      case Count(a) => ModesAgree(w, a, c);
      case NonEmpty(a) => ModesAgree(w, a, c); Emptiness(FastSet(w, a, c, Any).nodes, EvalSet(w, a, c).nodes);
      case Plus(l, r) => ModesAgree(w, l, c); ModesAgree(w, r, c);
      case Equal(l, r) => ModesAgree(w, l, c); ModesAgree(w, r, c);
      case Less(l, r) => ModesAgree(w, l, c); ModesAgree(w, r, c);
      case And(l, r) => ModesAgree(w, l, c); ModesAgree(w, r, c);
      case Or(l, r) => ModesAgree(w, l, c); ModesAgree(w, r, c);
      case Not(a) => ModesAgree(w, a, c);
      case _ =>
    }
  }

  lemma Emptiness(r: seq<XNode>, full: seq<XNode>)
    requires Within(r, full) && (full != [] ==> r != [])
    ensures r == [] <==> full == []
  {
    if r != [] { assert r[0] in full; }
  }

  // ---- steps

  lemma StepHere(w: World, e: Expr, c: Ctx)
    requires e.Step? && e.left.Here? && InDoc(w.d, c.n) && OneAgrees(w, e.axis, e.test, e.preds, c.n)
    ensures SetsAgree(w, e, c)
  {
    assert OneSame(w, e.axis, e.test, e.preds, c.n, AxisOrder(e.axis), All);
    forall mode ensures Arranged(FastSet(w, e, c, mode).nodes, FastSet(w, e, c, mode).order) {
      OneIs(w, e.axis, e.test, e.preds, c.n, AxisOrder(e.axis), mode);
    }
    OneIs(w, e.axis, e.test, e.preds, c.n, AxisOrder(e.axis), First);
    OneIs(w, e.axis, e.test, e.preds, c.n, AxisOrder(e.axis), Any);
  }

  lemma {:induction false} AgreeStep(w: World, e: Expr, c: Ctx)
    requires e.Step? && InDoc(w.d, c.n) && Kinds(e)
    ensures SetsAgree(w, e, c)
    decreases e, 2
  {
    if e.left.Here? {
      AgreeOne(w, e.axis, e.test, e.preds, c.n);
      StepHere(w, e, c);
    } else {
      ModesAgree(w, e.left.e, c);
      var s := EvalSet(w, e.left.e, c);
      forall x | x in s.nodes ensures OneAgrees(w, e.axis, e.test, e.preds, x) {
        AgreeOne(w, e.axis, e.test, e.preds, x);
      }
      StepFrom(w, e, c, s);
    }
  }

  lemma StepFrom(w: World, e: Expr, c: Ctx, s: NodeSet)
    requires e.Step? && e.left.From? && InDoc(w.d, c.n) && s == EvalSet(w, e.left.e, c)
    requires FastSet(w, e.left.e, c, All) == s
    requires Arranged(s.nodes, s.order) && forall x :: x in s.nodes ==> OneAgrees(w, e.axis, e.test, e.preds, x)
    ensures SetsAgree(w, e, c)
  {
    FastAllIsStepAll(w, e.axis, e.test, e.preds, s.nodes, Start(e.axis, s));
    forall mode ensures Arranged(FastSet(w, e, c, mode).nodes, FastSet(w, e, c, mode).order) {
      StepFromSorted(w, e, c, s, mode);
    }
    StepFromAbridges(w, e, c, s, First);
    StepFromWithin(w, e, c, s, Any);
    StepFromSome(w, e, c, s);
  }

  lemma StepFromSorted(w: World, e: Expr, c: Ctx, s: NodeSet, mode: Mode)
    requires e.Step? && e.left.From? && InDoc(w.d, c.n) && FastSet(w, e.left.e, c, All) == s
    requires Arranged(s.nodes, s.order) && forall x :: x in s.nodes ==> OneAgrees(w, e.axis, e.test, e.preds, x)
    ensures Arranged(FastSet(w, e, c, mode).nodes, FastSet(w, e, c, mode).order)
  {
    var ns := FastAll(w, e.axis, e.test, e.preds, s.nodes, Start(e.axis, s), mode);
    assert Arranged(ns.nodes, ns.order) by {
      if e.axis == Self {
        assert [] + s.nodes == s.nodes;
        FastAllSelf(w, e.test, e.preds, s.nodes, Start(e.axis, s), mode);
      } else {
        FastAllSorted(w, e.axis, e.test, e.preds, s.nodes, Start(e.axis, s), mode);
      }
    }
    var r := FastSet(w, e, c, mode);
    assert r == ns || r == NodeSet(Dedupe(ns.nodes), Unsorted);
  }

  lemma StepFromIn(w: World, e: Expr, c: Ctx, s: NodeSet, mode: Mode, y: XNode)
    requires e.Step? && e.left.From? && InDoc(w.d, c.n) && FastSet(w, e.left.e, c, All) == s
    ensures y in FastSet(w, e, c, mode).nodes <==>
            y in FastAll(w, e.axis, e.test, e.preds, s.nodes, Start(e.axis, s), mode).nodes
  {
    DedupeElements(FastAll(w, e.axis, e.test, e.preds, s.nodes, Start(e.axis, s), mode).nodes);
  }

  lemma StepFromWithin(w: World, e: Expr, c: Ctx, s: NodeSet, mode: Mode)
    requires e.Step? && e.left.From? && InDoc(w.d, c.n) && s == EvalSet(w, e.left.e, c)
    requires FastSet(w, e.left.e, c, All) == s
    requires forall x :: x in s.nodes ==> OneAgrees(w, e.axis, e.test, e.preds, x)
    ensures Within(FastSet(w, e, c, mode).nodes, EvalSet(w, e, c).nodes)
  {
    forall y | y in FastSet(w, e, c, mode).nodes ensures y in EvalSet(w, e, c).nodes {
      StepFromIn(w, e, c, s, mode, y);
      FastAllWithin(w, e.axis, e.test, e.preds, s.nodes, Start(e.axis, s), mode, y);
      StepSelects(w, e.left.e, e.axis, e.test, e.preds, c, y);
    }
  }

  lemma StepFromSome(w: World, e: Expr, c: Ctx, s: NodeSet)
    requires e.Step? && e.left.From? && InDoc(w.d, c.n) && s == EvalSet(w, e.left.e, c)
    requires FastSet(w, e.left.e, c, All) == s
    requires forall x :: x in s.nodes ==> OneAgrees(w, e.axis, e.test, e.preds, x)
    ensures EvalSet(w, e, c).nodes != [] ==> FastSet(w, e, c, Any).nodes != []
  {
    var full := EvalSet(w, e, c).nodes;
    if full != [] {
      StepSelects(w, e.left.e, e.axis, e.test, e.preds, c, full[0]);
      var z := FastAllCovers(w, e.axis, e.test, e.preds, s.nodes, Start(e.axis, s), Any, full[0]);
      StepFromIn(w, e, c, s, Any, z);
    }
  }

  lemma StepFromAbridges(w: World, e: Expr, c: Ctx, s: NodeSet, mode: Mode)
    requires e.Step? && e.left.From? && InDoc(w.d, c.n) && s == EvalSet(w, e.left.e, c) && mode != Any
    requires FastSet(w, e.left.e, c, All) == s
    requires forall x :: x in s.nodes ==> OneAgrees(w, e.axis, e.test, e.preds, x)
    ensures Abridges(FastSet(w, e, c, mode).nodes, EvalSet(w, e, c).nodes)
  {
    var r, full := FastSet(w, e, c, mode).nodes, EvalSet(w, e, c).nodes;
    StepFromWithin(w, e, c, s, mode);
    forall y | y in full ensures exists z :: z in r && (z == y || Ahead(z, y)) {
      StepSelects(w, e.left.e, e.axis, e.test, e.preds, c, y);
      var z := FastAllCovers(w, e.axis, e.test, e.preds, s.nodes, Start(e.axis, s), mode, y);
      StepFromIn(w, e, c, s, mode, z);
    }
  }

  // ---- filters

  lemma PickOne(w: World, p: Pred, nodes: seq<XNode>, once: bool)
    requires AllIn(w.d, nodes) && p.kind == ConstantOne && p.e == Num(Fin(1.0))
    ensures ApplyPred(w, p, nodes) == Cut(nodes, true) && FastPred(w, p, nodes, once) == Cut(nodes, true)
  {
    if nodes != [] { assert Pick(nodes, Fin(1.0)) == [nodes[0]] && nodes[..1] == [nodes[0]]; }
  }

  lemma {:induction false} AgreeFilter(w: World, e: Expr, c: Ctx)
    requires e.Filter? && InDoc(w.d, c.n) && Kinds(e)
    ensures SetsAgree(w, e, c)
    decreases e, 2
  {
    ModesAgree(w, e.arg, c);
    if e.pred.kind == ConstantOne {
      FilterFirst(w, e, c);
    } else {
      var s := EvalSet(w, e.arg, c);
      var nodes := if e.pred.kind == Posinv then s.nodes else SortDoc(w.d, s.nodes);
      SortIn(w.d, s.nodes);
      SortDocInOrder(w.d, s.nodes);
      forall once ensures FastPred(w, e.pred, nodes, once) == Cut(ApplyPred(w, e.pred, nodes), once) {
        AgreePred(w, e.pred, nodes, once);
      }
      FilterCuts(w, e, c, nodes, FilterOrder(e.pred, s));
    }
  }

  lemma FilterFirst(w: World, e: Expr, c: Ctx)
    requires e.Filter? && InDoc(w.d, c.n) && e.pred.kind == ConstantOne && KindOk(e.pred) && SetsAgree(w, e.arg, c)
    ensures SetsAgree(w, e, c)
  {
    var r, full := FastSet(w, e.arg, c, First).nodes, EvalSet(w, e.arg, c).nodes;
    SameFirst(w.d, r, full);
    SortIn(w.d, r);
    SortIn(w.d, full);
    PickOne(w, e.pred, SortDoc(w.d, full), false);
    forall mode ensures FastSet(w, e, c, mode) == EvalSet(w, e, c) {
      PickOne(w, e.pred, SortDoc(w.d, r), EvalOnce(Ascending, mode));
    }
    AbridgesSelf(EvalSet(w, e, c).nodes);
  }

  lemma FilterCuts(w: World, e: Expr, c: Ctx, nodes: seq<XNode>, order: SetType)
    requires e.Filter? && InDoc(w.d, c.n) && e.pred.kind != ConstantOne
    requires FastSet(w, e.arg, c, All) == EvalSet(w, e.arg, c)
    requires var s := EvalSet(w, e.arg, c);
             && nodes == (if e.pred.kind == Posinv then s.nodes else SortDoc(w.d, s.nodes))
             && order == FilterOrder(e.pred, s)
    requires AllIn(w.d, nodes) && Arranged(nodes, order)
    requires forall once :: FastPred(w, e.pred, nodes, once) == Cut(ApplyPred(w, e.pred, nodes), once)
    ensures SetsAgree(w, e, c)
  {
    var full := ApplyPred(w, e.pred, nodes);
    ApplyPredArranged(w, e.pred, nodes, order);
    if order == Ascending { CutAbridges(full, true); }
    assert EvalSet(w, e, c) == NodeSet(full, order);
    assert forall mode :: FastSet(w, e, c, mode) == NodeSet(Cut(full, EvalOnce(order, mode)), order);
    AbridgesSelf(full);
  }

  // ---- unions

  lemma UnionAbridges(a: seq<XNode>, b: seq<XNode>, fa: seq<XNode>, fb: seq<XNode>)
    requires Abridges(a, fa) && Abridges(b, fb)
    ensures Abridges(Dedupe(a + b), Dedupe(fa + fb))
  {
    DedupeElements(a + b);
    DedupeElements(fa + fb);
    forall y | y in Dedupe(fa + fb) ensures exists z :: z in Dedupe(a + b) && (z == y || Ahead(z, y)) {
      var z :| (z in a || z in b) && (z == y || Ahead(z, y));
      assert z in a + b;
    }
  }

  lemma UnionSome(a: seq<XNode>, b: seq<XNode>, fa: seq<XNode>, fb: seq<XNode>)
    requires Within(a, fa) && Within(b, fb) && (fa != [] ==> a != []) && (fb != [] ==> b != [])
    ensures Within(Dedupe(a + b), Dedupe(fa + fb)) && (Dedupe(fa + fb) != [] ==> Dedupe(a + b) != [])
  {
    DedupeElements(a + b);
    DedupeElements(fa + fb);
    if Dedupe(fa + fb) != [] {
      assert Dedupe(fa + fb)[0] in fa + fb;
      assert (a + b)[0] in a + b;
    }
  }

  lemma {:induction false} AgreeUnion(w: World, e: Expr, c: Ctx)
    requires e.Union? && InDoc(w.d, c.n) && Kinds(e)
    ensures SetsAgree(w, e, c)
    decreases e, 2
  {
    ModesAgree(w, e.l, c);
    ModesAgree(w, e.r, c);
    var fl, fr := EvalSet(w, e.l, c).nodes, EvalSet(w, e.r, c).nodes;
    UnionAbridges(FastSet(w, e.l, c, First).nodes, FastSet(w, e.r, c, First).nodes, fl, fr);
    UnionSome(FastSet(w, e.l, c, Any).nodes, FastSet(w, e.r, c, Any).nodes, fl, fr);
  }

  // ---------------------------------------------------------------------
  // The whole pipeline
  // ---------------------------------------------------------------------

  lemma {:induction false} OptimizedKinds(e: Expr)
    ensures Parsed(e) ==> Kinds(Optimize(e))
    decreases e
  {
    match e {
      case Count(a) => OptimizedKinds(a);
      case NonEmpty(a) => OptimizedKinds(a);
      case Not(a) => OptimizedKinds(a);
      case Plus(l, r) => OptimizedKinds(l); OptimizedKinds(r);
      case Equal(l, r) => OptimizedKinds(l); OptimizedKinds(r);
      case Less(l, r) => OptimizedKinds(l); OptimizedKinds(r);
      case And(l, r) => OptimizedKinds(l); OptimizedKinds(r);
      case Or(l, r) => OptimizedKinds(l); OptimizedKinds(r);
      case Union(l, r) => OptimizedKinds(l); OptimizedKinds(r);
      case Step(left, _, _, preds) =>
        if left.From? { OptimizedKinds(left.e); }
        OptimizedPredKinds(preds);
      case Filter(a, p) => OptimizedKinds(a); OptimizedKinds(p.e);
      case _ =>
    }
  }

  lemma {:induction false} OptimizedPredKinds(ps: Preds)
    ensures ParsedPreds(ps) ==> KindsPreds(OptimizePreds(ps))
    decreases ps
  {
    if ps.Cons? {
      OptimizedKinds(ps.p.e);
      OptimizedPredKinds(ps.next);
    }
  }

  /** xpath_first: the first node of a set in document order, from either end or by a search. */
  function FirstOf(d: Tree, s: NodeSet): seq<XNode> {
    match s.order
    case Ascending => Cut(s.nodes, true)
    case Descending => if s.nodes == [] then [] else [s.nodes[|s.nodes| - 1]]
    case Unsorted => Cut(SortDoc(d, s.nodes), true)
  }

  lemma FirstOfIs(d: Tree, s: NodeSet)
    requires AllIn(d, s.nodes) && Arranged(s.nodes, s.order)
    ensures FirstOf(d, s) == Cut(SortDoc(d, s.nodes), true)
  {
    SortDocFirst(d, s.nodes);
    if s.order != Unsorted && s.nodes != [] {
      var x, q := SortDoc(d, s.nodes)[0], s.nodes;
      var k := if s.order == Ascending then 0 else |q| - 1;
      var j :| 0 <= j < |q| && q[j] == x;
      assert j != k ==> Comes(s.order, q[if j < k then j else k], q[if j < k then k else j]);
      AheadStrict(q[k], x);
    }
  }

  /** Optimized and stopping early, a query has the value of the parsed query evaluated in full. */
  lemma QueryPreserved(w: World, e: Expr, c: Ctx)
    requires Parsed(e) && InDoc(w.d, c.n)
    ensures TypeOf(e) == TNum ==> FastNum(w, Optimize(e), c) == EvalNum(w, e, c)
    ensures TypeOf(e) == TBool ==> FastBool(w, Optimize(e), c) == EvalBool(w, e, c)
    ensures TypeOf(e) == TSet ==> SameNodes(FastSet(w, Optimize(e), c, All).nodes, EvalSet(w, e, c).nodes)
    ensures TypeOf(e) == TSet ==>
              FirstOf(w.d, FastSet(w, Optimize(e), c, First)) == Cut(SortDoc(w.d, EvalSet(w, e, c).nodes), true)
  {
    var o := Optimize(e);
    OptimizedKinds(e);
    ModesAgree(w, o, c);
    OptimizePreserves(w, e, c);
    if TypeOf(e) == TSet {
      FirstOfIs(w.d, FastSet(w, o, c, First));
      SameFirst(w.d, FastSet(w, o, c, First).nodes, EvalSet(w, o, c).nodes);
      AmongSame(AllNodes(w.d), EvalSet(w, o, c).nodes, EvalSet(w, e, c).nodes);
    }
  }
}
