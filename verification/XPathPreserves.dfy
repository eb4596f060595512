/** Rewriting preserves meaning: the optimized query evaluates to the same number, boolean or node set. */
module XPathPreserves {
  import opened Documents
  import opened XPath
  import opened XPathRewrite

  // ---------------------------------------------------------------------
  // Position invariance
  // ---------------------------------------------------------------------

  /** Node sets never depend on the outer position; is_posinv_expr makes numbers and booleans independent of it too. */
  lemma {:induction false} PositionFree(w: World, e: Expr, c: Ctx, c': Ctx)
    requires InDoc(w.d, c.n) && c'.n == c.n
    ensures EvalSet(w, e, c) == EvalSet(w, e, c')
    ensures PosinvExpr(e) ==> EvalNum(w, e, c) == EvalNum(w, e, c') && EvalBool(w, e, c) == EvalBool(w, e, c')
    decreases e
  {
    match e {
      case Count(a) => PositionFree(w, a, c, c');
      case Plus(l, r) => PositionFree(w, l, c, c'); PositionFree(w, r, c, c');
      case Equal(l, r) => PositionFree(w, l, c, c'); PositionFree(w, r, c, c');
      case Less(l, r) => PositionFree(w, l, c, c'); PositionFree(w, r, c, c');
      case And(l, r) => PositionFree(w, l, c, c'); PositionFree(w, r, c, c');
      case Or(l, r) => PositionFree(w, l, c, c'); PositionFree(w, r, c, c');
      case Not(a) => PositionFree(w, a, c, c');
      case NonEmpty(a) => PositionFree(w, a, c, c');
      case Step(left, _, _, _) => if left.From? { PositionFree(w, left.e, c, c'); }
      case Filter(a, _) => PositionFree(w, a, c, c');
      case Union(l, r) => PositionFree(w, l, c, c'); PositionFree(w, r, c, c');
      case _ =>
    }
  }

  /** The context in which a position-invariant predicate is judged on its own. */
  function Alone(x: XNode): Ctx { Ctx(x, 1, 1) }

  lemma {:induction false} KeepBoolPosinv(w: World, e: Expr, nodes: seq<XNode>, i: nat, x: XNode)
    requires AllIn(w.d, nodes) && i <= |nodes| && PosinvExpr(e)
    ensures x in KeepBool(w, e, nodes, i) <==> x in nodes[i..] && InDoc(w.d, x) && EvalBool(w, e, Alone(x))
    decreases |nodes| - i
  {
    if i < |nodes| {
      var y := nodes[i];
      KeepBoolPosinv(w, e, nodes, i + 1, x);
      PositionFree(w, e, Ctx(y, i + 1, |nodes|), Alone(y));
      assert x in KeepBool(w, e, nodes, i) <==>
             (x == y && EvalBool(w, e, Alone(y))) || x in KeepBool(w, e, nodes, i + 1);
      assert x in nodes[i..] <==> x == y || x in nodes[i + 1..] by { assert nodes[i..] == [y] + nodes[i + 1..]; }
    }
  }

  /** A kind that classification could have produced. */
  predicate Classified(p: Pred) {
    && TypeOf(p.e) != TSet
    && (p.kind == Posinv ==> TypeOf(p.e) == TBool && PosinvExpr(p.e))
  }

  predicate ClassifiedPreds(ps: Preds) { ps.Cons? ==> Classified(ps.p) && ClassifiedPreds(ps.next) }

  predicate Holds(w: World, ps: Preds, x: XNode)
    requires InDoc(w.d, x)
  {
    ps.Cons? ==> EvalBool(w, ps.p.e, Alone(x)) && Holds(w, ps.next, x)
  }

  /** Position-invariant predicates filter node by node. */
  lemma {:induction false} ApplyPosinv(w: World, ps: Preds, nodes: seq<XNode>, x: XNode)
    requires AllIn(w.d, nodes) && PosinvPreds(ps) && ClassifiedPreds(ps)
    ensures x in ApplyPreds(w, ps, nodes) <==> x in nodes && InDoc(w.d, x) && Holds(w, ps, x)
    decreases ps
  {
    if ps.Cons? {
      assert nodes[0..] == nodes;
      KeepBoolPosinv(w, ps.p.e, nodes, 0, x);
      ApplyPosinv(w, ps.next, ApplyPred(w, ps.p, nodes), x);
    }
  }

  /** What one node yields through position-invariant predicates. */
  lemma StepOnePosinv(w: World, axis: Axis, test: Test, ps: Preds, x: XNode, y: XNode)
    requires InDoc(w.d, x) && PosinvPreds(ps) && ClassifiedPreds(ps) && axis != Attribute
    ensures y in StepOne(w, axis, test, ps, x) <==>
            y in AxisNodes(w.d, axis, x) && Takes(w.d, axis, test, y) && Holds(w, ps, y)
  {
    FillIn(w.d, axis, test, x, false);
    ApplyPosinv(w, ps, Fill(w.d, axis, test, x, false), y);
    SelectIn(w.d, axis, test, x, AxisNodes(w.d, axis, x), y);
  }

  // ---------------------------------------------------------------------
  // Merging descendant-or-self::node() with the next step
  // ---------------------------------------------------------------------

  lemma DescendantOrSelfIs(d: Tree, x: XNode, y: XNode)
    requires InDoc(d, x) && x.Elem?
    ensures y in AxisNodes(d, DescendantOrSelf, x) <==> y.Elem? && IsPrefix(x.p, y.p) && Has(d, y.p)
  {
    var t := At(d, x.p);
    if y in AxisNodes(d, DescendantOrSelf, x) {
      var i :| 0 <= i < |Preorder(t)| && y == Elem(x.p + Preorder(t)[i]);
      PreorderHas(t, Preorder(t)[i]);
      HasAppend(d, x.p, Preorder(t)[i]);
    }
    if y.Elem? && IsPrefix(x.p, y.p) && Has(d, y.p) {
      var q := y.p[|x.p|..];
      assert y.p == x.p + q;
      HasAppend(d, x.p, q);
      PreorderHas(t, q);
      var i :| 0 <= i < |Preorder(t)| && Preorder(t)[i] == q;
      assert AxisNodes(d, DescendantOrSelf, x)[i] == y;
    }
  }

  lemma DescendantIs(d: Tree, x: XNode, y: XNode)
    requires InDoc(d, x) && x.Elem?
    ensures y in AxisNodes(d, Descendant, x) <==> y.Elem? && IsPrefix(x.p, y.p) && y.p != x.p && Has(d, y.p)
  {
    DescendantOrSelfIs(d, x, y);
    var all := AxisNodes(d, DescendantOrSelf, x);
    FirstIsSelf(d, x);
    assert all == [x] + all[1..];
    assert y in all[1..] <==> y in all && y != x by {
      AxisNoDup(d, DescendantOrSelf, x);
      assert x !in all[1..];
    }
  }

  lemma FirstIsSelf(d: Tree, x: XNode)
    requires InDoc(d, x) && x.Elem?
    ensures var all := AxisNodes(d, DescendantOrSelf, x);
            all != [] && all[0] == x && AxisNodes(d, Descendant, x) == all[1..]
  {
    assert x.p + [] == x.p;
  }

  lemma ChildIs(d: Tree, x: XNode, y: XNode)
    requires InDoc(d, x) && x.Elem?
    ensures y in AxisNodes(d, Child, x) <==> y.Elem? && y.p != [] && y.p[..|y.p| - 1] == x.p && Has(d, y.p)
  {
    var t := At(d, x.p);
    if y in AxisNodes(d, Child, x) {
      var i :| 0 <= i < |t.kids| && y == Elem(x.p + [i]);
      HasAppend(d, x.p, [i]);
    }
    if y.Elem? && y.p != [] && y.p[..|y.p| - 1] == x.p && Has(d, y.p) {
      var i := y.p[|y.p| - 1];
      assert y.p == x.p + [i];
      HasAppend(d, x.p, [i]);
      assert AxisNodes(d, Child, x)[i] == y;
    }
  }

  /** z is reached from x by descendant-or-self::node(), and y from z by `axis` with its node test. */
  ghost predicate Via(d: Tree, axis: Axis, test: Test, x: XNode, y: XNode, z: XNode) {
    InDoc(d, x) && InDoc(d, z) && z in AxisNodes(d, DescendantOrSelf, x) && y in AxisNodes(d, axis, z) &&
        Takes(d, axis, test, y)
  }

  /** Two steps make one: from an element. */
  lemma MergeAxes(d: Tree, axis: Axis, test: Test, x: XNode, y: XNode)
    requires InDoc(d, x) && x.Elem? && (axis == Child || axis == Self || axis == Descendant || axis == DescendantOrSelf)
    ensures (exists z :: Via(d, axis, test, x, y, z)) <==>
            y in AxisNodes(d, Merged(axis), x) && Takes(d, Merged(axis), test, y)
  {
    DescendantIs(d, x, y);
    DescendantOrSelfIs(d, x, y);
    if exists z :: Via(d, axis, test, x, y, z) {
      var z :| Via(d, axis, test, x, y, z);
      MergeForward(d, axis, test, x, y, z);
    }
    if y in AxisNodes(d, Merged(axis), x) && Takes(d, Merged(axis), test, y) {
      var z := if axis == Child then Elem(y.p[..|y.p| - 1]) else if axis == Self then y else x;
      MergeBack(d, axis, test, x, y, z);
    }
  }

  lemma MergeForward(d: Tree, axis: Axis, test: Test, x: XNode, y: XNode, z: XNode)
    requires InDoc(d, x) && x.Elem? && (axis == Child || axis == Self || axis == Descendant || axis == DescendantOrSelf)
    requires Via(d, axis, test, x, y, z)
    ensures y in AxisNodes(d, Merged(axis), x) && Takes(d, Merged(axis), test, y)
  {
    DescendantOrSelfIs(d, x, z);
    DescendantOrSelfIs(d, x, y);
    DescendantIs(d, x, y);
    match axis {
      case Child => ChildIs(d, z, y); assert y.p[..|x.p|] == z.p[..|x.p|];
      case Descendant => DescendantIs(d, z, y); assert y.p[..|x.p|] == y.p[..|z.p|][..|x.p|];
      case DescendantOrSelf => DescendantOrSelfIs(d, z, y); assert y.p[..|x.p|] == y.p[..|z.p|][..|x.p|];
      case _ =>
    }
  }

  lemma MergeBack(d: Tree, axis: Axis, test: Test, x: XNode, y: XNode, z: XNode)
    requires InDoc(d, x) && x.Elem? && (axis == Child || axis == Self || axis == Descendant || axis == DescendantOrSelf)
    requires y in AxisNodes(d, Merged(axis), x) && Takes(d, Merged(axis), test, y)
    requires y.Elem? && (axis == Child ==> y.p != [])
    requires z == if axis == Child then Elem(y.p[..|y.p| - 1]) else if axis == Self then y else x
    ensures Via(d, axis, test, x, y, z)
  {
    if axis == Child {
      assert IsPrefix(x.p, y.p) && y.p != x.p && Has(d, y.p) by { DescendantIs(d, x, y); }
      ParentBetween(d, x, y, z);
    } else {
      DescendantOrSelfIs(d, x, z);
    }
  }

  /** The parent of a descendant of x is x or a descendant of x. */
  lemma ParentBetween(d: Tree, x: XNode, y: XNode, z: XNode)
    requires InDoc(d, x) && x.Elem? && y.Elem? && IsPrefix(x.p, y.p) && y.p != x.p && Has(d, y.p)
    requires y.p != [] && z == Elem(y.p[..|y.p| - 1])
    ensures InDoc(d, z) && z in AxisNodes(d, DescendantOrSelf, x) && y in AxisNodes(d, Child, z)
  {
    assert y.p == z.p + [y.p[|y.p| - 1]];
    HasPrefix(d, z.p, [y.p[|y.p| - 1]]);
    ChildIs(d, z, y);
    assert y.p[..|y.p|] == y.p;
    assert z.p[..|x.p|] == y.p[..|x.p|];
    DescendantOrSelfIs(d, x, z);
  }

  /** The same from any context node; an attribute is its own only descendant-or-self. */
  lemma MergeFrom(d: Tree, axis: Axis, test: Test, x: XNode, y: XNode)
    requires InDoc(d, x) && (axis == Child || axis == Self || axis == Descendant || axis == DescendantOrSelf)
    ensures (exists z :: Via(d, axis, test, x, y, z)) <==>
            y in AxisNodes(d, Merged(axis), x) && Takes(d, Merged(axis), test, y)
  {
    if x.Elem? {
      MergeAxes(d, axis, test, x, y);
    } else if y in AxisNodes(d, Merged(axis), x) && Takes(d, Merged(axis), test, y) {
      assert Via(d, axis, test, x, y, x);
    }
  }

  /** What x yields in two steps is what it yields in the merged one. */
  lemma MergeYields(w: World, axis: Axis, test: Test, ps: Preds, x: XNode, y: XNode)
    requires InDoc(w.d, x) && PosinvPreds(ps) && ClassifiedPreds(ps)
    requires axis == Child || axis == Self || axis == Descendant || axis == DescendantOrSelf
    ensures AllIn(w.d, StepOne(w, DescendantOrSelf, AnyNode, Nil, x))
    ensures Yields(w, axis, test, ps, StepOne(w, DescendantOrSelf, AnyNode, Nil, x), y)
            <==> y in StepOne(w, Merged(axis), test, ps, x)
  {
    var zs := StepOne(w, DescendantOrSelf, AnyNode, Nil, x);
    StepOnePosinv(w, Merged(axis), test, ps, x, y);
    MergeFrom(w.d, axis, test, x, y);
    forall z ensures z in zs <==> z in AxisNodes(w.d, DescendantOrSelf, x) && InDoc(w.d, z) {
      StepOnePosinv(w, DescendantOrSelf, AnyNode, Nil, x, z);
    }
    forall z | InDoc(w.d, z)
      ensures y in StepOne(w, axis, test, ps, z) <==>
              y in AxisNodes(w.d, axis, z) && Takes(w.d, axis, test, y) && Holds(w, ps, y)
    {
      StepOnePosinv(w, axis, test, ps, z, y);
    }
    if Yields(w, axis, test, ps, zs, y) {
      var z := SourceOf(w, axis, test, ps, zs, y);
      assert Via(w.d, axis, test, x, y, z);
    }
    if y in StepOne(w, Merged(axis), test, ps, x) {
      var z :| Via(w.d, axis, test, x, y, z);
      YieldedBy(w, axis, test, ps, zs, z, y);
    }
  }

  /** descendant-or-self::node()/axis::test and the merged step select the same nodes. */
  lemma MergeSame(w: World, left: Left, axis: Axis, test: Test, ps: Preds, c: Ctx)
    requires InDoc(w.d, c.n) && Mergeable(left, axis, ps) && ClassifiedPreds(ps)
    ensures SameNodes(EvalSet(w, Step(left, axis, test, ps), c).nodes,
            EvalSet(w, MergeStep(left, axis, test, ps), c).nodes)
  {
    forall y ensures y in EvalSet(w, Step(left, axis, test, ps), c).nodes <==>
        y in EvalSet(w, MergeStep(left, axis, test, ps), c).nodes {
      StepSelects(w, left.e, axis, test, ps, c, y);
      if left.e.left.Here? {
        MergeYields(w, axis, test, ps, c.n, y);
      } else {
        MergeSameFrom(w, left.e.left.e, axis, test, ps, c, y);
      }
    }
  }

  lemma MergeSameFrom(w: World, e: Expr, axis: Axis, test: Test, ps: Preds, c: Ctx, y: XNode)
    requires InDoc(w.d, c.n) && PosinvPreds(ps) && ClassifiedPreds(ps)
    requires axis == Child || axis == Self || axis == Descendant || axis == DescendantOrSelf
    ensures Yields(w, axis, test, ps, EvalSet(w, Step(From(e), DescendantOrSelf, AnyNode, Nil), c).nodes, y)
            <==> y in EvalSet(w, Step(From(e), Merged(axis), test, ps), c).nodes
  {
    StepSelects(w, e, Merged(axis), test, ps, c, y);
    var srcs := EvalSet(w, e, c).nodes;
    var mid := EvalSet(w, Step(From(e), DescendantOrSelf, AnyNode, Nil), c).nodes;
    forall z ensures z in mid <==> Yields(w, DescendantOrSelf, AnyNode, Nil, srcs, z) {
      StepSelects(w, e, DescendantOrSelf, AnyNode, Nil, c, z);
    }
    MergeManySources(w, axis, test, ps, srcs, mid, y);
  }

  lemma MergeManySources(w: World, axis: Axis, test: Test, ps: Preds, srcs: seq<XNode>, mid: seq<XNode>, y: XNode)
    requires AllIn(w.d, srcs) && AllIn(w.d, mid) && PosinvPreds(ps) && ClassifiedPreds(ps)
    requires axis == Child || axis == Self || axis == Descendant || axis == DescendantOrSelf
    requires forall z :: z in mid <==> Yields(w, DescendantOrSelf, AnyNode, Nil, srcs, z)
    ensures Yields(w, axis, test, ps, mid, y) <==> Yields(w, Merged(axis), test, ps, srcs, y)
  {
    if Yields(w, axis, test, ps, mid, y) {
      var z :| z in mid && y in StepOne(w, axis, test, ps, z);
      var x := SourceOf(w, DescendantOrSelf, AnyNode, Nil, srcs, z);
      MergeYields(w, axis, test, ps, x, y);
      YieldedBy(w, axis, test, ps, StepOne(w, DescendantOrSelf, AnyNode, Nil, x), z, y);
      YieldedBy(w, Merged(axis), test, ps, srcs, x, y);
    } else if Yields(w, Merged(axis), test, ps, srcs, y) {
      var x := SourceOf(w, Merged(axis), test, ps, srcs, y);
      MergeYields(w, axis, test, ps, x, y);
      var z := SourceOf(w, axis, test, ps, StepOne(w, DescendantOrSelf, AnyNode, Nil, x), y);
      YieldedBy(w, DescendantOrSelf, AnyNode, Nil, srcs, x, z);
      YieldedBy(w, axis, test, ps, mid, z, y);
    }
  }

  lemma YieldedBy(w: World, axis: Axis, test: Test, ps: Preds, srcs: seq<XNode>, x: XNode, y: XNode)
    requires AllIn(w.d, srcs) && x in srcs && y in StepOne(w, axis, test, ps, x)
    ensures Yields(w, axis, test, ps, srcs, y)
  {
  }

  lemma SourceOf(w: World, axis: Axis, test: Test, ps: Preds, srcs: seq<XNode>, y: XNode) returns (x: XNode)
    requires AllIn(w.d, srcs) && Yields(w, axis, test, ps, srcs, y)
    ensures x in srcs && y in StepOne(w, axis, test, ps, x)
  {
    x :| x in srcs && y in StepOne(w, axis, test, ps, x);
  }

  // ---------------------------------------------------------------------
  // Predicates
  // ---------------------------------------------------------------------

  lemma {:induction false} KeepNumSame(w: World, e: Expr, e': Expr, nodes: seq<XNode>, i: nat)
    requires AllIn(w.d, nodes) && i <= |nodes|
    requires forall j: nat :: i <= j < |nodes| ==>
             var c := Ctx(nodes[j], j + 1, |nodes|); EvalNum(w, e, c) == EvalNum(w, e', c)
    ensures KeepNum(w, e, nodes, i) == KeepNum(w, e', nodes, i)
    decreases |nodes| - i
  {
    if i < |nodes| { KeepNumSame(w, e, e', nodes, i + 1); }
  }

  lemma {:induction false} KeepBoolSame(w: World, e: Expr, e': Expr, nodes: seq<XNode>, i: nat)
    requires AllIn(w.d, nodes) && i <= |nodes|
    requires forall j: nat :: i <= j < |nodes| ==>
             var c := Ctx(nodes[j], j + 1, |nodes|); EvalBool(w, e, c) == EvalBool(w, e', c)
    ensures KeepBool(w, e, nodes, i) == KeepBool(w, e', nodes, i)
    decreases |nodes| - i
  {
    if i < |nodes| { KeepBoolSame(w, e, e', nodes, i + 1); }
  }

  /** [position() = e] and [e] keep the same nodes. */
  lemma {:induction false} PositionEquals(w: World, e: Expr, nodes: seq<XNode>, i: nat)
    requires AllIn(w.d, nodes) && i <= |nodes|
    ensures KeepBool(w, Equal(Position, e), nodes, i) == KeepNum(w, e, nodes, i)
    decreases |nodes| - i
  {
    if i < |nodes| {
      PositionEquals(w, e, nodes, i + 1);
      var c := Ctx(nodes[i], i + 1, |nodes|);
      assert EvalNum(w, Position, c) == OfNat(i + 1);
      assert EvalBool(w, Equal(Position, e), c) == NumEq(EvalNum(w, e, c), OfNat(i + 1));
    }
  }

  /** A filter loop with a value that does not vary keeps the node at that position, if it is one. */
  lemma {:induction false} KeepNumPicks(w: World, e: Expr, nodes: seq<XNode>, i: nat, v: Number)
    requires AllIn(w.d, nodes) && i <= |nodes|
    requires forall j: nat :: i <= j < |nodes| ==> EvalNum(w, e, Ctx(nodes[j], j + 1, |nodes|)) == v
    ensures KeepNum(w, e, nodes, i) == if v.Fin? && v.r > i as real then Pick(nodes, v) else []
    decreases |nodes| - i
  {
    if i < |nodes| { KeepNumPicks(w, e, nodes, i + 1, v); }
  }

  /** The constant fast path agrees with the generic loop. */
  lemma ConstantAgrees(w: World, e: Expr, nodes: seq<XNode>)
    requires AllIn(w.d, nodes) && (e.Num? || e.Var? || e.Last?)
    ensures Pick(nodes, EvalNum(w, e, Ctx(Elem([]), 1, |nodes|))) == KeepNum(w, e, nodes, 0)
  {
    KeepNumPicks(w, e, nodes, 0, EvalNum(w, e, Ctx(Elem([]), 1, |nodes|)));
  }

  lemma ClassifyKeeps(w: World, e: Expr, nodes: seq<XNode>)
    requires AllIn(w.d, nodes)
    ensures ApplyPred(w, Pred(e, Classify(e)), nodes) == ApplyPred(w, Pred(e, Default), nodes)
  {
    if Classify(e) == Constant || Classify(e) == ConstantOne { ConstantAgrees(w, e, nodes); }
  }

  lemma DropPositionKeeps(w: World, e: Expr, nodes: seq<XNode>)
    requires AllIn(w.d, nodes)
    ensures ApplyPred(w, Pred(DropPosition(e), Default), nodes) == ApplyPred(w, Pred(e, Default), nodes)
  {
    if e.Equal? && e.l.Position? { PositionEquals(w, e.r, nodes, 0); }
  }

  /** Stopping the fill at the first match loses nothing when the only predicate is [1]. */
  lemma OnceEnough(w: World, axis: Axis, test: Test, ps: Preds, x: XNode)
    requires InDoc(w.d, x) && ps.Cons? && ps.next.Nil? && ps.p.kind == ConstantOne && ps.p.e == Num(Fin(1.0))
    requires AllIn(w.d, Fill(w.d, axis, test, x, false))
    ensures StepOne(w, axis, test, ps, x) == ApplyPreds(w, ps, Fill(w.d, axis, test, x, false))
  {
    FillIn(w.d, axis, test, x, true);
    var all, one := Fill(w.d, axis, test, x, false), Fill(w.d, axis, test, x, true);
    if all != [] {
      assert one == [all[0]];
      assert Pick(all, Fin(1.0)) == [all[0]] && Pick(one, Fin(1.0)) == [all[0]];
    }
    assert ApplyPreds(w, ps, one) == ApplyPred(w, ps.p, one);
    assert ApplyPreds(w, ps, all) == ApplyPred(w, ps.p, all);
  }

  // ---------------------------------------------------------------------
  // The main theorem
  // ---------------------------------------------------------------------

  lemma {:induction false} OptimizedPreds(ps: Preds)
    requires ParsedPreds(ps)
    ensures ClassifiedPreds(OptimizePreds(ps))
    decreases ps
  {
    if ps.Cons? {
      SameType(ps.p.e);
      OptimizedPreds(ps.next);
    }
  }

  lemma SameType(e: Expr)
    ensures TypeOf(Optimize(e)) == TypeOf(e)
  {
  }

  lemma {:induction false} PreservesPred(w: World, p: Pred, nodes: seq<XNode>)
    requires AllIn(w.d, nodes) && TypeOf(p.e) != TSet && Parsed(p.e) && p.kind == Default
    ensures ApplyPred(w, OptimizePred(p), nodes) == ApplyPred(w, p, nodes)
    decreases p, 0
  {
    var e := Optimize(p.e);
    SameType(p.e);
    assert ApplyPred(w, Pred(e, Default), nodes) == ApplyPred(w, p, nodes) by {
      forall j: nat | j < |nodes|
        ensures var c := Ctx(nodes[j], j + 1, |nodes|);
                if TypeOf(e) == TNum then EvalNum(w, e, c) == EvalNum(w, p.e, c)
                    else EvalBool(w, e, c) == EvalBool(w, p.e, c)
      {
        OptimizePreserves(w, p.e, Ctx(nodes[j], j + 1, |nodes|));
      }
      if TypeOf(e) == TNum { KeepNumSame(w, e, p.e, nodes, 0); } else { KeepBoolSame(w, e, p.e, nodes, 0); }
    }
    DropPositionKeeps(w, e, nodes);
    ClassifyKeeps(w, DropPosition(e), nodes);
  }

  lemma {:induction false} PreservesPreds(w: World, ps: Preds, nodes: seq<XNode>)
    requires AllIn(w.d, nodes) && ParsedPreds(ps)
    ensures ApplyPreds(w, OptimizePreds(ps), nodes) == ApplyPreds(w, ps, nodes)
    decreases ps, 0
  {
    if ps.Cons? {
      PreservesPred(w, ps.p, nodes);
      PreservesPreds(w, ps.next, ApplyPred(w, ps.p, nodes));
    }
  }

  lemma {:induction false} PreservesStepOne(w: World, axis: Axis, test: Test, ps: Preds, x: XNode)
    requires InDoc(w.d, x) && ParsedPreds(ps)
    ensures StepOne(w, axis, test, OptimizePreds(ps), x) == StepOne(w, axis, test, ps, x)
    decreases ps, 1
  {
    var ps' := OptimizePreds(ps);
    var once := StopsEarly(axis, test, ps);
    FillIn(w.d, axis, test, x, once);
    PreservesPreds(w, ps, Fill(w.d, axis, test, x, once));
    if StopsEarly(axis, test, ps') && !once { OnceEnough(w, axis, test, ps', x); }
  }

  /** A parsed query and its optimized form have the same type and, in every context, the same value. */
  lemma {:induction false} OptimizePreserves(w: World, e: Expr, c: Ctx)
    requires Parsed(e) && InDoc(w.d, c.n)
    ensures TypeOf(Optimize(e)) == TypeOf(e)
    ensures TypeOf(e) == TNum ==> EvalNum(w, Optimize(e), c) == EvalNum(w, e, c)
    ensures TypeOf(e) == TBool ==> EvalBool(w, Optimize(e), c) == EvalBool(w, e, c)
    ensures TypeOf(e) == TSet ==> SameNodes(EvalSet(w, Optimize(e), c).nodes, EvalSet(w, e, c).nodes)
    decreases e, 2
  {
    SameType(e);
    if TypeOf(e) == TSet {
      PreservesSet(w, e, c);
    } else if TypeOf(e) == TBool {
      PreservesBool(w, e, c);
    } else {
      match e {
        case Count(a) => PreservesCount(w, a, c);
        case Plus(l, r) => OptimizePreserves(w, l, c); OptimizePreserves(w, r, c);
        case _ =>
      }
    }
  }

  lemma {:induction false} PreservesBool(w: World, e: Expr, c: Ctx)
    requires Parsed(e) && InDoc(w.d, c.n) && TypeOf(e) == TBool
    ensures EvalBool(w, Optimize(e), c) == EvalBool(w, e, c)
    decreases e, 1
  {
    match e {
      case NonEmpty(a) => PreservesCount(w, a, c);
      case Equal(l, r) => OptimizePreserves(w, l, c); OptimizePreserves(w, r, c);
      case Less(l, r) => OptimizePreserves(w, l, c); OptimizePreserves(w, r, c);
      case And(l, r) => OptimizePreserves(w, l, c); OptimizePreserves(w, r, c);
      case Or(l, r) => OptimizePreserves(w, l, c); OptimizePreserves(w, r, c);
      case Not(a) => OptimizePreserves(w, a, c);
    }
  }

  lemma {:induction false} PreservesSet(w: World, e: Expr, c: Ctx)
    requires Parsed(e) && InDoc(w.d, c.n) && TypeOf(e) == TSet
    ensures SameNodes(EvalSet(w, Optimize(e), c).nodes, EvalSet(w, e, c).nodes)
    decreases e, 1
  {
    match e {
      case Root =>
      case Step(_, _, _, _) => PreservesStep(w, e, c);
      case Filter(_, _) => PreservesFilter(w, e, c);
      case Union(l, r) =>
        OptimizePreserves(w, l, c);
        OptimizePreserves(w, r, c);
        UnionSame(w, l, Optimize(l), r, Optimize(r), c);
    }
  }

  lemma UnionSame(w: World, l: Expr, l': Expr, r: Expr, r': Expr, c: Ctx)
    requires InDoc(w.d, c.n)
    requires SameNodes(EvalSet(w, l', c).nodes, EvalSet(w, l, c).nodes)
    requires SameNodes(EvalSet(w, r', c).nodes, EvalSet(w, r, c).nodes)
    ensures SameNodes(EvalSet(w, Union(l', r'), c).nodes, EvalSet(w, Union(l, r), c).nodes)
  {
    DedupeElements(EvalSet(w, l, c).nodes + EvalSet(w, r, c).nodes);
    DedupeElements(EvalSet(w, l', c).nodes + EvalSet(w, r', c).nodes);
  }

  lemma {:induction false} PreservesCount(w: World, a: Expr, c: Ctx)
    requires Parsed(a) && InDoc(w.d, c.n) && TypeOf(a) == TSet
    ensures |EvalSet(w, Optimize(a), c).nodes| == |EvalSet(w, a, c).nodes|
    decreases a, 3
  {
    OptimizePreserves(w, a, c);
    EvalSetNoDup(w, a, c);
    EvalSetNoDup(w, Optimize(a), c);
    SameLength(EvalSet(w, Optimize(a), c).nodes, EvalSet(w, a, c).nodes);
  }

  lemma {:induction false} PreservesStep(w: World, e: Expr, c: Ctx)
    requires e.Step? && Parsed(e) && InDoc(w.d, c.n)
    ensures SameNodes(EvalSet(w, Optimize(e), c).nodes, EvalSet(w, e, c).nodes)
    decreases e, 0
  {
    var ps := OptimizePreds(e.preds);
    if e.left.Here? {
      PreservesStepOne(w, e.axis, e.test, e.preds, c.n);
    } else {
      var left := Optimize(e.left.e);
      var mid := Step(From(left), e.axis, e.test, ps);
      assert SameNodes(EvalSet(w, mid, c).nodes, EvalSet(w, e, c).nodes) by {
        OptimizePreserves(w, e.left.e, c);
        var srcs, srcs' := EvalSet(w, e.left.e, c).nodes, EvalSet(w, left, c).nodes;
        forall x | x in srcs ensures StepOne(w, e.axis, e.test, ps, x) == StepOne(w, e.axis, e.test, e.preds, x) {
          PreservesStepOne(w, e.axis, e.test, e.preds, x);
        }
        forall y ensures y in EvalSet(w, mid, c).nodes <==> y in EvalSet(w, e, c).nodes {
          StepSelects(w, left, e.axis, e.test, ps, c, y);
          StepSelects(w, e.left.e, e.axis, e.test, e.preds, c, y);
          SameYields(w, e.axis, e.test, ps, e.preds, srcs', srcs, y);
        }
      }
      OptimizedPreds(e.preds);
      if Mergeable(From(left), e.axis, ps) { MergeSame(w, From(left), e.axis, e.test, ps, c); }
    }
  }

  lemma SameYields(
      w: World, axis: Axis, test: Test, ps': Preds, ps: Preds, srcs': seq<XNode>, srcs: seq<XNode>, y: XNode)
    requires AllIn(w.d, srcs) && AllIn(w.d, srcs') && SameNodes(srcs', srcs)
    requires forall x :: x in srcs ==> StepOne(w, axis, test, ps', x) == StepOne(w, axis, test, ps, x)
    ensures Yields(w, axis, test, ps', srcs', y) <==> Yields(w, axis, test, ps, srcs, y)
  {
    if Yields(w, axis, test, ps', srcs', y) {
      var x := SourceOf(w, axis, test, ps', srcs', y);
      YieldedBy(w, axis, test, ps, srcs, x, y);
    } else if Yields(w, axis, test, ps, srcs, y) {
      var x := SourceOf(w, axis, test, ps, srcs, y);
      YieldedBy(w, axis, test, ps', srcs', x, y);
    }
  }

  lemma {:induction false} PreservesFilter(w: World, e: Expr, c: Ctx)
    requires e.Filter? && Parsed(e) && InDoc(w.d, c.n)
    ensures SameNodes(EvalSet(w, Optimize(e), c).nodes, EvalSet(w, e, c).nodes)
    decreases e, 0
  {
    var p := OptimizePred(e.pred);
    var s, s' := EvalSet(w, e.arg, c).nodes, EvalSet(w, Optimize(e.arg), c).nodes;
    OptimizePreserves(w, e.arg, c);
    var inOrder := SortDoc(w.d, s);
    SortIn(w.d, s);
    PreservesPred(w, e.pred, inOrder);
    if p.kind == Posinv {
      SortDocIs(w.d, s);
      SameType(e.pred.e);
      forall x ensures x in ApplyPred(w, p, s') <==> x in ApplyPred(w, p, inOrder) {
        ApplyPosinv(w, Cons(p, Nil), s', x);
        ApplyPosinv(w, Cons(p, Nil), inOrder, x);
        assert ApplyPreds(w, Cons(p, Nil), s') == ApplyPred(w, p, s');
        assert ApplyPreds(w, Cons(p, Nil), inOrder) == ApplyPred(w, p, inOrder);
      }
    } else {
      AmongSame(AllNodes(w.d), s', s);
    }
  }
}
