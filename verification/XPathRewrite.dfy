/** The rewriting of parsed queries, and the proof that it preserves what they select. */
module XPathRewrite {
  import opened Collections
  import opened Documents
  import opened XPath

  // ---------------------------------------------------------------------
  // The optimizer
  // ---------------------------------------------------------------------

  /** is_posinv_expr. */
  predicate PosinvExpr(e: Expr) {
    match e
    case Position => false
    case Last => false
    case Count(a) => PosinvExpr(a)
    case Plus(l, r) => PosinvExpr(l) && PosinvExpr(r)
    case Equal(l, r) => PosinvExpr(l) && PosinvExpr(r)
    case Less(l, r) => PosinvExpr(l) && PosinvExpr(r)
    case And(l, r) => PosinvExpr(l) && PosinvExpr(r)
    case Or(l, r) => PosinvExpr(l) && PosinvExpr(r)
    case Not(a) => PosinvExpr(a)
    case NonEmpty(a) => PosinvExpr(a)
    case Union(l, r) => PosinvExpr(l) && PosinvExpr(r)
    case _ => true    // constants, variables, steps, filters
  }

  /** is_posinv_step: every predicate is classified position-invariant. */
  predicate PosinvPreds(ps: Preds) {
    ps.Cons? ==> ps.p.kind == Posinv && PosinvPreds(ps.next)
  }

  function Classify(e: Expr): Kind {
    if e == Num(Fin(1.0)) then ConstantOne
    else if TypeOf(e) == TNum && (e.Num? || e.Var? || e.Last?) then Constant
    else if TypeOf(e) != TNum && PosinvExpr(e) then Posinv
    else Default
  }

  /** [position() = e] becomes [e]. */
  function DropPosition(e: Expr): Expr {
    if e.Equal? && e.l.Position? && TypeOf(e.r) == TNum then e.r else e
  }

  function OptimizePred(p: Pred): Pred
    decreases p
  {
    var e := DropPosition(Optimize(p.e));
    Pred(e, Classify(e))
  }

  function OptimizePreds(ps: Preds): Preds
    decreases ps
  {
    if ps.Nil? then Nil else Cons(OptimizePred(ps.p), OptimizePreds(ps.next))
  }

  /** The left step is descendant-or-self::node() without predicates, and this axis can absorb it. */
  predicate Mergeable(left: Left, axis: Axis, preds: Preds) {
    && (axis == Child || axis == Self || axis == Descendant || axis == DescendantOrSelf)
    && left.From? && left.e.Step? && left.e.axis == DescendantOrSelf && left.e.test == AnyNode && left.e.preds == Nil
    && PosinvPreds(preds)
  }

  function Merged(axis: Axis): Axis {
    if axis == Child || axis == Descendant then Descendant else DescendantOrSelf
  }

  function MergeStep(left: Left, axis: Axis, test: Test, preds: Preds): Expr {
    if Mergeable(left, axis, preds) then Step(left.e.left, Merged(axis), test, preds) else Step(left, axis, test, preds)
  }

  /** optimize: children first, then optimize_self. */
  function Optimize(e: Expr): Expr
    decreases e
  {
    match e
    case Count(a) => Count(Optimize(a))
    case Plus(l, r) => Plus(Optimize(l), Optimize(r))
    case Equal(l, r) => Equal(Optimize(l), Optimize(r))
    case Less(l, r) => Less(Optimize(l), Optimize(r))
    case And(l, r) => And(Optimize(l), Optimize(r))
    case Or(l, r) => Or(Optimize(l), Optimize(r))
    case Not(a) => Not(Optimize(a))
    case NonEmpty(a) => NonEmpty(Optimize(a))
    case Step(left, axis, test, preds) =>
      MergeStep(if left.Here? then Here else From(Optimize(left.e)), axis, test, OptimizePreds(preds))
    case Filter(a, p) => Filter(Optimize(a), OptimizePred(p))
    case Union(l, r) => Union(Optimize(l), Optimize(r))
    case _ => e
  }

  // ---------------------------------------------------------------------
  // What the optimizer achieves
  // ---------------------------------------------------------------------

  /** descendant-or-self::node() without predicates. */
  predicate Sweeps(e: Expr) { e.Step? && e.axis == DescendantOrSelf && e.test == AnyNode && e.preds == Nil }

  /** An axis that can absorb such a step on its left. */
  predicate Absorbs(axis: Axis) { axis == Child || axis == Self || axis == Descendant || axis == DescendantOrSelf }

  /** No step is left that could be merged, no [position() = e], and every predicate has the kind that it deserves. */
  predicate Normal(e: Expr) {
    match e
    case Count(a) => Normal(a)
    case Plus(l, r) => Normal(l) && Normal(r)
    case Equal(l, r) => Normal(l) && Normal(r)
    case Less(l, r) => Normal(l) && Normal(r)
    case And(l, r) => Normal(l) && Normal(r)
    case Or(l, r) => Normal(l) && Normal(r)
    case Not(a) => Normal(a)
    case NonEmpty(a) => Normal(a)
    case Step(left, axis, test, preds) =>
      && NormalPreds(preds)
      && (left.From? ==> Normal(left.e) && !(Sweeps(left.e) && Absorbs(axis) && PosinvPreds(preds)))
    case Filter(a, p) => Normal(a) && NormalPred(p)
    case Union(l, r) => Normal(l) && Normal(r)
    case _ => true
  }

  predicate NormalPred(p: Pred) {
    Normal(p.e) && p.kind == Classify(p.e) && !(p.e.Equal? && p.e.l.Position? && TypeOf(p.e.r) == TNum)
  }

  predicate NormalPreds(ps: Preds) { ps.Cons? ==> NormalPred(ps.p) && NormalPreds(ps.next) }

  /** A parsed query is in normal form after one pass. */
  lemma {:induction false} OptimizeNormal(e: Expr)
    requires Parsed(e)
    ensures Normal(Optimize(e)) && TypeOf(Optimize(e)) == TypeOf(e)
    decreases e
  {
    match e {
      case Count(a) => OptimizeNormal(a);
      case Plus(l, r) => OptimizeNormal(l); OptimizeNormal(r);
      case Equal(l, r) => OptimizeNormal(l); OptimizeNormal(r);
      case Less(l, r) => OptimizeNormal(l); OptimizeNormal(r);
      case And(l, r) => OptimizeNormal(l); OptimizeNormal(r);
      case Or(l, r) => OptimizeNormal(l); OptimizeNormal(r);
      case Not(a) => OptimizeNormal(a);
      case NonEmpty(a) => OptimizeNormal(a);
      case Step(left, axis, test, preds) =>
        if left.From? { OptimizeNormal(left.e); }
        PredsNormal(preds);
        MergeNormal(if left.Here? then Here else From(Optimize(left.e)), axis, test, OptimizePreds(preds));
      case Filter(a, p) => OptimizeNormal(a); PredNormal(p);
      case Union(l, r) => OptimizeNormal(l); OptimizeNormal(r);
      case _ =>
    }
  }

  /** What a merge takes the place of was in normal form, so there is nothing to merge with on its left. */
  lemma MergeNormal(left: Left, axis: Axis, test: Test, preds: Preds)
    requires (left.From? ==> Normal(left.e)) && NormalPreds(preds)
    ensures Normal(MergeStep(left, axis, test, preds))
  {
  }

  lemma {:induction false} PredNormal(p: Pred)
    requires Parsed(p.e) && TypeOf(p.e) != TSet
    ensures NormalPred(OptimizePred(p))
    decreases p
  {
    OptimizeNormal(p.e);
  }

  lemma {:induction false} PredsNormal(ps: Preds)
    requires ParsedPreds(ps)
    ensures NormalPreds(OptimizePreds(ps))
    decreases ps
  {
    if ps.Cons? {
      PredNormal(ps.p);
      PredsNormal(ps.next);
    }
  }

  // ---------------------------------------------------------------------
  // Sequences without repetition
  // ---------------------------------------------------------------------

  predicate NoDup(q: seq<XNode>) { Distinct(q) }

  ghost predicate SameNodes(a: seq<XNode>, b: seq<XNode>) { forall x :: x in a <==> x in b }

  lemma NoDupConcat(a: seq<XNode>, b: seq<XNode>)
    requires NoDup(a) && NoDup(b) && forall x :: x in a ==> x !in b
    ensures NoDup(a + b)
  {
    forall i, j | 0 <= i < j < |a + b| ensures (a + b)[i] != (a + b)[j] {
      if i < |a| <= j { assert a[i] in a && b[j - |a|] in b; }
    }
  }

  lemma SameLength(a: seq<XNode>, b: seq<XNode>)
    requires NoDup(a) && NoDup(b) && SameNodes(a, b)
    ensures |a| == |b|
  {
    DistinctSize(a);
    DistinctSize(b);
    assert Elems(a) == Elems(b);
  }

  lemma {:induction false} DedupeNoDup(q: seq<XNode>)
    ensures NoDup(Dedupe(q))
  {
    if q != [] {
      var n := |q| - 1;
      DedupeNoDup(q[..n]);
      DedupeElements(q[..n]);
      NoDupConcat(Dedupe(q[..n]), if q[n] in q[..n] then [] else [q[n]]);
    }
  }

  lemma {:induction false} SelectNoDup(d: Tree, axis: Axis, test: Test, x: XNode, ys: seq<XNode>)
    requires NoDup(ys)
    ensures NoDup(Select(d, axis, test, x, ys))
  {
    if ys != [] {
      SelectNoDup(d, axis, test, x, ys[1..]);
      var head := if Takes(d, axis, test, ys[0]) then [ys[0]] else [];
      var rest := Select(d, axis, test, x, ys[1..]);
      forall y | y in head ensures y !in rest { SelectIn(d, axis, test, x, ys[1..], y); }
      NoDupConcat(head, rest);
    }
  }

  lemma ElemsUnderNoDup(p: Path, qs: seq<Path>)
    requires forall i, j :: 0 <= i < j < |qs| ==> qs[i] != qs[j]
    ensures NoDup(ElemsUnder(p, qs))
  {
    var r := ElemsUnder(p, qs);
    forall i, j | 0 <= i < j < |r| ensures r[i] != r[j] {
      assert (p + qs[i])[|p|..] == qs[i] && (p + qs[j])[|p|..] == qs[j];
    }
  }

  lemma PreorderDistinct(t: Tree)
    ensures forall i, j :: 0 <= i < j < |Preorder(t)| ==> Preorder(t)[i] != Preorder(t)[j]
  {
    PreorderOrdered(t);
    var ps := Preorder(t);
    forall i, j | 0 <= i < j < |ps| ensures ps[i] != ps[j] { BeforeTotal(ps[i], ps[j]); BeforeTotal(ps[i], ps[i]); }
  }

  lemma AxisNoDup(d: Tree, axis: Axis, x: XNode)
    requires InDoc(d, x)
    ensures NoDup(AxisNodes(d, axis, x))
  {
    if x.Elem? {
      match axis {
        case Child =>
          var ns := AxisNodes(d, axis, x);
          forall i, j | 0 <= i < j < |ns| ensures ns[i] != ns[j] {
            assert (x.p + [i])[|x.p|] == i && (x.p + [j])[|x.p|] == j;
          }
        case Descendant =>
          PreorderDistinct(At(d, x.p));
          ElemsUnderNoDup(x.p, Preorder(At(d, x.p))[1..]);
        case DescendantOrSelf =>
          PreorderDistinct(At(d, x.p));
          ElemsUnderNoDup(x.p, Preorder(At(d, x.p)));
        case _ => AroundNoDup(d, axis, x.p);
      }
    } else {
      WhereNoDup(d, q => Before(x.p, q));
      WhereNoDup(d, q => Before(q, x.p) && !IsPrefix(q, x.p));
    }
  }

  lemma AroundNoDup(d: Tree, axis: Axis, p: Path)
    requires Has(d, p)
    ensures NoDup(AroundAxis(d, axis, p))
  {
    match axis {
      case Following => WhereNoDup(d, q => Before(p, q) && !IsPrefix(p, q));
      case Preceding => WhereNoDup(d, q => Before(q, p) && !IsPrefix(q, p));
      case FollowingSibling => SiblingsNoDup(d, p);
      case PrecedingSibling => SiblingsNoDup(d, p);
      case _ =>
    }
  }

  lemma SiblingsNoDup(d: Tree, p: Path)
    requires Has(d, p)
    ensures NoDup(AsElems(NextSiblings(d, p))) && NoDup(AsElems(PreviousSiblings(p)))
  {
    if p != [] {
      NextSiblingsAre(d, p);
      PreviousSiblingsAre(p);
    }
  }

  /** r is a sibling of p at index i. */
  predicate SiblingAt(p: Path, r: Path, i: int)
    requires p != []
  {
    |r| == |p| && r[..|p| - 1] == p[..|p| - 1] && r[|p| - 1] == i
  }

  /** Siblings differ in their last index. */
  lemma NextSiblingsAre(d: Tree, p: Path)
    requires Has(d, p) && p != []
    ensures forall k :: 0 <= k < |NextSiblings(d, p)| ==> SiblingAt(p, NextSiblings(d, p)[k], p[|p| - 1] + 1 + k)
  {
    ParentHas(d, p);
  }

  lemma PreviousSiblingsAre(p: Path)
    requires p != []
    ensures forall k :: 0 <= k < |PreviousSiblings(p)| ==> SiblingAt(p, PreviousSiblings(p)[k], p[|p| - 1] - 1 - k)
  {
  }

  lemma WhereNoDup(d: Tree, keep: Path -> bool)
    ensures Distinct(Where(Preorder(d), keep))
  {
    PreorderOrdered(d);
    WhereOrdered(Preorder(d), keep);
    var ps := Where(Preorder(d), keep);
    forall i, j | 0 <= i < j < |ps| ensures ps[i] != ps[j] { BeforeTotal(ps[i], ps[j]); }
  }

  lemma FillNoDup(d: Tree, axis: Axis, test: Test, x: XNode, once: bool)
    requires InDoc(d, x)
    ensures NoDup(Fill(d, axis, test, x, once))
  {
    AxisNoDup(d, axis, x);
    SelectNoDup(d, axis, test, x, AxisNodes(d, axis, x));
  }

  // ---------------------------------------------------------------------
  // Predicates keep a subsequence
  // ---------------------------------------------------------------------

  lemma {:induction false} KeepBoolFrom(w: World, e: Expr, nodes: seq<XNode>, i: nat)
    requires AllIn(w.d, nodes) && i <= |nodes|
    ensures forall x :: x in KeepBool(w, e, nodes, i) ==> x in nodes[i..]
    decreases |nodes| - i
  {
    if i < |nodes| {
      KeepBoolFrom(w, e, nodes, i + 1);
      assert nodes[i..] == [nodes[i]] + nodes[i + 1..];
    }
  }

  lemma {:induction false} KeepBoolSub(w: World, e: Expr, nodes: seq<XNode>, i: nat)
    requires AllIn(w.d, nodes) && i <= |nodes| && NoDup(nodes)
    ensures NoDup(KeepBool(w, e, nodes, i))
    decreases |nodes| - i
  {
    if i < |nodes| {
      KeepBoolSub(w, e, nodes, i + 1);
      KeepBoolFrom(w, e, nodes, i + 1);
      var head := if EvalBool(w, e, Ctx(nodes[i], i + 1, |nodes|)) then [nodes[i]] else [];
      forall x | x in head ensures x !in KeepBool(w, e, nodes, i + 1) { assert x !in nodes[i + 1..]; }
      NoDupConcat(head, KeepBool(w, e, nodes, i + 1));
    }
  }

  lemma {:induction false} KeepNumFrom(w: World, e: Expr, nodes: seq<XNode>, i: nat)
    requires AllIn(w.d, nodes) && i <= |nodes|
    ensures forall x :: x in KeepNum(w, e, nodes, i) ==> x in nodes[i..]
    decreases |nodes| - i
  {
    if i < |nodes| {
      KeepNumFrom(w, e, nodes, i + 1);
      assert nodes[i..] == [nodes[i]] + nodes[i + 1..];
    }
  }

  lemma {:induction false} KeepNumSub(w: World, e: Expr, nodes: seq<XNode>, i: nat)
    requires AllIn(w.d, nodes) && i <= |nodes| && NoDup(nodes)
    ensures NoDup(KeepNum(w, e, nodes, i))
    decreases |nodes| - i
  {
    if i < |nodes| {
      KeepNumSub(w, e, nodes, i + 1);
      KeepNumFrom(w, e, nodes, i + 1);
      var head := if NumEq(EvalNum(w, e, Ctx(nodes[i], i + 1, |nodes|)), OfNat(i + 1)) then [nodes[i]] else [];
      forall x | x in head ensures x !in KeepNum(w, e, nodes, i + 1) { assert x !in nodes[i + 1..]; }
      NoDupConcat(head, KeepNum(w, e, nodes, i + 1));
    }
  }

  lemma ApplyPredSub(w: World, p: Pred, nodes: seq<XNode>)
    requires AllIn(w.d, nodes) && NoDup(nodes)
    ensures NoDup(ApplyPred(w, p, nodes))
    ensures forall x :: x in ApplyPred(w, p, nodes) ==> x in nodes
  {
    KeepBoolSub(w, p.e, nodes, 0);
    KeepNumSub(w, p.e, nodes, 0);
    KeepBoolFrom(w, p.e, nodes, 0);
    KeepNumFrom(w, p.e, nodes, 0);
    assert nodes[0..] == nodes;
  }

  lemma {:induction false} ApplyPredsSub(w: World, ps: Preds, nodes: seq<XNode>)
    requires AllIn(w.d, nodes) && NoDup(nodes)
    ensures NoDup(ApplyPreds(w, ps, nodes))
    ensures forall x :: x in ApplyPreds(w, ps, nodes) ==> x in nodes
    decreases ps
  {
    if ps.Cons? {
      ApplyPredSub(w, ps.p, nodes);
      ApplyPredsSub(w, ps.next, ApplyPred(w, ps.p, nodes));
    }
  }

  lemma StepOneSub(w: World, axis: Axis, test: Test, ps: Preds, x: XNode)
    requires InDoc(w.d, x)
    ensures NoDup(StepOne(w, axis, test, ps, x))
    ensures forall y ::
              y in StepOne(w, axis, test, ps, x) ==> y in AxisNodes(w.d, axis, x) && Takes(w.d, axis, test, y)
  {
    var once := StopsEarly(axis, test, ps);
    FillNoDup(w.d, axis, test, x, once);
    FillIn(w.d, axis, test, x, once);
    ApplyPredsSub(w, ps, Fill(w.d, axis, test, x, once));
    forall y | y in StepOne(w, axis, test, ps, x) ensures y in AxisNodes(w.d, axis, x) && Takes(w.d, axis, test, y) {
      SelectIn(w.d, axis, test, x, AxisNodes(w.d, axis, x), y);
    }
  }

  // ---------------------------------------------------------------------
  // Node sets never repeat a node
  // ---------------------------------------------------------------------

  /** Some node of srcs yields y. */
  ghost predicate Yields(w: World, axis: Axis, test: Test, ps: Preds, srcs: seq<XNode>, y: XNode)
    requires AllIn(w.d, srcs)
  {
    exists x :: x in srcs && y in StepOne(w, axis, test, ps, x)
  }

  lemma YieldsCons(w: World, axis: Axis, test: Test, ps: Preds, srcs: seq<XNode>, y: XNode)
    requires AllIn(w.d, srcs) && srcs != [] && AllIn(w.d, srcs[1..])
    ensures Yields(w, axis, test, ps, srcs, y) <==>
            y in StepOne(w, axis, test, ps, srcs[0]) || Yields(w, axis, test, ps, srcs[1..], y)
  {
    if Yields(w, axis, test, ps, srcs, y) {
      var x :| x in srcs && y in StepOne(w, axis, test, ps, x);
      HeadOrTail(srcs, x);
    } else {
      YieldsRest(w, axis, test, ps, srcs, y);
    }
  }

  lemma HeadOrTail(srcs: seq<XNode>, x: XNode)
    requires x in srcs
    ensures x == srcs[0] || x in srcs[1..]
  {
    assert srcs == [srcs[0]] + srcs[1..];
  }

  lemma YieldsRest(w: World, axis: Axis, test: Test, ps: Preds, srcs: seq<XNode>, y: XNode)
    requires AllIn(w.d, srcs) && srcs != [] && AllIn(w.d, srcs[1..]) && !Yields(w, axis, test, ps, srcs, y)
    ensures y !in StepOne(w, axis, test, ps, srcs[0]) && !Yields(w, axis, test, ps, srcs[1..], y)
  {
    assert srcs[0] in srcs && forall x :: x in srcs[1..] ==> x in srcs;
  }

  /** The loop collects what every source node yields. */
  lemma {:induction false} StepAllIn(
      w: World, axis: Axis, test: Test, ps: Preds, srcs: seq<XNode>, acc: NodeSet, y: XNode)
    requires AllIn(w.d, srcs) && AllIn(w.d, acc.nodes)
    ensures y in StepAll(w, axis, test, ps, srcs, acc).nodes <==> y in acc.nodes || Yields(w, axis, test, ps, srcs, y)
    decreases |srcs|
  {
    if srcs != [] {
      var acc' := NodeSet(acc.nodes + StepOne(w, axis, test, ps, srcs[0]), StepOrder(axis, acc));
      assert forall x :: x in srcs[1..] ==> x in srcs;
      StepAllIn(w, axis, test, ps, srcs[1..], acc', y);
      YieldsCons(w, axis, test, ps, srcs, y);
    }
  }

  predicate OneParent(axis: Axis) { axis == Child || axis == Attribute || axis == Self }

  /** child, attribute and self never reach one node from two. */
  lemma OneParentUnique(d: Tree, axis: Axis, x: XNode, z: XNode, y: XNode)
    requires OneParent(axis) && InDoc(d, x) && InDoc(d, z) && y in AxisNodes(d, axis, x) && y in AxisNodes(d, axis, z)
    ensures x == z
  {
    if axis == Child && x.Elem? && z.Elem? {
      var i :| 0 <= i < |At(d, x.p).kids| && y == Elem(x.p + [i]);
      var j :| 0 <= j < |At(d, z.p).kids| && y == Elem(z.p + [j]);
      assert (x.p + [i])[..|x.p|] == x.p && (z.p + [j])[..|z.p|] == z.p;
    }
  }

  lemma {:induction false} StepAllUnique(w: World, axis: Axis, test: Test, ps: Preds, srcs: seq<XNode>, acc: NodeSet)
    requires AllIn(w.d, srcs) && AllIn(w.d, acc.nodes) && OneParent(axis) && NoDup(srcs) && NoDup(acc.nodes)
    requires forall y, x :: y in acc.nodes && x in srcs ==> y !in AxisNodes(w.d, axis, x)
    ensures NoDup(StepAll(w, axis, test, ps, srcs, acc).nodes)
    decreases |srcs|
  {
    if srcs != [] {
      var one := StepOne(w, axis, test, ps, srcs[0]);
      StepOneSub(w, axis, test, ps, srcs[0]);
      assert forall x :: x in srcs[1..] ==> x in srcs;
      NoDupConcat(acc.nodes, one);
      forall y, x | y in acc.nodes + one && x in srcs[1..] ensures y !in AxisNodes(w.d, axis, x) {
        if y in one && y in AxisNodes(w.d, axis, x) {
          OneParentUnique(w.d, axis, srcs[0], x, y);
        }
      }
      StepAllUnique(w, axis, test, ps, srcs[1..], NodeSet(acc.nodes + one, StepOrder(axis, acc)));
    }
  }

  /** While the set still counts as sorted, one source node has supplied all of it. */
  lemma {:induction false} StepAllSorted(w: World, axis: Axis, test: Test, ps: Preds, srcs: seq<XNode>, acc: NodeSet)
    requires AllIn(w.d, srcs) && AllIn(w.d, acc.nodes) && axis != Self && (acc.order != Unsorted ==> NoDup(acc.nodes))
    ensures var s := StepAll(w, axis, test, ps, srcs, acc); s.order != Unsorted ==> NoDup(s.nodes)
    decreases |srcs|
  {
    if srcs != [] {
      StepOneSub(w, axis, test, ps, srcs[0]);
      assert forall x :: x in srcs[1..] ==> x in srcs;
      assert [] + StepOne(w, axis, test, ps, srcs[0]) == StepOne(w, axis, test, ps, srcs[0]);
      StepAllSorted(w, axis, test, ps, srcs[1..],
        NodeSet(acc.nodes + StepOne(w, axis, test, ps, srcs[0]), StepOrder(axis, acc)));
    }
  }

  lemma {:induction false} AmongNoDup(all: seq<XNode>, q: seq<XNode>)
    requires NoDup(all)
    ensures NoDup(Among(all, q))
  {
    if all != [] {
      AmongNoDup(all[1..], q);
      var head := if all[0] in q then [all[0]] else [];
      forall x | x in head ensures x !in Among(all[1..], q) { AmongIn(all[1..], q, x); }
      NoDupConcat(head, Among(all[1..], q));
    }
  }

  lemma {:induction false} FlattenIn(d: Tree, ps: seq<Path>, x: XNode)
    requires forall p :: p in ps ==> Has(d, p)
    ensures x in Flatten(d, ps) <==> x.p in ps && InDoc(d, x)
  {
    if ps != [] {
      FlattenIn(d, ps[1..], x);
      assert ps == [ps[0]] + ps[1..];
      var as_ := WithAttrs(d, ps[0]);
      if x.p == ps[0] && InDoc(d, x) {
        if x.Attr? { assert as_[x.a + 1] == x; } else { assert as_[0] == x; }
      }
    }
  }

  lemma {:induction false} FlattenNoDup(d: Tree, ps: seq<Path>)
    requires forall p :: p in ps ==> Has(d, p)
    requires forall i, j :: 0 <= i < j < |ps| ==> ps[i] != ps[j]
    ensures NoDup(Flatten(d, ps))
  {
    if ps != [] {
      FlattenNoDup(d, ps[1..]);
      forall x | x in WithAttrs(d, ps[0]) ensures x !in Flatten(d, ps[1..]) { FlattenIn(d, ps[1..], x); }
      NoDupConcat(WithAttrs(d, ps[0]), Flatten(d, ps[1..]));
    }
  }

  lemma AllNodesAre(d: Tree)
    ensures NoDup(AllNodes(d)) && forall x :: x in AllNodes(d) <==> InDoc(d, x)
  {
    PreorderDistinct(d);
    forall p ensures p in Preorder(d) <==> Has(d, p) { PreorderHas(d, p); }
    FlattenNoDup(d, Preorder(d));
    forall x ensures x in AllNodes(d) <==> InDoc(d, x) { FlattenIn(d, Preorder(d), x); }
  }

  lemma SortDocIs(d: Tree, q: seq<XNode>)
    requires AllIn(d, q)
    ensures NoDup(SortDoc(d, q)) && SameNodes(SortDoc(d, q), q)
  {
    AllNodesAre(d);
    AmongNoDup(AllNodes(d), q);
    forall x ensures x in SortDoc(d, q) <==> x in q { AmongIn(AllNodes(d), q, x); }
  }

  lemma {:induction false} AmongSame(all: seq<XNode>, a: seq<XNode>, b: seq<XNode>)
    requires SameNodes(a, b)
    ensures Among(all, a) == Among(all, b)
  {
    if all != [] { AmongSame(all[1..], a, b); }
  }

  /** eval_node_set returns each node once. */
  lemma {:induction false} EvalSetNoDup(w: World, e: Expr, c: Ctx)
    requires InDoc(w.d, c.n)
    ensures NoDup(EvalSet(w, e, c).nodes)
    decreases e
  {
    match e {
      case Step(left, axis, test, ps) =>
        if left.Here? {
          StepOneSub(w, axis, test, ps, c.n);
        } else {
          var s := EvalSet(w, left.e, c);
          EvalSetNoDup(w, left.e, c);
          var acc := Start(axis, s);
          if OneParent(axis) {
            StepAllUnique(w, axis, test, ps, s.nodes, acc);
          } else {
            StepAllSorted(w, axis, test, ps, s.nodes, acc);
            DedupeNoDup(StepAll(w, axis, test, ps, s.nodes, acc).nodes);
          }
        }
      case Filter(a, p) =>
        EvalSetNoDup(w, a, c);
        var s := EvalSet(w, a, c);
        SortDocIs(w.d, s.nodes);
        SortIn(w.d, s.nodes);
        ApplyPredSub(w, p, if p.kind == Posinv then s.nodes else SortDoc(w.d, s.nodes));
      case Union(l, r) => DedupeNoDup(EvalSet(w, l, c).nodes + EvalSet(w, r, c).nodes);
      case _ =>
    }
  }

  /** What a step selects: whatever its sources yield. */
  lemma StepSelects(w: World, left: Expr, axis: Axis, test: Test, ps: Preds, c: Ctx, y: XNode)
    requires InDoc(w.d, c.n)
    ensures y in EvalSet(w, Step(From(left), axis, test, ps), c).nodes <==>
            Yields(w, axis, test, ps, EvalSet(w, left, c).nodes, y)
  {
    var s := EvalSet(w, left, c);
    var acc := Start(axis, s);
    var ns := StepAll(w, axis, test, ps, s.nodes, acc);
    assert y in ns.nodes <==> Yields(w, axis, test, ps, s.nodes, y) by {
      StepAllIn(w, axis, test, ps, s.nodes, acc, y);
    }
    assert y in Dedupe(ns.nodes) <==> y in ns.nodes by { DedupeElements(ns.nodes); }
  }
}
