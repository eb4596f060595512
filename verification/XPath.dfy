/**
  XPath location paths: evaluation of node-set expressions with predicates
  (pugixml.cpp:9943-10046, 10163-10493, 11110-11209) and the query rewriting done
  once after parsing (optimize_self, pugixml.cpp:11255-11364).

  Expressions are numbers, booleans and node sets; string-valued expressions are
  not part of this model.  Here every node set is evaluated in full; XPathModes models
  evaluation that stops early.
 */
module XPath {
  import opened Documents

  /** An element (any non-attribute node) or attribute a of element p. */
  datatype XNode = Elem(p: Path) | Attr(p: Path, a: nat)

  /** A double, without rounding. */
  datatype Number = NaN | Inf(positive: bool) | Fin(r: real)

  datatype Axis =
    | Child | Descendant | DescendantOrSelf | Self | Attribute | Parent | Ancestor | AncestorOrSelf
    | FollowingSibling | PrecedingSibling | Following | Preceding

  /** node(), one name, or a test that accepts the given tags. */
  datatype Test = AnyNode | Named(tag: nat) | Only(tags: set<nat>)

  datatype Kind = Default | Posinv | Constant | ConstantOne

  datatype Expr =
    | Num(n: Number) | Var(v: nat) | Position | Last | Count(arg: Expr) | Plus(l: Expr, r: Expr)
    | Equal(l: Expr, r: Expr) | Less(l: Expr, r: Expr) | And(l: Expr, r: Expr) | Or(l: Expr, r: Expr)
    | Not(arg: Expr) | NonEmpty(arg: Expr)
    | Root | Step(left: Left, axis: Axis, test: Test, preds: Preds) | Filter(arg: Expr, pred: Pred)
    | Union(l: Expr, r: Expr)

  /** What a step starts from: the context node, or the nodes of an expression. */
  datatype Left = Here | From(e: Expr)

  datatype Pred = Pred(e: Expr, kind: Kind)

  /** A step's predicates, linked through `next`. */
  datatype Preds = Nil | Cons(p: Pred, next: Preds)

  datatype World = World(d: Tree, vars: map<nat, Number>)

  datatype Ctx = Ctx(n: XNode, pos: nat, size: nat)

  /** What is known of the order of a node set: nothing, document order, or its reverse. */
  datatype SetType = Unsorted | Ascending | Descending

  datatype NodeSet = NodeSet(nodes: seq<XNode>, order: SetType)

  datatype Type = TNum | TBool | TSet

  function TypeOf(e: Expr): Type {
    match e
    case Num(_) => TNum
    case Var(_) => TNum
    case Position => TNum
    case Last => TNum
    case Count(_) => TNum
    case Plus(_, _) => TNum
    case Root => TSet
    case Step(_, _, _, _) => TSet
    case Filter(_, _) => TSet
    case Union(_, _) => TSet
    case _ => TBool
  }

  /** What the parser produces: types fit and no predicate is classified yet. */
  predicate Parsed(e: Expr) {
    match e
    case Count(a) => TypeOf(a) == TSet && Parsed(a)
    case Plus(l, r) => TypeOf(l) == TypeOf(r) == TNum && Parsed(l) && Parsed(r)
    case Equal(l, r) => TypeOf(l) == TypeOf(r) == TNum && Parsed(l) && Parsed(r)
    case Less(l, r) => TypeOf(l) == TypeOf(r) == TNum && Parsed(l) && Parsed(r)
    case And(l, r) => TypeOf(l) == TypeOf(r) == TBool && Parsed(l) && Parsed(r)
    case Or(l, r) => TypeOf(l) == TypeOf(r) == TBool && Parsed(l) && Parsed(r)
    case Not(a) => TypeOf(a) == TBool && Parsed(a)
    case NonEmpty(a) => TypeOf(a) == TSet && Parsed(a)
    case Step(left, _, _, preds) => (left.From? ==> TypeOf(left.e) == TSet && Parsed(left.e)) && ParsedPreds(preds)
    case Filter(a, pred) => TypeOf(a) == TSet && Parsed(a) && TypeOf(pred.e) != TSet && Parsed(pred.e) &&
        pred.kind == Default
    case Union(l, r) => TypeOf(l) == TypeOf(r) == TSet && Parsed(l) && Parsed(r)
    case _ => true
  }

  predicate ParsedPreds(ps: Preds) {
    ps.Cons? ==> TypeOf(ps.p.e) != TSet && Parsed(ps.p.e) && ps.p.kind == Default && ParsedPreds(ps.next)
  }

  // ---------------------------------------------------------------------
  // Numbers
  // ---------------------------------------------------------------------

  predicate NumEq(a: Number, b: Number) { !a.NaN? && a == b }

  predicate NumLess(a: Number, b: Number) {
    match (a, b)
    case (NaN, _) => false
    case (_, NaN) => false
    case (Fin(x), Fin(y)) => x < y
    case (Inf(p), _) => !p && b != Inf(false)
    case (Fin(_), Inf(p)) => p
  }

  function NumPlus(a: Number, b: Number): Number {
    match (a, b)
    case (NaN, _) => NaN
    case (_, NaN) => NaN
    case (Fin(x), Fin(y)) => Fin(x + y)
    case (Inf(p), Inf(q)) => if p == q then a else NaN
    case (Inf(_), _) => a
    case (_, Inf(_)) => b
  }

  function OfNat(n: nat): Number { Fin(n as real) }

  // ---------------------------------------------------------------------
  // Axes
  // ---------------------------------------------------------------------

  predicate InDoc(d: Tree, x: XNode) {
    Has(d, x.p) && (x.Attr? ==> x.a < |At(d, x.p).attrs|)
  }

  predicate Passes(d: Tree, test: Test, x: XNode)
    requires InDoc(d, x)
  {
    var tag := if x.Elem? then At(d, x.p).tag else At(d, x.p).attrs[x.a];
    match test
    case AnyNode => true
    case Named(name) => tag == name
    case Only(tags) => tag in tags
  }

  function ElemsUnder(p: Path, qs: seq<Path>): (r: seq<XNode>)
    ensures |r| == |qs| && forall i :: 0 <= i < |qs| ==> r[i] == Elem(p + qs[i])
  {
    seq(|qs|, i requires 0 <= i < |qs| => Elem(p + qs[i]))
  }

  function AsElems(qs: seq<Path>): (r: seq<XNode>)
    ensures |r| == |qs| && forall i :: 0 <= i < |qs| ==> r[i] == Elem(qs[i])
  {
    seq(|qs|, i requires 0 <= i < |qs| => Elem(qs[i]))
  }

  /** The nodes above p, from its parent up. */
  function Above(p: Path): (r: seq<Path>)
    ensures |r| == |p| && forall i :: 0 <= i < |p| ==> r[i] == p[..|p| - 1 - i]
  {
    seq(|p|, i requires 0 <= i < |p| => p[..|p| - 1 - i])
  }

  /** The next siblings of p in document order, and the previous ones backwards. */
  function NextSiblings(d: Tree, p: Path): seq<Path>
    requires Has(d, p)
  {
    if p == [] then []
    else
      var q, i := p[..|p| - 1], p[|p| - 1];
      ParentHas(d, p);
      seq(|At(d, q).kids| - i - 1, k requires 0 <= k => q + [i + 1 + k])
  }

  function PreviousSiblings(p: Path): seq<Path> {
    if p == [] then []
    else
      var q, i := p[..|p| - 1], p[|p| - 1];
      seq(i, k requires 0 <= k < i => q + [i - 1 - k])
  }

  /** The nodes on an axis of x, in axis order. */
  function AxisNodes(d: Tree, axis: Axis, x: XNode): seq<XNode>
    requires InDoc(d, x)
  {
    if x.Attr? then AttributeAxis(d, axis, x)
    else
      var t := At(d, x.p);
      match axis
      case Child => seq(|t.kids|, i requires 0 <= i => Elem(x.p + [i]))
      case Descendant => ElemsUnder(x.p, Preorder(t)[1..])
      case DescendantOrSelf => ElemsUnder(x.p, Preorder(t))
      case Self => [x]
      case Attribute => seq(|t.attrs|, a requires 0 <= a => Attr(x.p, a))
      case Parent => if x.p == [] then [] else [Elem(x.p[..|x.p| - 1])]
      case _ => AroundAxis(d, axis, x.p)
  }

  function AttributeAxis(d: Tree, axis: Axis, x: XNode): seq<XNode> {
    match axis
    case DescendantOrSelf => [x]
    case Self => [x]
    case Parent => [Elem(x.p)]
    case Ancestor => [Elem(x.p)] + AsElems(Above(x.p))
    case AncestorOrSelf => [x, Elem(x.p)] + AsElems(Above(x.p))
    case Following => AsElems(Where(Preorder(d), q => Before(x.p, q)))
    case Preceding => AsElems(Backwards(NodesBefore(d, x.p)))
    case _ => []
  }

  /** The axes of an element that lead out of its subtree. */
  function AroundAxis(d: Tree, axis: Axis, p: Path): seq<XNode>
    requires Has(d, p)
  {
    match axis
    case Ancestor => AsElems(Above(p))
    case AncestorOrSelf => [Elem(p)] + AsElems(Above(p))
    case FollowingSibling => AsElems(NextSiblings(d, p))
    case PrecedingSibling => AsElems(PreviousSiblings(p))
    case Following => AsElems(NodesAfter(d, p))
    case Preceding => AsElems(Backwards(NodesBefore(d, p)))
    case _ => []
  }

  /** The order in which an axis lists its nodes. */
  function AxisOrder(axis: Axis): SetType {
    if axis == Ancestor || axis == AncestorOrSelf || axis == Preceding || axis == PrecedingSibling
    then Descending else Ascending
  }

  /** The node test; an attribute reached by any other axis than its own passes only node(). */
  predicate Takes(d: Tree, axis: Axis, test: Test, y: XNode) {
    InDoc(d, y) && if y.Attr? && axis != Attribute then test.AnyNode? else Passes(d, test, y)
  }

  function Select(d: Tree, axis: Axis, test: Test, x: XNode, ys: seq<XNode>): seq<XNode> {
    if ys == [] then []
    else (if Takes(d, axis, test, ys[0]) then [ys[0]] else []) + Select(d, axis, test, x, ys[1..])
  }

  /** step_fill; with `once` it stops at the first match. */
  function Fill(d: Tree, axis: Axis, test: Test, x: XNode, once: bool): seq<XNode>
    requires InDoc(d, x)
  {
    var all := Select(d, axis, test, x, AxisNodes(d, axis, x));
    if once && all != [] then all[..1] else all
  }

  // ---------------------------------------------------------------------
  // Node sets
  // ---------------------------------------------------------------------

  /** remove_duplicates: the first occurrence of each node, in order. */
  function Dedupe(q: seq<XNode>): seq<XNode> {
    if q == [] then []
    else
      var n := |q| - 1;
      Dedupe(q[..n]) + (if q[n] in q[..n] then [] else [q[n]])
  }

  /** An element followed by its attributes. */
  function WithAttrs(d: Tree, p: Path): seq<XNode>
    requires Has(d, p)
  {
    [Elem(p)] + seq(|At(d, p).attrs|, a requires 0 <= a => Attr(p, a))
  }

  function Flatten(d: Tree, ps: seq<Path>): seq<XNode>
    requires forall p :: p in ps ==> Has(d, p)
  {
    if ps == [] then [] else WithAttrs(d, ps[0]) + Flatten(d, ps[1..])
  }

  /** Every node of the document in document order. */
  function AllNodes(d: Tree): seq<XNode> {
    var ps := Preorder(d);
    assert forall p :: p in ps ==> Has(d, p) by { forall p | p in ps ensures Has(d, p) { PreorderHas(d, p); } }
    Flatten(d, ps)
  }

  function Among(all: seq<XNode>, q: seq<XNode>): seq<XNode> {
    if all == [] then [] else (if all[0] in q then [all[0]] else []) + Among(all[1..], q)
  }

  /** sort_do: the nodes of q in document order. */
  function SortDoc(d: Tree, q: seq<XNode>): seq<XNode> { Among(AllNodes(d), q) }

  // ---------------------------------------------------------------------
  // Evaluation
  // ---------------------------------------------------------------------

  function EvalNum(w: World, e: Expr, c: Ctx): Number
    requires InDoc(w.d, c.n)
    decreases e, 0
  {
    match e
    case Num(n) => n
    case Var(v) => if v in w.vars then w.vars[v] else NaN
    case Position => OfNat(c.pos)
    case Last => OfNat(c.size)
    case Count(a) => OfNat(|EvalSet(w, a, c).nodes|)
    case Plus(l, r) => NumPlus(EvalNum(w, l, c), EvalNum(w, r, c))
    case _ => NaN
  }

  function EvalBool(w: World, e: Expr, c: Ctx): bool
    requires InDoc(w.d, c.n)
    decreases e, 0
  {
    match e
    case Equal(l, r) => NumEq(EvalNum(w, l, c), EvalNum(w, r, c))
    case Less(l, r) => NumLess(EvalNum(w, l, c), EvalNum(w, r, c))
    case And(l, r) => EvalBool(w, l, c) && EvalBool(w, r, c)
    case Or(l, r) => EvalBool(w, l, c) || EvalBool(w, r, c)
    case Not(a) => !EvalBool(w, a, c)
    case NonEmpty(a) => EvalSet(w, a, c).nodes != []
    case _ => false
  }

  predicate AllIn(d: Tree, q: seq<XNode>) { forall x :: x in q ==> InDoc(d, x) }

  /** eval_node_set. */
  function EvalSet(w: World, e: Expr, c: Ctx): (s: NodeSet)
    requires InDoc(w.d, c.n)
    ensures AllIn(w.d, s.nodes)
    decreases e, 0
  {
    match e
    case Root => NodeSet([Elem([])], Ascending)
    case Step(left, axis, test, preds) =>
      if left.Here? then NodeSet(StepOne(w, axis, test, preds, c.n), AxisOrder(axis))
      else
        var s := EvalSet(w, left.e, c);
        var ns := StepAll(w, axis, test, preds, s.nodes, Start(axis, s));
        if axis != Child && axis != Attribute && axis != Self && ns.order == Unsorted
        then DedupeIn(w.d, ns.nodes); NodeSet(Dedupe(ns.nodes), Unsorted) else ns
    case Filter(a, pred) =>
      var s := EvalSet(w, a, c);
      var nodes := if pred.kind == Posinv then s.nodes else SortDoc(w.d, s.nodes);
      SortIn(w.d, s.nodes);
      NodeSet(ApplyPred(w, pred, nodes), FilterOrder(pred, s))
    case Union(l, r) =>
      var ls, rs := EvalSet(w, l, c), EvalSet(w, r, c);
      DedupeIn(w.d, ls.nodes + rs.nodes);
      NodeSet(Dedupe(ls.nodes + rs.nodes), Unsorted)
    case _ => NodeSet([], Ascending)
  }

  /** The set a step starts with: the self axis keeps the order of its source. */
  function Start(axis: Axis, s: NodeSet): NodeSet { NodeSet([], if axis == Self then s.order else AxisOrder(axis)) }

  /** What is known of the order when another source is about to add to the set. */
  function StepOrder(axis: Axis, acc: NodeSet): SetType {
    if axis == Self || acc.nodes == [] then acc.order else Unsorted
  }

  /** A filter sorts its set first, unless its predicate does not depend on positions. */
  function FilterOrder(pred: Pred, s: NodeSet): SetType { if pred.kind == Posinv then s.order else Ascending }

  /** The loop of step_do over the nodes of the left expression. */
  function StepAll(w: World, axis: Axis, test: Test, preds: Preds, srcs: seq<XNode>, acc: NodeSet): (s: NodeSet)
    requires AllIn(w.d, srcs) && AllIn(w.d, acc.nodes)
    ensures AllIn(w.d, s.nodes)
    decreases preds, 2, |srcs|
  {
    if srcs == [] then acc
    else
      assert forall x :: x in srcs[1..] ==> x in srcs;
      StepAll(w, axis, test, preds, srcs[1..],
              NodeSet(acc.nodes + StepOne(w, axis, test, preds, srcs[0]), StepOrder(axis, acc)))
  }

  /** A named attribute or a sole predicate [1] needs only the first match. */
  predicate StopsEarly(axis: Axis, test: Test, preds: Preds) {
    (axis == Attribute && test.Named?) || (preds.Cons? && preds.next.Nil? && preds.p.kind == ConstantOne)
  }

  /** step_fill and apply_predicates for one node. */
  function StepOne(w: World, axis: Axis, test: Test, preds: Preds, x: XNode): (q: seq<XNode>)
    requires InDoc(w.d, x)
    ensures AllIn(w.d, q)
    decreases preds, 1
  {
    var once := StopsEarly(axis, test, preds);
    FillIn(w.d, axis, test, x, once);
    ApplyPreds(w, preds, Fill(w.d, axis, test, x, once))
  }

  function ApplyPreds(w: World, preds: Preds, nodes: seq<XNode>): (q: seq<XNode>)
    requires AllIn(w.d, nodes)
    ensures AllIn(w.d, q)
    decreases preds, 0
  {
    if preds.Nil? then nodes else ApplyPreds(w, preds.next, ApplyPred(w, preds.p, nodes))
  }

  function ApplyPred(w: World, pred: Pred, nodes: seq<XNode>): (q: seq<XNode>)
    requires AllIn(w.d, nodes)
    ensures AllIn(w.d, q)
    decreases pred, 0
  {
    if nodes == [] then []
    else if pred.kind == Constant || pred.kind == ConstantOne
    then Pick(nodes, EvalNum(w, pred.e, Ctx(Elem([]), 1, |nodes|)))
    else if TypeOf(pred.e) == TNum then KeepNum(w, pred.e, nodes, 0)
    else KeepBool(w, pred.e, nodes, 0)
  }

  /** apply_predicate_boolean from index i on. */
  function KeepBool(w: World, e: Expr, nodes: seq<XNode>, i: nat): (q: seq<XNode>)
    requires AllIn(w.d, nodes) && i <= |nodes|
    ensures AllIn(w.d, q)
    decreases e, 1, |nodes| - i
  {
    if i == |nodes| then []
    else (if EvalBool(w, e, Ctx(nodes[i], i + 1, |nodes|)) then [nodes[i]] else []) + KeepBool(w, e, nodes, i + 1)
  }

  /** apply_predicate_number from index i on. */
  function KeepNum(w: World, e: Expr, nodes: seq<XNode>, i: nat): (q: seq<XNode>)
    requires AllIn(w.d, nodes) && i <= |nodes|
    ensures AllIn(w.d, q)
    decreases e, 1, |nodes| - i
  {
    if i == |nodes| then []
    else (if NumEq(EvalNum(w, e, Ctx(nodes[i], i + 1, |nodes|)), OfNat(i + 1)) then [nodes[i]] else [])
         + KeepNum(w, e, nodes, i + 1)
  }

  /** apply_predicate_number_const: index by the value instead of testing every node. */
  function Pick(nodes: seq<XNode>, er: Number): (q: seq<XNode>)
    ensures forall x :: x in q ==> x in nodes
  {
    if er.Fin? && 1.0 <= er.r <= |nodes| as real && er.r == er.r.Floor as real
    then [nodes[er.r.Floor - 1]]
    else []
  }

  lemma {:induction false} DedupeIn(d: Tree, q: seq<XNode>)
    requires AllIn(d, q)
    ensures AllIn(d, Dedupe(q))
  {
    DedupeElements(q);
  }

  lemma {:induction false} AmongIn(all: seq<XNode>, q: seq<XNode>, x: XNode)
    ensures x in Among(all, q) <==> x in all && x in q
  {
    if all != [] {
      AmongIn(all[1..], q, x);
      assert all == [all[0]] + all[1..];
    }
  }

  lemma SortIn(d: Tree, q: seq<XNode>)
    requires AllIn(d, q)
    ensures AllIn(d, SortDoc(d, q))
  {
    forall x | x in SortDoc(d, q) ensures InDoc(d, x) { AmongIn(AllNodes(d), q, x); }
  }

  lemma {:induction false} SelectIn(d: Tree, axis: Axis, test: Test, x: XNode, ys: seq<XNode>, y: XNode)
    ensures y in Select(d, axis, test, x, ys) <==> y in ys && Takes(d, axis, test, y)
  {
    if ys != [] {
      SelectIn(d, axis, test, x, ys[1..], y);
      assert ys == [ys[0]] + ys[1..];
    }
  }

  lemma FillIn(d: Tree, axis: Axis, test: Test, x: XNode, once: bool)
    requires InDoc(d, x)
    ensures AllIn(d, Fill(d, axis, test, x, once))
  {
    forall y | y in Fill(d, axis, test, x, once) ensures InDoc(d, y) {
      SelectIn(d, axis, test, x, AxisNodes(d, axis, x), y);
    }
  }

  lemma {:induction false} DedupeElements(q: seq<XNode>)
    ensures forall x :: x in Dedupe(q) <==> x in q
  {
    if q != [] {
      var n := |q| - 1;
      DedupeElements(q[..n]);
      assert q == q[..n] + [q[n]];
    }
  }
}
