/** The filter loops of predicates, in place on a node-set array (pugixml.cpp:9943-10046). */
module XPathFilters {
  import opened Documents
  import opened XPath
  import opened XPathModes

  /**
    The loop state: of the nodes q that stood at first.., those before index n have been judged,
    the kept ones moved to b[first..last]; `rest` is what judging the others will keep.
   */
  ghost predicate Filtering(b: seq<XNode>, b0: seq<XNode>, first: nat, last: nat, n: nat, end: nat, all: seq<XNode>,
      rest: seq<XNode>) {
    && first <= last <= first + n <= end <= |b| == |b0|
    && all == b[first..last] + rest
    && b[first + n..end] == b0[first + n..end]
    && b[..first] == b0[..first]
  }

  lemma FilteringKeeps(
      b: seq<XNode>, b0: seq<XNode>, first: nat, last: nat, n: nat, end: nat, all: seq<XNode>,
      rest: seq<XNode>, rest': seq<XNode>)
    requires Filtering(b, b0, first, last, n, end, all, rest) && first + n < end
    requires rest == [b0[first + n]] + rest'
    ensures b[first + n] == b0[first + n]
    ensures Filtering(b[last := b[first + n]], b0, first, last + 1, n + 1, end, all, rest')
  {
    var it := first + n;
    assert b[it] == b[it..end][0] == b0[it..end][0];
    var b' := b[last := b[it]];
    assert b'[first..last + 1] == b[first..last] + [b0[it]];
    assert b'[it + 1..end] == b[it..end][1..] && b0[it + 1..end] == b0[it..end][1..];
    assert b'[..first] == b[..first];
    assert b[first..last] + ([b0[it]] + rest') == b[first..last] + [b0[it]] + rest';
  }

  lemma FilteringDrops(
      b: seq<XNode>, b0: seq<XNode>, first: nat, last: nat, n: nat, end: nat, all: seq<XNode>,
      rest: seq<XNode>)
    requires Filtering(b, b0, first, last, n, end, all, rest) && first + n < end
    ensures b[first + n] == b0[first + n] && Filtering(b, b0, first, last, n + 1, end, all, rest)
  {
    var it := first + n;
    assert b[it] == b[it..end][0] == b0[it..end][0];
    assert b[it + 1..end] == b[it..end][1..] && b0[it + 1..end] == b0[it..end][1..];
  }

  /** The node about to be judged; dropping it keeps the loop state. */
  lemma NextIs(
      b: seq<XNode>, b0: seq<XNode>, q: seq<XNode>, first: nat, last: nat, n: nat, end: nat, all: seq<XNode>,
      rest: seq<XNode>)
    requires Filtering(b, b0, first, last, n, end, all, rest) && first + n < end && q == b0[first..end]
    ensures b[first + n] == b0[first + n] == q[n] && q[n] in q
    ensures Filtering(b, b0, first, last, n + 1, end, all, rest)
  {
    FilteringDrops(b, b0, first, last, n, end, all, rest);
  }

  /** Moves the node just judged behind those kept before it. */
  method KeepOne(
      ns: array<XNode>, ghost b0: seq<XNode>, first: nat, last: nat, n: nat, ghost end: nat,
      ghost all: seq<XNode>, ghost rest: seq<XNode>, ghost rest': seq<XNode>)
    requires Filtering(ns[..], b0, first, last, n, end, all, rest) && first + n < end
    requires rest == [b0[first + n]] + rest'
    modifies ns
    ensures Filtering(ns[..], b0, first, last + 1, n + 1, end, all, rest')
  {
    ghost var b := ns[..];
    FilteringKeeps(b, b0, first, last, n, end, all, rest, rest');
    ns[last] := ns[first + n];
    assert ns[..] == b[last := b[first + n]];
  }

  method ApplyPredicateBoolean(
      w: World, e: Expr, ns: array<XNode>, first: nat, end: nat, once: bool)
      returns (last: nat)
    requires first <= end <= ns.Length && AllIn(w.d, ns[..][first..end])
    modifies ns
    ensures first <= last <= end && ns[..][..first] == old(ns[..])[..first]
    ensures ns[..][first..last] == FastKeepBool(w, e, old(ns[..])[first..end], 0, once)
  {
    ghost var b0, q := ns[..], ns[..][first..end];
    ghost var all := FastKeepBool(w, e, q, 0, once);
    var size, n := end - first, 0;
    last := first;
    assert b0[first..first] + all == all;
    while n < size
      invariant 0 <= n <= size == |q|
      invariant Filtering(ns[..], b0, first, last, n, end, all, FastKeepBool(w, e, q, n, once))
    {
      NextIs(ns[..], b0, q, first, last, n, end, all, FastKeepBool(w, e, q, n, once));
      assert ns[first + n] == q[n] && InDoc(w.d, q[n]);
      if FastBool(w, e, Ctx(ns[first + n], n + 1, size)) {
        KeepOne(ns, b0, first, last, n, end, all, FastKeepBool(w, e, q, n, once),
                if once then [] else FastKeepBool(w, e, q, n + 1, once));
        last := last + 1;
        if once { return; }
      }
      n := n + 1;
    }
  }

  method ApplyPredicateNumber(w: World, e: Expr, ns: array<XNode>, first: nat, end: nat, once: bool) returns (last: nat)
    requires first <= end <= ns.Length && AllIn(w.d, ns[..][first..end])
    modifies ns
    ensures first <= last <= end && ns[..][..first] == old(ns[..])[..first]
    ensures ns[..][first..last] == FastKeepNum(w, e, old(ns[..])[first..end], 0, once)
  {
    ghost var b0, q := ns[..], ns[..][first..end];
    ghost var all := FastKeepNum(w, e, q, 0, once);
    var size, n := end - first, 0;
    last := first;
    assert b0[first..first] + all == all;
    while n < size
      invariant 0 <= n <= size == |q|
      invariant Filtering(ns[..], b0, first, last, n, end, all, FastKeepNum(w, e, q, n, once))
    {
      NextIs(ns[..], b0, q, first, last, n, end, all, FastKeepNum(w, e, q, n, once));
      assert ns[first + n] == q[n] && InDoc(w.d, q[n]);
      if NumEq(FastNum(w, e, Ctx(ns[first + n], n + 1, size)), OfNat(n + 1)) {
        KeepOne(ns, b0, first, last, n, end, all, FastKeepNum(w, e, q, n, once),
                if once then [] else FastKeepNum(w, e, q, n + 1, once));
        last := last + 1;
        if once { return; }
      }
      n := n + 1;
    }
  }

  method ApplyPredicateNumberConst(w: World, e: Expr, ns: array<XNode>, first: nat, end: nat) returns (last: nat)
    requires first <= end <= ns.Length
    modifies ns
    ensures first <= last <= end && ns[..][..first] == old(ns[..])[..first]
    ensures ns[..][first..last] == Pick(old(ns[..])[first..end], FastNum(w, e, Ctx(Elem([]), 1, end - first)))
  {
    var size := end - first;
    last := first;
    var er := FastNum(w, e, Ctx(Elem([]), 1, size));
    if er.Fin? && 1.0 <= er.r <= size as real {
      var eri := er.r.Floor;
      if er.r == eri as real {
        ns[last] := ns[first + eri - 1];
        last := last + 1;
      }
    }
  }

  /** apply_predicate. */
  method ApplyPredicate(w: World, p: Pred, ns: array<XNode>, first: nat, end: nat, once: bool) returns (last: nat)
    requires first <= end <= ns.Length && AllIn(w.d, ns[..][first..end])
    modifies ns
    ensures first <= last <= end && ns[..][..first] == old(ns[..])[..first]
    ensures ns[..][first..last] == FastPred(w, p, old(ns[..])[first..end], once)
  {
    if first == end { return end; }
    if p.kind == Constant || p.kind == ConstantOne {
      last := ApplyPredicateNumberConst(w, p.e, ns, first, end);
    } else if TypeOf(p.e) == TNum {
      last := ApplyPredicateNumber(w, p.e, ns, first, end, once);
    } else {
      last := ApplyPredicateBoolean(w, p.e, ns, first, end, once);
    }
  }

  /** apply_predicates: each predicate filters what the one before it kept. */
  method ApplyPredicates(
      w: World, ps: Preds, ns: array<XNode>, first: nat, end: nat, lastOnce: bool)
      returns (last: nat)
    requires first <= end <= ns.Length && AllIn(w.d, ns[..][first..end])
    modifies ns
    ensures first <= last <= end && ns[..][..first] == old(ns[..])[..first]
    ensures ns[..][first..last] == FastPreds(w, ps, old(ns[..])[first..end], lastOnce)
  {
    ghost var q := ns[..][first..end];
    var pred := ps;
    last := end;
    while pred.Cons?
      invariant first <= last <= end && ns[..][..first] == old(ns[..])[..first]
      invariant AllIn(w.d, ns[..][first..last])
      invariant FastPreds(w, ps, q, lastOnce) == FastPreds(w, pred, ns[..][first..last], lastOnce)
      decreases pred
    {
      last := ApplyPredicate(w, pred.p, ns, first, last, pred.next.Nil? && lastOnce);
      pred := pred.next;
    }
  }
}
