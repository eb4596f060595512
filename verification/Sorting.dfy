/**
  The in-place three-way quicksort of node sets (pugixml.cpp:7691-7780), for any total order consistent
  with ==.  The comparison `pred` the source calls decides that order between different elements; what it
  says of an element and itself matters only if elements repeat.
 */
module Sorting {
  import opened Arith

  type Order<!T> = (T, T) -> bool

  ghost predicate TotalOrder<T(!new)>(less: Order<T>) {
    && (forall x :: !less(x, x))
    && (forall x, y :: less(x, y) || x == y || less(y, x))
    && (forall x, y, z :: less(x, y) && less(y, z) ==> less(x, z))
  }

  ghost predicate Decides<T(!new)>(pred: Order<T>, less: Order<T>) {
    forall x, y :: x != y ==> pred(x, y) == less(x, y)
  }

  ghost predicate Strict<T(!new)>(pred: Order<T>) { forall x :: !pred(x, x) }

  /** No element of [lo, hi) repeats. */
  ghost predicate Single<T(!new)>(s: seq<T>, lo: nat, hi: nat) {
    lo <= hi <= |s| && forall x :: multiset(s[lo..hi])[x] <= 1
  }

  lemma SinglePart<T(!new)>(s: seq<T>, lo: nat, b: nat, e: nat, hi: nat)
    requires Single(s, lo, hi) && lo <= b <= e <= hi
    ensures Single(s, b, e)
  {
    assert s[lo..hi] == s[lo..b] + s[b..e] + s[e..hi];
    forall x ensures multiset(s[b..e])[x] <= 1 {
      assert multiset(s[lo..hi])[x] == multiset(s[lo..b])[x] + multiset(s[b..e])[x] + multiset(s[e..hi])[x];
    }
  }

  lemma SingleDiffers<T(!new)>(s: seq<T>, lo: nat, hi: nat, i: nat, j: nat)
    requires Single(s, lo, hi) && lo <= i < j < hi
    ensures s[i] != s[j]
  {
    assert s[lo..hi] == s[lo..j] + s[j..hi];
    assert s[lo..j][i - lo] == s[i] && s[j..hi][0] == s[j];
    assert s[i] in multiset(s[lo..j]) && s[j] in multiset(s[j..hi]);
    assert multiset(s[lo..hi])[s[i]] == multiset(s[lo..j])[s[i]] + multiset(s[j..hi])[s[i]];
  }

  // ---------------------------------------------------------------------
  // Rearranging a part of an array
  // ---------------------------------------------------------------------

  /** t is s with the elements of [lo, hi) rearranged. */
  ghost predicate Permuted<T>(s: seq<T>, t: seq<T>, lo: nat, hi: nat) {
    && lo <= hi <= |s| == |t|
    && s[..lo] == t[..lo]
    && s[hi..] == t[hi..]
    && multiset(s[lo..hi]) == multiset(t[lo..hi])
  }

  lemma PermutedTrans<T>(s: seq<T>, t: seq<T>, u: seq<T>, lo: nat, hi: nat)
    requires Permuted(s, t, lo, hi) && Permuted(t, u, lo, hi)
    ensures Permuted(s, u, lo, hi)
  {
  }

  lemma PermutedWiden<T>(s: seq<T>, t: seq<T>, lo: nat, hi: nat, lo': nat, hi': nat)
    requires Permuted(s, t, lo, hi) && lo' <= lo && hi <= hi' <= |s|
    ensures Permuted(s, t, lo', hi')
  {
    assert s[..lo'] == s[..lo][..lo'] && t[..lo'] == t[..lo][..lo'];
    assert s[hi'..] == s[hi..][hi' - hi..] && t[hi'..] == t[hi..][hi' - hi..];
    assert s[lo'..hi'] == s[..lo][lo'..] + s[lo..hi] + s[hi..][..hi' - hi];
    assert t[lo'..hi'] == t[..lo][lo'..] + t[lo..hi] + t[hi..][..hi' - hi];
  }

  lemma PermutedOutside<T>(s: seq<T>, t: seq<T>, lo: nat, hi: nat)
    requires Permuted(s, t, lo, hi)
    ensures |s| == |t| && forall k: nat :: k < lo || hi <= k < |s| ==> t[k] == s[k]
  {
    forall k: nat | k < lo || hi <= k < |s| ensures t[k] == s[k] {
      if k < lo { assert s[..lo][k] == t[..lo][k]; } else { assert s[hi..][k - hi] == t[hi..][k - hi]; }
    }
  }

  /** Every element of the rearranged part was in it before. */
  lemma PermutedFrom<T>(s: seq<T>, t: seq<T>, lo: nat, hi: nat, k: nat) returns (j: nat)
    requires Permuted(s, t, lo, hi) && lo <= k < hi
    ensures lo <= j < hi && s[j] == t[k]
  {
    assert t[lo..hi][k - lo] in multiset(t[lo..hi]);
    var x := t[k];
    assert x in s[lo..hi];
    var i :| 0 <= i < |s[lo..hi]| && s[lo..hi][i] == x;
    j := lo + i;
  }

  lemma SwapPermutes<T>(s: seq<T>, i: nat, j: nat, lo: nat, hi: nat)
    requires lo <= i < hi && lo <= j < hi && hi <= |s|
    ensures Permuted(s, s[i := s[j]][j := s[i]], lo, hi)
  {
    var t := s[i := s[j]][j := s[i]];
    var p, q := s[lo..hi], t[lo..hi];
    assert q == p[i - lo := p[j - lo]][j - lo := p[i - lo]];
  }

  // ---------------------------------------------------------------------
  // Sortedness
  // ---------------------------------------------------------------------

  /** In order on [lo, hi), leaving open how the elements of [b, e) compare with each other. */
  ghost predicate SortedExcept<T(!new)>(less: Order<T>, s: seq<T>, lo: nat, b: nat, e: nat, hi: nat) {
    hi <= |s| && forall i: nat, j: nat :: lo <= i < j < hi && (i < b || e <= j) ==> !less(s[j], s[i])
  }

  ghost predicate Sorted<T(!new)>(less: Order<T>, s: seq<T>, lo: nat, hi: nat) {
    hi <= |s| && forall i: nat, j: nat :: lo <= i < j < hi ==> !less(s[j], s[i])
  }

  /** Rearranging [b, e) leaves its relation to the rest alone. */
  lemma PermutedInside<T(!new)>(less: Order<T>, s: seq<T>, t: seq<T>, lo: nat, b: nat, e: nat, hi: nat)
    requires SortedExcept(less, s, lo, b, e, hi) && lo <= b && e <= hi && Permuted(s, t, b, e)
    ensures SortedExcept(less, t, lo, b, e, hi)
  {
    PermutedOutside(s, t, b, e);
    forall i: nat, j: nat | lo <= i < j < hi && (i < b || e <= j) ensures !less(t[j], t[i]) {
      var i', j' := i, j;
      if b <= i < e { i' := PermutedFrom(s, t, b, e, i); }
      if b <= j < e { j' := PermutedFrom(s, t, b, e, j); }
      assert !less(s[j'], s[i']);
    }
  }

  /** Below the pivot as `pred` has it, equal to it, above it. */
  ghost predicate Partitioned<T(!new)>(pred: Order<T>, less: Order<T>, s: seq<T>, pivot: T, b: nat, p: nat, q: nat,
      e: nat) {
    && b <= p <= q <= e <= |s|
    && (forall k: nat :: b <= k < p ==> pred(s[k], pivot))
    && (forall k: nat :: p <= k < q ==> s[k] == pivot)
    && (forall k: nat :: q <= k < e ==> less(pivot, s[k]))
  }

  lemma PartitionedKeeps<T(!new)>(
    pred: Order<T>, less: Order<T>, s: seq<T>, t: seq<T>, pivot: T, b: nat, p: nat, q: nat, e: nat, lo: nat, hi: nat)
    requires Partitioned(pred, less, s, pivot, b, p, q, e)
    requires Permuted(s, t, lo, hi) && ((lo == b && hi == p) || (lo == q && hi == e))
    ensures Partitioned(pred, less, t, pivot, b, p, q, e)
  {
    PermutedOutside(s, t, lo, hi);
    forall k: nat | lo <= k < hi ensures if lo == b && hi == p then pred(t[k], pivot) else less(pivot, t[k]) {
      var j := PermutedFrom(s, t, lo, hi, k);
    }
  }

  /** Once one side of a partition is sorted, only the other remains open. */
  lemma SideSorted<T(!new)>(
    pred: Order<T>, less: Order<T>, s: seq<T>, pivot: T, lo: nat, b: nat, p: nat, q: nat, e: nat, hi: nat)
    requires TotalOrder(less) && Decides(pred, less) && lo <= b && e <= hi
    requires SortedExcept(less, s, lo, b, e, hi) && Partitioned(pred, less, s, pivot, b, p, q, e)
    ensures Sorted(less, s, q, e) ==> SortedExcept(less, s, lo, b, p, hi)
    ensures Sorted(less, s, b, p) ==> SortedExcept(less, s, lo, q, e, hi)
  {
  }

  lemma FirstLeast<T(!new)>(less: Order<T>, s: seq<T>, x: T)
    requires TotalOrder(less) && Sorted(less, s, 0, |s|) && x in multiset(s)
    ensures s != [] && !less(x, s[0])
  {
    var i: nat :| i < |s| && s[i] == x;
  }

  /** A sequence has only one sorted rearrangement. */
  lemma {:induction false} SortedUnique<T(!new)>(less: Order<T>, s: seq<T>, t: seq<T>)
    requires TotalOrder(less) && Sorted(less, s, 0, |s|) && Sorted(less, t, 0, |t|) && multiset(s) == multiset(t)
    ensures s == t
    decreases |s|
  {
    assert |s| == |multiset(s)| && |t| == |multiset(t)|;
    if s != [] {
      HeadsAgree(less, s, t);
      SortedUnique(less, s[1..], t[1..]);
    }
  }

  lemma HeadsAgree<T(!new)>(less: Order<T>, s: seq<T>, t: seq<T>)
    requires TotalOrder(less) && Sorted(less, s, 0, |s|) && Sorted(less, t, 0, |t|)
    requires multiset(s) == multiset(t) && s != [] && t != []
    ensures s[0] == t[0] && multiset(s[1..]) == multiset(t[1..])
  {
    assert s[0] in multiset(s) && t[0] in multiset(t);
    FirstLeast(less, s, t[0]);
    FirstLeast(less, t, s[0]);
    TailMultiset(s);
    TailMultiset(t);
  }

  lemma TailMultiset<T>(s: seq<T>)
    requires s != []
    ensures multiset(s[1..]) == multiset(s) - multiset{s[0]}
  {
    assert s == [s[0]] + s[1..];
  }

  // ---------------------------------------------------------------------
  // The algorithm
  // ---------------------------------------------------------------------

  method Swap<T>(a: array<T>, i: nat, j: nat, ghost lo: nat, ghost hi: nat)
    requires lo <= i < hi && lo <= j < hi && hi <= a.Length
    modifies a
    ensures a[..] == old(a[..])[i := old(a[j])][j := old(a[i])]
    ensures Permuted(old(a[..]), a[..], lo, hi)
  {
    SwapPermutes(a[..], i, j, lo, hi);
    a[i], a[j] := a[j], a[i];
    assert a[..] == old(a[..])[i := old(a[j])][j := old(a[i])];
  }

  method InsertionSort<T(==, !new)>(a: array<T>, begin: nat, end: nat, pred: Order<T>, ghost less: Order<T>)
    requires begin <= end <= a.Length && TotalOrder(less) && Decides(pred, less)
    modifies a
    ensures Permuted(old(a[..]), a[..], begin, end)
    ensures Sorted(less, a[..], begin, end)
  {
    if begin == end { return; }
    var it := begin + 1;
    while it != end
      invariant begin < it <= end
      invariant Permuted(old(a[..]), a[..], begin, end)
      invariant Sorted(less, a[..], begin, it)
      decreases end - it
    {
      ghost var s := a[..];
      Insert(a, begin, it, end, pred, less);
      PermutedTrans(old(a[..]), s, a[..], begin, end);
      it := it + 1;
    }
  }

  /** t is s after the hole has moved from `it` down to `hole`. */
  ghost predicate Holed<T(!new)>(less: Order<T>, s: seq<T>, t: seq<T>, begin: nat, hole: nat, it: nat) {
    && begin <= hole <= it < |s| == |t|
    && (forall k: nat :: k < hole || it < k < |s| ==> t[k] == s[k])
    && (forall k: nat :: hole < k <= it ==> t[k] == s[k - 1])
    && (forall k: nat :: hole < k <= it ==> !less(t[k], s[it]))
  }

  /** With the element in hand put into the hole, t rearranges s. */
  ghost predicate HandHeld<T>(s: seq<T>, t: seq<T>, begin: nat, hole: nat, end: nat, val: T) {
    hole < |t| && Permuted(s, t[hole := val], begin, end)
  }

  lemma HoleShifts<T(!new)>(less: Order<T>, s: seq<T>, t: seq<T>, begin: nat, hole: nat, it: nat)
    requires begin < hole && Holed(less, s, t, begin, hole, it) && !less(t[hole - 1], s[it])
    ensures Holed(less, s, t[hole := t[hole - 1]], begin, hole - 1, it)
  {
  }

  /** Moving the hole is a swap with the element in hand. */
  lemma HoleMoves<T(!new)>(less: Order<T>, s: seq<T>, t: seq<T>, begin: nat, hole: nat, it: nat, end: nat, val: T)
    requires begin < hole <= it < end <= |t| && Holed(less, s, t, begin, hole, it)
    requires HandHeld(s, t, begin, hole, end, val)
    requires val == s[it] && !less(t[hole - 1], val)
    ensures Holed(less, s, t[hole := t[hole - 1]], begin, hole - 1, it)
    ensures HandHeld(s, t[hole := t[hole - 1]], begin, hole - 1, end, val)
  {
    HoleShifts(less, s, t, begin, hole, it);
    HandMoves(s, t, begin, hole, end, val);
  }

  lemma HandMoves<T>(s: seq<T>, t: seq<T>, begin: nat, hole: nat, end: nat, val: T)
    requires begin < hole < end <= |t| && HandHeld(s, t, begin, hole, end, val)
    ensures HandHeld(s, t[hole := t[hole - 1]], begin, hole - 1, end, val)
  {
    var u := t[hole := val];
    SwapPermutes(u, hole - 1, hole, begin, end);
    var v := u[hole - 1 := u[hole]][hole := u[hole - 1]];
    assert v == t[hole := t[hole - 1]][hole - 1 := val];
    PermutedTrans(s, u, v, begin, end);
  }

  lemma HoleFilled<T(!new)>(less: Order<T>, s: seq<T>, t: seq<T>, begin: nat, hole: nat, it: nat)
    requires TotalOrder(less) && Holed(less, s, t, begin, hole, it) && Sorted(less, s, begin, it)
    requires hole == begin || !less(s[it], t[hole - 1])
    ensures Sorted(less, t[hole := s[it]], begin, it + 1)
  {
    var u := t[hole := s[it]];
    forall i: nat, j: nat | begin <= i < j < it + 1 ensures !less(u[j], u[i]) {
      var i', j' := if i < hole then i else i - 1, if j < hole then j else j - 1;
      assert i != hole && j != hole ==> u[i] == s[i'] && u[j] == s[j'];
      assert i != hole && j != hole ==> !less(s[j'], s[i']);
      assert j == hole && i < hole - 1 ==> !less(s[hole - 1], s[i]);
    }
  }

  /** One round of insertion sort: the hole moves down until the element at `it` fits. */
  method Insert<T(==, !new)>(a: array<T>, begin: nat, it: nat, ghost end: nat, pred: Order<T>, ghost less: Order<T>)
    requires begin <= it < end <= a.Length && TotalOrder(less) && Decides(pred, less) && Sorted(less, a[..], begin, it)
    modifies a
    ensures Permuted(old(a[..]), a[..], begin, end)
    ensures Sorted(less, a[..], begin, it + 1)
  {
    var val := a[it];
    var hole := it;
    ghost var s := a[..];
    assert s[hole := val] == s;
    while hole > begin && pred(val, a[hole - 1])
      invariant begin <= hole <= it
      invariant Holed(less, s, a[..], begin, hole, it) && HandHeld(s, a[..], begin, hole, end, val)
    {
      HoleMoves(less, s, a[..], begin, hole, it, end, val);
      ghost var t := a[..];
      a[hole] := a[hole - 1];
      assert a[..] == t[hole := t[hole - 1]];
      hole := hole - 1;
    }
    HoleFilled(less, s, a[..], begin, hole, it);
    ghost var t := a[..];
    a[hole] := val;
    assert a[..] == t[hole := val];
  }

  /** m is the index of the middle one of three elements; lo and hi are the other two. */
  method Median3<T(!new)>(a: array<T>, first: nat, middle: nat, last: nat, pred: Order<T>, ghost less: Order<T>)
    returns (m: nat, ghost lo: nat, ghost hi: nat)
    requires first < a.Length && middle < a.Length && last < a.Length && TotalOrder(less) && Decides(pred, less)
    ensures multiset{lo, m, hi} == multiset{first, middle, last}
    ensures m < a.Length && lo < a.Length && hi < a.Length && !less(a[m], a[lo]) && !less(a[hi], a[m])
  {
    var f, mid, l := first, middle, last;
    if pred(a[mid], a[f]) { mid, f := f, mid; }
    if pred(a[l], a[mid]) { l, mid := mid, l; }
    if pred(a[mid], a[f]) { mid, f := f, mid; }
    return mid, f, l;
  }

  method Partition3<T(==, !new)>(a: array<T>, begin: nat, end: nat, pivot: T, pred: Order<T>, ghost less: Order<T>)
    returns (eqbeg: nat, eqend: nat)
    requires begin <= end <= a.Length && TotalOrder(less) && Decides(pred, less)
    modifies a
    ensures Permuted(old(a[..]), a[..], begin, end)
    ensures Partitioned(pred, less, a[..], pivot, begin, eqbeg, eqend, end)
  {
    var eq, lt, gt := begin, begin, end;
    while lt < gt
      invariant begin <= eq <= lt <= gt <= end
      invariant forall k: nat :: begin <= k < eq ==> a[k] == pivot
      invariant forall k: nat :: eq <= k < lt ==> pred(a[k], pivot)
      invariant forall k: nat :: gt <= k < end ==> less(pivot, a[k])
      invariant Permuted(old(a[..]), a[..], begin, end)
      decreases gt - lt
    {
      ghost var s := a[..];
      if pred(a[lt], pivot) {
        lt := lt + 1;
      } else if a[lt] == pivot {
        Swap(a, eq, lt, begin, end);
        PermutedTrans(old(a[..]), s, a[..], begin, end);
        eq, lt := eq + 1, lt + 1;
      } else {
        gt := gt - 1;
        Swap(a, lt, gt, begin, end);
        PermutedTrans(old(a[..]), s, a[..], begin, end);
      }
    }
    ghost var s := a[..];
    eqbeg := MoveEqual(a, begin, eq, gt, end, pivot, pred, less);
    PermutedTrans(old(a[..]), s, a[..], begin, end);
    eqend := gt;
  }

  /** The equal elements of [begin, it) have changed places with the last ones of [begin, gt). */
  ghost predicate Moving<T(!new)>(
    pred: Order<T>, less: Order<T>, s: seq<T>, pivot: T, begin: nat, it: nat, eq: nat, gt: nat, end: nat) {
    && begin <= it <= eq <= gt <= end <= |s|
    && (forall k: nat :: gt - (it - begin) <= k < gt ==> s[k] == pivot)
    && (forall k: nat :: it <= k < eq ==> s[k] == pivot)
    && (forall k: nat :: eq <= k < gt - (it - begin) ==> pred(s[k], pivot))
    && (forall k: nat :: begin <= k < it ==> if k - begin < gt - eq then pred(s[k], pivot) else s[k] == pivot)
    && (forall k: nat :: gt <= k < end ==> less(pivot, s[k]))
  }

  lemma MovingStep<T(!new)>(
    pred: Order<T>, less: Order<T>, s: seq<T>, pivot: T, begin: nat, it: nat, eq: nat, gt: nat, end: nat)
    requires Moving(pred, less, s, pivot, begin, it, eq, gt, end) && it < eq
    ensures var eqbeg := gt - (it - begin) - 1;
            Moving(pred, less, s[it := s[eqbeg]][eqbeg := s[it]], pivot, begin, it + 1, eq, gt, end)
  {
  }

  lemma MovingEnd<T(!new)>(
    pred: Order<T>, less: Order<T>, s: seq<T>, pivot: T, begin: nat, eq: nat, gt: nat, end: nat)
    requires Moving(pred, less, s, pivot, begin, eq, eq, gt, end)
    ensures Partitioned(pred, less, s, pivot, begin, gt - (eq - begin), gt, end)
  {
  }

  method MoveOne<T(==, !new)>(
    a: array<T>, begin: nat, it: nat, ghost eq: nat, gt: nat, ghost end: nat, ghost pivot: T,
    ghost pred: Order<T>, ghost less: Order<T>)
    requires end <= a.Length && Moving(pred, less, a[..], pivot, begin, it, eq, gt, end) && it < eq
    modifies a
    ensures Permuted(old(a[..]), a[..], begin, end) && Moving(pred, less, a[..], pivot, begin, it + 1, eq, gt, end)
  {
    MovingStep(pred, less, a[..], pivot, begin, it, eq, gt, end);
    Swap(a, it, gt - (it - begin) - 1, begin, end);
  }

  /** Moves the equal elements at the front to the middle. */
  method MoveEqual<T(==, !new)>(
    a: array<T>, begin: nat, eq: nat, gt: nat, ghost end: nat, ghost pivot: T, ghost pred: Order<T>,
        ghost less: Order<T>)
    returns (eqbeg: nat)
    requires end <= a.Length && Moving(pred, less, a[..], pivot, begin, begin, eq, gt, end)
    modifies a
    ensures Permuted(old(a[..]), a[..], begin, end)
    ensures Partitioned(pred, less, a[..], pivot, begin, eqbeg, gt, end)
  {
    eqbeg := gt;
    var it := begin;
    while it != eq
      invariant begin <= it <= eq && eqbeg == gt - (it - begin)
      invariant Moving(pred, less, a[..], pivot, begin, it, eq, gt, end)
      invariant Permuted(old(a[..]), a[..], begin, end)
      decreases eq - it
    {
      ghost var s := a[..];
      MoveOne(a, begin, it, eq, gt, end, pivot, pred, less);
      PermutedTrans(old(a[..]), s, a[..], begin, end);
      it, eqbeg := it + 1, eqbeg - 1;
    }
    MovingEnd(pred, less, a[..], pivot, begin, eq, gt, end);
  }

  /** What Sort asks of a comparison and of the elements it compares. */
  ghost predicate Sortable<T(!new)>(pred: Order<T>, less: Order<T>, s: seq<T>, lo: nat, hi: nat) {
    TotalOrder(less) && Decides(pred, less) && (Strict(pred) || Single(s, lo, hi))
  }

  lemma SortablePart<T(!new)>(pred: Order<T>, less: Order<T>, s: seq<T>, t: seq<T>, lo: nat, b: nat, e: nat, hi: nat)
    requires Sortable(pred, less, s, lo, hi) && Permuted(s, t, lo, hi) && lo <= b <= e <= hi
    ensures Sortable(pred, less, t, b, e)
  {
    if !Strict(pred) { SinglePart(t, lo, b, e, hi); }
  }

  /**
    Sorts [begin0, end0).  `depth` counts the nested calls below this one: recursing only
    into the smaller side keeps it within the logarithm of the length.
   */
  method Sort<T(==, !new)>(a: array<T>, begin0: nat, end0: nat, pred: Order<T>, ghost less: Order<T>)
    returns (ghost depth: nat)
    requires begin0 <= end0 <= a.Length && Sortable(pred, less, a[..], begin0, end0)
    modifies a
    ensures Permuted(old(a[..]), a[..], begin0, end0)
    ensures Sorted(less, a[..], begin0, end0)
    ensures depth == 0 || Pow2(depth) <= end0 - begin0
    decreases end0 - begin0
  {
    var begin, end := begin0, end0;
    depth := 0;
    while end - begin > 16
      invariant begin0 <= begin <= end <= end0
      invariant Permuted(old(a[..]), a[..], begin0, end0)
      invariant SortedExcept(less, a[..], begin0, begin, end, end0)
      invariant depth == 0 || Pow2(depth) <= end0 - begin0
      decreases end - begin
    {
      ghost var s := a[..];
      ghost var d;
      SortablePart(pred, less, old(a[..]), s, begin0, begin, end, end0);
      begin, end, d := SortStep(a, begin0, begin, end, end0, pred, less);
      PermutedTrans(old(a[..]), s, a[..], begin0, end0);
      depth := if d > depth then d else depth;
    }
    ghost var s := a[..];
    InsertionSort(a, begin, end, pred, less);
    PermutedInside(less, s, a[..], begin0, begin, end, end0);
    PermutedWiden(s, a[..], begin, end, begin0, end0);
    PermutedTrans(old(a[..]), s, a[..], begin0, end0);
  }

  /** The loop body of Sort: partition, sort the smaller side, continue with the larger. */
  method SortStep<T(==, !new)>(
    a: array<T>, ghost begin0: nat, begin: nat, end: nat, ghost end0: nat, pred: Order<T>, ghost less: Order<T>)
    returns (begin': nat, end': nat, ghost depth: nat)
    requires begin0 <= begin <= end <= end0 <= a.Length && end - begin > 16
    requires Sortable(pred, less, a[..], begin, end) && SortedExcept(less, a[..], begin0, begin, end, end0)
    modifies a
    ensures begin <= begin' <= end' <= end && end' - begin' < end - begin
    ensures Permuted(old(a[..]), a[..], begin0, end0)
    ensures SortedExcept(less, a[..], begin0, begin', end', end0)
    ensures Pow2(depth) <= end0 - begin0
    decreases end0 - begin0, 2
  {
    ghost var s := a[..];
    var pivot, eqbeg, eqend := SplitRange(a, begin, end, pred, less);
    ghost var t := a[..];
    PermutedInside(less, s, t, begin0, begin, end, end0);
    PermutedWiden(s, t, begin, end, begin0, end0);
    SortablePart(pred, less, s, t, begin, begin, end, end);
    begin', end', depth := SmallerSide(a, begin0, begin, eqbeg, eqend, end, end0, pivot, pred, less);
    PermutedTrans(s, t, a[..], begin0, end0);
  }

  /** Partition by the middle one of three elements.  Neither side is the whole range. */
  method SplitRange<T(==, !new)>(a: array<T>, begin: nat, end: nat, pred: Order<T>, ghost less: Order<T>)
    returns (pivot: T, eqbeg: nat, eqend: nat)
    requires begin <= end <= a.Length && end - begin > 16 && Sortable(pred, less, a[..], begin, end)
    modifies a
    ensures Permuted(old(a[..]), a[..], begin, end)
    ensures Partitioned(pred, less, a[..], pivot, begin, eqbeg, eqend, end)
    ensures begin < eqend && eqbeg < end
  {
    var middle := begin + (end - begin) / 2;
    var median, lo, hi := Median3(a, begin, middle, end - 1, pred, less);
    MedianRange(median, lo, hi, begin, middle, end - 1);
    pivot := a[median];
    ghost var s := a[..];
    eqbeg, eqend := Partition3(a, begin, end, pivot, pred, less);
    PivotKept(pred, less, s, a[..], pivot, median, hi, begin, eqbeg, eqend, end);
  }

  lemma MedianRange(m: nat, lo: nat, hi: nat, first: nat, middle: nat, last: nat)
    requires multiset{lo, m, hi} == multiset{first, middle, last} && first < middle < last
    ensures first <= m <= last && first <= hi <= last && m != hi
  {
    assert m in multiset{first, middle, last} && hi in multiset{first, middle, last};
    assert multiset{first, middle, last}[m] == 1;
  }

  /** After a partition: sorts the smaller side and leaves the larger one. */
  method SmallerSide<T(==, !new)>(
    a: array<T>, ghost begin0: nat, begin: nat, eqbeg: nat, eqend: nat, end: nat, ghost end0: nat,
    ghost pivot: T, pred: Order<T>, ghost less: Order<T>)
    returns (begin': nat, end': nat, ghost depth: nat)
    requires begin0 <= begin <= eqbeg <= eqend <= end <= end0 <= a.Length && begin < eqend && eqbeg < end
    requires end - begin > 16 && Sortable(pred, less, a[..], begin, end)
    requires SortedExcept(less, a[..], begin0, begin, end, end0)
    requires Partitioned(pred, less, a[..], pivot, begin, eqbeg, eqend, end)
    modifies a
    ensures (begin' == begin && end' == eqbeg) || (begin' == eqend && end' == end)
    ensures Permuted(old(a[..]), a[..], begin0, end0)
    ensures SortedExcept(less, a[..], begin0, begin', end', end0)
    ensures Pow2(depth) <= end0 - begin0
    decreases end0 - begin0, 1
  {
    if eqbeg - begin > end - eqend {
      depth := SortSide(a, begin0, begin, eqbeg, eqend, end, end0, eqend, end, pivot, pred, less);
      begin', end' := begin, eqbeg;
    } else {
      depth := SortSide(a, begin0, begin, eqbeg, eqend, end, end0, begin, eqbeg, pivot, pred, less);
      begin', end' := eqend, end;
    }
  }

  /** Sorts [lo, hi), one side of a partition and not the larger one. */
  method SortSide<T(==, !new)>(
    a: array<T>, ghost begin0: nat, ghost begin: nat, ghost eqbeg: nat, ghost eqend: nat, ghost end: nat,
        ghost end0: nat,
    lo: nat, hi: nat, ghost pivot: T, pred: Order<T>, ghost less: Order<T>)
    returns (ghost depth: nat)
    requires begin0 <= begin <= eqbeg <= eqend <= end <= end0 <= a.Length && begin < eqend && eqbeg < end
    requires end - begin > 16 && Sortable(pred, less, a[..], begin, end)
    requires SortedExcept(less, a[..], begin0, begin, end, end0)
    requires Partitioned(pred, less, a[..], pivot, begin, eqbeg, eqend, end)
    requires ((lo == begin && hi == eqbeg) || (lo == eqend && hi == end)) && 2 * (hi - lo) <= end - begin
    modifies a
    ensures Permuted(old(a[..]), a[..], begin0, end0)
    ensures if lo == begin && hi == eqbeg then SortedExcept(less, a[..], begin0, eqend, end, end0)
            else SortedExcept(less, a[..], begin0, begin, eqbeg, end0)
    ensures Pow2(depth) <= end0 - begin0
    decreases end0 - begin0, 0
  {
    ghost var t := a[..];
    SortablePart(pred, less, t, t, begin, lo, hi, end);
    depth := Sort(a, lo, hi, pred, less);
    SideDone(pred, less, t, a[..], pivot, begin0, begin, eqbeg, eqend, end, end0, lo, hi);
    DepthGrows(depth, hi - lo, end0 - begin0);
    depth := depth + 1;
  }

  lemma DepthGrows(depth: nat, side: nat, n: nat)
    requires 2 * side <= n && n > 16 && (depth == 0 || Pow2(depth) <= side)
    ensures Pow2(depth + 1) <= n
  {
    assert Pow2(depth + 1) == 2 * Pow2(depth);
  }

  lemma SideDone<T(!new)>(
    pred: Order<T>, less: Order<T>, t: seq<T>, u: seq<T>, pivot: T,
    lo0: nat, b: nat, p: nat, q: nat, e: nat, hi0: nat, lo: nat, hi: nat)
    requires TotalOrder(less) && Decides(pred, less)
    requires lo0 <= b && e <= hi0 <= |t| && SortedExcept(less, t, lo0, b, e, hi0)
    requires Partitioned(pred, less, t, pivot, b, p, q, e) && ((lo == b && hi == p) || (lo == q && hi == e))
    requires Permuted(t, u, lo, hi) && Sorted(less, u, lo, hi)
    ensures Permuted(t, u, lo0, hi0)
    ensures if lo == b && hi == p then SortedExcept(less, u, lo0, q, e, hi0) else SortedExcept(less, u, lo0, b, p, hi0)
  {
    SideKept(pred, less, t, u, pivot, b, p, q, e, lo, hi);
    PermutedInside(less, t, u, lo0, b, e, hi0);
    SideSorted(pred, less, u, pivot, lo0, b, p, q, e, hi0);
    PermutedWiden(t, u, lo, hi, lo0, hi0);
  }

  /** The pivot, which came from the range, is not on the right, and it or a greater element is not on the left. */
  lemma PivotKept<T(!new)>(
    pred: Order<T>, less: Order<T>, s: seq<T>, t: seq<T>, pivot: T, m: nat, h: nat, b: nat, p: nat, q: nat, e: nat)
    requires Sortable(pred, less, s, b, e) && Permuted(s, t, b, e) && Partitioned(pred, less, t, pivot, b, p, q, e)
    requires b <= m < e && b <= h < e && m != h && s[m] == pivot && !less(s[h], pivot)
    ensures b < q && p < e
  {
    var j := PermutedFrom(t, s, b, e, m);
    assert !less(pivot, t[j]);
    if !Strict(pred) {
      SingleDiffers(s, b, e, if m < h then m else h, if m < h then h else m);
      var i := PermutedFrom(t, s, b, e, h);
      assert less(pivot, t[i]) && !pred(t[i], pivot);
    }
  }

  lemma SideKept<T(!new)>(
    pred: Order<T>, less: Order<T>, s: seq<T>, t: seq<T>, pivot: T, b: nat, p: nat, q: nat, e: nat, lo: nat, hi: nat)
    requires Partitioned(pred, less, s, pivot, b, p, q, e)
    requires Permuted(s, t, lo, hi) && ((lo == b && hi == p) || (lo == q && hi == e))
    ensures Partitioned(pred, less, t, pivot, b, p, q, e) && Permuted(s, t, b, e)
  {
    PartitionedKeeps(pred, less, s, t, pivot, b, p, q, e, lo, hi);
    PermutedWiden(s, t, lo, hi, b, e);
  }
}
