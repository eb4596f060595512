/** Options, sequences without repetition, and runs. */
module Collections {

  datatype Option<+T> = None | Some(value: T)

  predicate Distinct<T(==)>(q: seq<T>) {
    forall i, j :: 0 <= i < j < |q| ==> q[i] != q[j]
  }

  function Elems<T(==)>(q: seq<T>): set<T> { set x | x in q }

  lemma {:induction false} DistinctSize<T>(q: seq<T>)
    requires Distinct(q)
    ensures |Elems(q)| == |q|
  {
    if q != [] {
      DistinctSize(q[1..]);
      assert q == [q[0]] + q[1..];
      assert Elems(q) == Elems(q[1..]) + {q[0]};
      assert q[0] !in q[1..];
    }
  }

  /** x behind w, if that leaves w within the limit. */
  function Appended<T>(w: seq<T>, x: T, limit: nat): seq<T> { if |w| < limit then w + [x] else w }

  /** The numbers below n. */
  function Below(n: nat): (r: set<nat>)
    ensures forall i :: i in r <==> 0 <= i < n
  {
    if n == 0 then {} else Below(n - 1) + {n - 1}
  }

  lemma {:induction false} BelowSize(n: nat)
    ensures |Below(n)| == n
  {
    if n > 0 { BelowSize(n - 1); }
  }

  /** A run: every act leads from one state to the next. */
  ghost predicate Chain<S, L>(next: (S, L, S) -> bool, ss: seq<S>, acts: seq<L>) {
    |ss| == |acts| + 1 && forall i :: 0 <= i < |acts| ==> next(ss[i], acts[i], ss[i + 1])
  }

  lemma ChainCons<S, L>(next: (S, L, S) -> bool, s: S, act: L, ss: seq<S>, acts: seq<L>)
    requires Chain(next, ss, acts) && next(s, act, ss[0])
    ensures Chain(next, [s] + ss, [act] + acts) && ([s] + ss)[|[act] + acts|] == ss[|acts|]
  {
    var ss', acts' := [s] + ss, [act] + acts;
    forall i | 0 <= i < |acts'| ensures next(ss'[i], acts'[i], ss'[i + 1]) {
      if i > 0 {
        assert next(ss[i - 1], acts[i - 1], ss[i - 1 + 1]);
      }
    }
  }
}
