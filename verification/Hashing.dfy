/** The open-addressing hash table behind remove_duplicates (pugixml.cpp:7666-7689, 7782-7815, 9192-9228). */
module Hashing {
  import opened Arith
  import opened Collections
  import opened Documents
  import opened XPath

  // ---------------------------------------------------------------------
  // Triangular probing
  // ---------------------------------------------------------------------

  function Tri(i: nat): nat { if i == 0 then 0 else Tri(i - 1) + i }

  /** The i-th bucket probed from hash value h in a table of 2^k buckets. */
  function Bucket(h: nat, i: nat, k: nat): (b: nat)
    ensures b < Pow2(k)
  {
    LowIsMod(h + Tri(i), k);
    Low(h + Tri(i), k)
  }

  lemma {:induction false} LowDiff(x: nat, y: nat, k: nat)
    requires Low(x, k) == Low(y, k) && y <= x
    ensures Low(x - y, k) == 0
    decreases k
  {
    if k > 0 {
      LowDiff(x / 2, y / 2, k - 1);
      assert (x - y) / 2 == x / 2 - y / 2 && (x - y) % 2 == 0;
    }
  }

  lemma OddTimes(a: nat, b: nat)
    requires a % 2 == 1 && (a * b) % 2 == 0
    ensures b % 2 == 0 && (a * b) / 2 == a * (b / 2)
  {
    var c := a / 2;
    assert a == 2 * c + 1;
    assert a * b == 2 * (c * b) + b by { assert (2 * c + 1) * b == 2 * (c * b) + b; }
    assert b % 2 == 0;
    var d := b / 2;
    assert a * (2 * d) == 2 * (a * d);
  }

  /** An odd factor contributes nothing to divisibility by a power of two. */
  lemma {:induction false} OddFactor(a: nat, b: nat, k: nat)
    requires a % 2 == 1 && Low(a * b, k) == 0
    ensures Low(b, k) == 0
    decreases k
  {
    if k > 0 {
      OddTimes(a, b);
      OddFactor(a, b / 2, k - 1);
    }
  }

  lemma {:induction false} TriDouble(i: nat)
    ensures 2 * Tri(i) == i * (i + 1)
  {
    if i > 0 { TriDouble(i - 1); }
  }

  lemma TriDiff(i: nat, j: nat)
    requires j < i
    ensures Tri(j) <= Tri(i) && 2 * (Tri(i) - Tri(j)) == (i - j) * (i + j + 1)
  {
    TriDouble(i);
    TriDouble(j);
    assert i * (i + 1) - j * (j + 1) == (i - j) * (i + j + 1);
    assert (i - j) * (i + j + 1) >= 0;
  }

  /** Of two factors less than 2^k, one of them odd, the product is not a multiple of 2^k. */
  lemma NoMultiple(a: nat, b: nat, k: nat)
    requires a % 2 == 1 && 0 < b <= Ones(k)
    ensures Low(a * b, k) != 0
  {
    if Low(a * b, k) == 0 {
      OddFactor(a, b, k);
      LowSmall(b, k);
    }
  }

  lemma LowDouble(x: nat, k: nat)
    ensures Low(2 * x, k + 1) == 2 * Low(x, k)
  {
    assert (2 * x) / 2 == x && (2 * x) % 2 == 0;
  }

  /** Half the product of two numbers of different parity below 2^(k+1). */
  lemma HalfProduct(a: nat, b: nat, x: nat, k: nat)
    requires 2 * x == a * b && a % 2 != b % 2 && 0 < a <= Ones(k + 1) && 0 < b <= Ones(k + 1)
    ensures Low(x, k) != 0
  {
    LowDouble(x, k);
    if a % 2 == 1 {
      NoMultiple(a, b, k + 1);
    } else {
      assert b * a == a * b;
      NoMultiple(b, a, k + 1);
    }
  }

  lemma TriLow(i: nat, j: nat, k: nat)
    requires j < i <= Ones(k)
    ensures Tri(j) <= Tri(i) && Low(Tri(i) - Tri(j), k) != 0
  {
    TriDiff(i, j);
    Factors(i, j, k);
    HalfProduct(i - j, i + j + 1, Tri(i) - Tri(j), k);
  }

  lemma Factors(i: nat, j: nat, k: nat)
    requires j < i <= Ones(k)
    ensures (i - j) % 2 != (i + j + 1) % 2 && 0 < i - j <= Ones(k + 1) && 0 < i + j + 1 <= Ones(k + 1)
  {
    assert Ones(k + 1) == 2 * Ones(k) + 1;
    assert i + j + 1 == (i - j) + 2 * j + 1;
  }

  /** Within one round of 2^k probes no bucket comes up twice. */
  lemma ProbesDistinct(h: nat, i: nat, j: nat, k: nat)
    requires j < i < Pow2(k)
    ensures Bucket(h, i, k) != Bucket(h, j, k)
  {
    var x, y := Tri(i), Tri(j);
    TriDiff(i, j);
    TriLow(i, j, k);
    assert (h + x) - (h + y) == x - y;
    if Low(h + x, k) == Low(h + y, k) { LowDiff(h + x, h + y, k); }
  }

  /** n distinct numbers below n are all of them. */
  lemma Onto(q: seq<nat>, b: nat) returns (i: nat)
    requires Distinct(q)
    requires forall i :: 0 <= i < |q| ==> q[i] < |q|
    requires b < |q|
    ensures i < |q| && q[i] == b
  {
    DistinctSize(q);
    BelowSize(|q|);
    var s, t := Elems(q), Below(|q|);
    if b !in s {
      assert s + {b} <= t;
      SubsetSize(s + {b}, t);
    }
    i :| i < |q| && q[i] == b;
  }

  lemma SubsetSize(s: set<nat>, t: set<nat>)
    requires s <= t
    ensures |s| <= |t|
  {
    assert t == s + (t - s);
    assert |t| == |s| + |t - s|;
  }

  /** 2^k probes visit every bucket, each exactly once. */
  lemma ProbeVisitsEvery(h: nat, k: nat, b: nat) returns (i: nat)
    requires b < Pow2(k)
    ensures i < Pow2(k) && Bucket(h, i, k) == b
    ensures forall j: nat :: j < Pow2(k) && Bucket(h, j, k) == b ==> j == i
  {
    var q := seq(Pow2(k), i requires 0 <= i => Bucket(h, i, k));
    forall i: nat, j: nat | i < j < |q| ensures q[i] != q[j] { ProbesDistinct(h, j, i, k); }
    i := Onto(q, b);
    forall j: nat | j < Pow2(k) && Bucket(h, j, k) == b ensures j == i { assert q[j] == q[i]; }
  }

  lemma {:induction false} ModAddLeft(x: nat, p: nat, m: nat)
    requires m > 0
    ensures Mod(Mod(x, m) + p, m) == Mod(x + p, m)
  {
    if x >= m {
      ModAddLeft(x - m, p, m);
      ModShift(x - m + p, m);
    }
  }

  lemma AdvanceBy(x: nat, p: nat, k: nat)
    ensures BitAnd(Low(x, k) + p, Pow2(k) - 1) == Low(x + p, k)
  {
    MaskIsMod(Low(x, k) + p, k);
    LowIsMod(x, k);
    LowIsMod(x + p, k);
    ModAddLeft(x, p, Pow2(k));
  }

  /** `bucket = (bucket + probe + 1) & hashmod` advances to the next bucket of the sequence. */
  lemma NextBucket(h: nat, probe: nat, k: nat)
    ensures BitAnd(Bucket(h, probe, k) + probe + 1, Pow2(k) - 1) == Bucket(h, probe + 1, k)
    ensures BitAnd(h, Pow2(k) - 1) == Bucket(h, 0, k)
  {
    MaskIsMod(h, k);
    assert h + Tri(probe + 1) == (h + Tri(probe)) + (probe + 1);
    AdvanceBy(h + Tri(probe), probe + 1, k);
  }

  // ---------------------------------------------------------------------
  // The table
  // ---------------------------------------------------------------------

  /** The MurmurHash3 finalizer of the low 32 bits of a key. */
  function Hash(key: nat): nat {
    var h0: bv32 := (key % 0x1_0000_0000) as bv32;
    var h1 := (h0 ^ (h0 >> 16)) * 0x85ebca6b;
    var h2 := (h1 ^ (h1 >> 13)) * 0xc2b2ae35;
    (h2 ^ (h2 >> 16)) as nat
  }

  /** Every bucket probed before the i-th is taken. */
  predicate Solid(t: seq<nat>, h: nat, i: nat, k: nat)
    requires |t| == Pow2(k)
  {
    forall j: nat :: j < i ==> t[Bucket(h, j, k)] != 0
  }

  /** The key in bucket b is where its own probe sequence leads. */
  ghost predicate Placed(t: seq<nat>, b: nat, k: nat)
    requires |t| == Pow2(k) && b < |t|
  {
    exists i: nat :: i < |t| && Bucket(Hash(t[b]), i, k) == b && Solid(t, Hash(t[b]), i, k)
  }

  /** Null is 0. */
  ghost predicate Table(t: seq<nat>, k: nat) {
    && |t| == Pow2(k)
    && (forall b: nat :: b < |t| && t[b] != 0 ==> Placed(t, b, k))
  }

  function Keys(t: seq<nat>): set<nat> { set x | x in t && x != 0 }

  /** How many buckets are taken. */
  function Used(t: seq<nat>): nat {
    if t == [] then 0 else Used(t[1..]) + (if t[0] != 0 then 1 else 0)
  }

  lemma {:induction false} UsedUpdate(t: seq<nat>, b: nat, key: nat)
    requires b < |t| && t[b] == 0 && key != 0
    ensures Used(t[b := key]) == Used(t) + 1
  {
    if b > 0 {
      UsedUpdate(t[1..], b - 1, key);
      assert t[b := key][1..] == t[1..][b - 1 := key];
    } else {
      assert t[b := key][1..] == t[1..];
    }
  }

  lemma {:induction false} FreeBucket(t: seq<nat>) returns (b: nat)
    requires Used(t) < |t|
    ensures b < |t| && t[b] == 0
  {
    if t[0] == 0 { b := 0; } else { b := FreeBucket(t[1..]); b := b + 1; }
  }

  /** Key's first i buckets are taken by other keys. */
  predicate Passed(t: seq<nat>, key: nat, i: nat, k: nat)
    requires |t| == Pow2(k)
  {
    forall j: nat :: j < i ==> t[Bucket(Hash(key), j, k)] != 0 && t[Bucket(Hash(key), j, k)] != key
  }

  /** The first free bucket on key's path, with key not seen before it: key is not in the table. */
  lemma NotPresent(t: seq<nat>, key: nat, i: nat, k: nat)
    requires Table(t, k) && key != 0 && Passed(t, key, i, k) && t[Bucket(Hash(key), i, k)] == 0
    ensures key !in Keys(t)
  {
  }

  lemma PlacedKeeps(t: seq<nat>, b: nat, c: nat, key: nat, k: nat)
    requires Table(t, k) && b < |t| && c < |t| && t[b] == 0 && key != 0 && t[c] != 0
    ensures Placed(t[b := key], c, k)
  {
    var i: nat :| i < |t| && Bucket(Hash(t[c]), i, k) == c && Solid(t, Hash(t[c]), i, k);
    assert Solid(t[b := key], Hash(t[c]), i, k);
  }

  lemma KeysUpdate(t: seq<nat>, b: nat, key: nat)
    requires b < |t| && t[b] == 0 && key != 0
    ensures Keys(t[b := key]) == Keys(t) + {key}
  {
    var t' := t[b := key];
    forall x ensures x in Keys(t') <==> x in Keys(t) || x == key {
      if x in Keys(t) {
        var c: nat :| c < |t| && t[c] == x;
        assert t'[c] == x;
      }
      assert t'[b] == key;
    }
  }

  lemma InsertKeeps(t: seq<nat>, key: nat, i: nat, k: nat)
    requires Table(t, k) && key != 0 && i < |t| && Passed(t, key, i, k) && t[Bucket(Hash(key), i, k)] == 0
    ensures Table(t[Bucket(Hash(key), i, k) := key], k)
  {
    var b := Bucket(Hash(key), i, k);
    var t' := t[b := key];
    assert Solid(t', Hash(key), i, k);
    assert t'[b] == key && Bucket(Hash(t'[b]), i, k) == b;
    assert Placed(t', b, k);
    forall c: nat | c < |t'| && t'[c] != 0 ensures Placed(t', c, k) {
      if c != b { PlacedKeeps(t, b, c, key, k); }
    }
  }

  /** With a bucket free, a whole round of probes cannot miss it. */
  lemma RoundFindsFree(t: seq<nat>, key: nat, k: nat)
    requires |t| == Pow2(k) && Used(t) < |t|
    ensures !Passed(t, key, |t|, k)
  {
    var b := FreeBucket(t);
    var i := ProbeVisitsEvery(Hash(key), k, b);
  }

  predicate Inserted(t: seq<nat>, t': seq<nat>, key: nat) {
    Keys(t') == Keys(t) + {key} && Used(t') == Used(t) + if key in Keys(t) then 0 else 1
  }

  lemma InsertEffect(t: seq<nat>, key: nat, i: nat, b: nat, k: nat)
    requires Table(t, k) && key != 0 && i < |t| && Passed(t, key, i, k) && b == Bucket(Hash(key), i, k) && t[b] == 0
    ensures Table(t[b := key], k) && Inserted(t, t[b := key], key) && key !in Keys(t)
  {
    NotPresent(t, key, i, k);
    InsertKeeps(t, key, i, k);
    KeysUpdate(t, b, key);
    UsedUpdate(t, b, key);
  }

  lemma FoundEffect(t: seq<nat>, key: nat, b: nat)
    requires key != 0 && b < |t| && t[b] == key
    ensures Inserted(t, t, key) && key in Keys(t)
  {
    assert t[b] in Keys(t);
  }

  lemma NextProbe(t: seq<nat>, key: nat, i: nat, b: nat, k: nat)
    requires |t| == Pow2(k) && Passed(t, key, i, k) && b == Bucket(Hash(key), i, k) && t[b] != 0 && t[b] != key
    ensures BitAnd(b + i + 1, |t| - 1) == Bucket(Hash(key), i + 1, k) && Passed(t, key, i + 1, k)
  {
    NextBucket(Hash(key), i, k);
  }

  /** hash_insert: with a free bucket the table never reports itself full. */
  method HashInsert(table: array<nat>, key: nat, ghost k: nat) returns (added: bool)
    requires Table(table[..], k) && key != 0 && Used(table[..]) < table.Length
    modifies table
    ensures Table(table[..], k)
    ensures added <==> key !in Keys(old(table[..]))
    ensures Inserted(old(table[..]), table[..], key)
  {
    var h := Hash(key);
    var hashmod := table.Length - 1;
    var bucket := BitAnd(h, hashmod);
    NextBucket(h, 0, k);
    var probe := 0;
    ghost var t := table[..];
    while probe <= hashmod
      invariant 0 <= probe <= |t| && table[..] == t
      invariant bucket == Bucket(Hash(key), probe, k)
      invariant Passed(t, key, probe, k)
    {
      if table[bucket] == 0 {
        InsertEffect(t, key, probe, bucket, k);
        table[bucket] := key;
        assert table[..] == t[bucket := key];
        return true;
      }
      if table[bucket] == key {
        FoundEffect(t, key, bucket);
        return false;
      }
      NextProbe(t, key, probe, bucket, k);
      bucket := BitAnd(bucket + probe + 1, hashmod);
      probe := probe + 1;
    }
    RoundFindsFree(t, key, k);
    assert false;
  }

  // ---------------------------------------------------------------------
  // Removing duplicates
  // ---------------------------------------------------------------------

  function KeysOf<T(==)>(q: seq<T>, key: T -> nat): set<nat> { set x | x in q && key(x) != 0 :: key(x) }

  /** The elements with a key, each kept where the key first occurs. */
  function FirstByKey<T(==)>(q: seq<T>, key: T -> nat): seq<T> {
    if q == [] then []
    else
      var n := |q| - 1;
      FirstByKey(q[..n], key) + if key(q[n]) != 0 && key(q[n]) !in KeysOf(q[..n], key) then [q[n]] else []
  }

  /** Each element that differs from the one before it. */
  function Unique<T(==)>(q: seq<T>): seq<T> {
    if |q| <= 1 then q
    else
      var n := |q| - 1;
      Unique(q[..n]) + if q[n] != q[n - 1] then [q[n]] else []
  }

  lemma {:induction false} FirstByKeyShort<T>(q: seq<T>, key: T -> nat)
    ensures |FirstByKey(q, key)| <= |q|
  {
    if q != [] { FirstByKeyShort(q[..|q| - 1], key); }
  }

  method HashSize(n: nat) returns (size: nat, ghost k: nat)
    ensures size == Pow2(k) && size >= n + n / 2
    ensures size > 1 ==> size / 2 < n + n / 2
  {
    size, k := 1, 0;
    while size < n + n / 2
      invariant size == Pow2(k)
      invariant size > 1 ==> size / 2 < n + n / 2
      decreases n + n / 2 - size
    {
      size, k := size * 2, k + 1;
    }
  }

  lemma {:induction false} EmptyTable(t: seq<nat>)
    requires forall b :: 0 <= b < |t| ==> t[b] == 0
    ensures Used(t) == 0 && Keys(t) == {}
  {
    if t != [] {
      EmptyTable(t[1..]);
      assert t == [t[0]] + t[1..];
    }
  }

  /** The hash loop: a[..write] holds what is kept of the first it elements, and the rest is untouched. */
  ghost predicate Deduped<T>(a: seq<T>, q: seq<T>, t: seq<nat>, key: T -> nat, write: nat, it: nat) {
    && write <= it <= |q| <= |a|
    && a[..write] == FirstByKey(q[..it], key)
    && a[it..|q|] == q[it..]
    && Keys(t) == KeysOf(q[..it], key)
    && Used(t) <= it
  }

  lemma DedupedStep<T>(a: seq<T>, q: seq<T>, t: seq<nat>, t': seq<nat>, key: T -> nat, write: nat, it: nat)
    requires Deduped(a, q, t, key, write, it) && it < |q|
    requires if key(a[it]) == 0 then t' == t else Inserted(t, t', key(a[it]))
    ensures a[it] == q[it]
    ensures if key(a[it]) != 0 && key(a[it]) !in Keys(t)
            then Deduped(a[write := a[it]], q, t', key, write + 1, it + 1)
            else Deduped(a, q, t', key, write, it + 1)
  {
    assert a[it] == a[it..|q|][0] == q[it];
    var p, p' := q[..it], q[..it + 1];
    assert p'[..it] == p && p'[it] == q[it];
    assert KeysOf(p', key) == KeysOf(p, key) + (if key(q[it]) == 0 then {} else {key(q[it])}) by {
      assert p' == p + [q[it]];
    }
    var a' := a[write := a[it]];
    assert a'[..write + 1] == a[..write] + [q[it]];
    assert a'[it + 1..|q|] == a[it..|q|][1..] == q[it + 1..];
    assert a[it + 1..|q|] == a[it..|q|][1..];
  }

  lemma DedupedStart<T>(a: seq<T>, q: seq<T>, t: seq<nat>, key: T -> nat)
    requires |q| <= |a| && a[..|q|] == q && Used(t) == 0 && Keys(t) == {}
    ensures Deduped(a, q, t, key, 0, 0)
  {
  }

  lemma DedupedEnd<T>(a: seq<T>, q: seq<T>, t: seq<nat>, key: T -> nat, write: nat)
    requires Deduped(a, q, t, key, write, |q|)
    ensures a[..write] == FirstByKey(q, key)
  {
    assert q[..|q|] == q;
  }

  method HashDedupe<T(==)>(a: array<T>, n: nat, key: T -> nat) returns (end: nat)
    requires n <= a.Length
    modifies a
    ensures end <= n && a[..end] == FirstByKey(old(a[..n]), key)
  {
    var size, k := HashSize(n);
    var table := new nat[size](_ => 0);
    EmptyTable(table[..]);
    DedupedStart(a[..], a[..n], table[..], key);
    end := DedupeLoop(a, n, key, table, k);
  }

  method DedupeLoop<T(==)>(a: array<T>, n: nat, key: T -> nat, table: array<nat>, ghost k: nat) returns (end: nat)
    requires n <= a.Length && n <= table.Length && Table(table[..], k)
    requires Deduped(a[..], a[..n], table[..], key, 0, 0) && a as object != table as object
    modifies a, table
    ensures end <= n && a[..end] == FirstByKey(old(a[..n]), key)
  {
    ghost var q := a[..n];
    end := 0;
    var it := 0;
    while it != n
      invariant 0 <= it <= n && end <= it
      invariant Table(table[..], k)
      invariant Deduped(a[..], q, table[..], key, end, it)
      decreases n - it
    {
      ghost var t, s := table[..], a[..];
      var x := key(a[it]);
      var added := false;
      if x != 0 { added := HashInsert(table, x, k); }
      DedupedStep(s, q, t, table[..], key, end, it);
      if added {
        a[end] := a[it];
        assert a[..] == s[end := s[it]];
        end := end + 1;
      }
      it := it + 1;
    }
    DedupedEnd(a[..], q, table[..], key, end);
  }

  lemma UniqueStep<T>(q: seq<T>, i: nat)
    requires 0 < i < |q|
    ensures Unique(q[..i + 1]) == Unique(q[..i]) + if q[i] != q[i - 1] then [q[i]] else []
  {
    var p := q[..i + 1];
    assert p[..i] == q[..i];
  }

  /** a[..write + 1] is what unique keeps of the first `begin` elements. */
  ghost predicate Merging<T>(a: seq<T>, q: seq<T>, write: nat, begin: nat) {
    && write < begin <= |q| <= |a|
    && a[..write + 1] == Unique(q[..begin])
    && a[write] == q[begin - 1]
    && a[begin..|q|] == q[begin..]
  }

  lemma SkipStep<T>(q: seq<T>, i: nat)
    requires i + 1 < |q| && Unique(q[..i + 1]) == q[..i + 1] && q[i] != q[i + 1]
    ensures Unique(q[..i + 2]) == q[..i + 2]
  {
    UniqueStep(q, i + 1);
    assert q[..i + 2] == q[..i + 1] + [q[i + 1]];
  }

  lemma MergingStart<T>(a: seq<T>, q: seq<T>, i: nat)
    requires i < |q| <= |a| && a[..|q|] == q && Unique(q[..i + 1]) == q[..i + 1]
    ensures Merging(a, q, i, i + 1)
  {
    assert a[..i + 1] == a[..|q|][..i + 1];
    assert a[..|q|][i] == q[i];
  }

  lemma MergingStep<T>(a: seq<T>, q: seq<T>, write: nat, begin: nat)
    requires Merging(a, q, write, begin) && begin < |q|
    ensures if a[begin] != a[write] then Merging(a[write + 1 := a[begin]], q, write + 1, begin + 1)
            else Merging(a, q, write, begin + 1)
  {
    UniqueStep(q, begin);
    assert a[begin] == a[begin..|q|][0] == q[begin];
    var a' := a[write + 1 := a[begin]];
    assert a'[..write + 2] == a[..write + 1] + [q[begin]];
    assert a'[begin + 1..|q|] == a[begin..|q|][1..] == q[begin + 1..];
    assert a[begin + 1..|q|] == a[begin..|q|][1..];
  }

  lemma MergingEnd<T>(a: seq<T>, q: seq<T>, write: nat)
    requires Merging(a, q, write, |q|)
    ensures a[..write + 1] == Unique(q)
  {
    assert q[..|q|] == q;
  }

  /** The fast skip over a head without equal neighbours. */
  method SkipHead<T(==)>(a: array<T>, n: nat) returns (begin: nat)
    requires n <= a.Length
    ensures if n == 0 then begin == 0 else begin < n && Unique(a[..n][..begin + 1]) == a[..n][..begin + 1]
    ensures begin + 1 < n ==> a[begin] == a[begin + 1]
  {
    begin := 0;
    ghost var q := a[..n];
    assert n > 0 ==> Unique(q[..1]) == q[..1];
    while n - begin > 1 && a[begin] != a[begin + 1]
      invariant begin <= n && (begin == n ==> n == 0)
      invariant begin < n ==> Unique(q[..begin + 1]) == q[..begin + 1]
    {
      SkipStep(q, begin);
      begin := begin + 1;
    }
  }

  method MergeOne<T(==)>(a: array<T>, ghost q: seq<T>, write: nat, begin: nat) returns (write': nat)
    requires Merging(a[..], q, write, begin) && begin < |q|
    modifies a
    ensures write' <= begin && Merging(a[..], q, write', begin + 1)
  {
    ghost var s := a[..];
    MergingStep(s, q, write, begin);
    write' := write;
    if a[begin] != a[write] {
      write' := write + 1;
      a[write'] := a[begin];
      assert a[..] == s[write' := s[begin]];
    }
  }

  method MergeRest<T(==)>(a: array<T>, n: nat, first: nat, ghost q: seq<T>) returns (write: nat)
    requires first < n == |q| <= a.Length && Merging(a[..], q, first, first + 1)
    modifies a
    ensures write < n && Merging(a[..], q, write, n)
  {
    write := first;
    var begin := first + 1;
    while begin != n
      invariant write < begin <= n
      invariant Merging(a[..], q, write, begin)
      decreases n - begin
    {
      write := MergeOne(a, q, write, begin);
      begin := begin + 1;
    }
  }

  /** unique: equal neighbours are merged in place. */
  method UniqueInPlace<T(==)>(a: array<T>, n: nat) returns (end: nat)
    requires n <= a.Length
    modifies a
    ensures end <= n && a[..end] == Unique(old(a[..n]))
  {
    var begin := SkipHead(a, n);
    if begin == n { return begin; }
    ghost var q := a[..n];
    MergingStart(a[..], q, begin);
    var write := MergeRest(a, n, begin, q);
    MergingEnd(a[..], q, write);
    end := write + 1;
    assert a[..end] == a[..][..end];
  }

  /** remove_duplicates on a node set of n nodes; `key` is the address of a node's attribute or element, 0 for none. */
  method RemoveDuplicates<T(==)>(a: array<T>, n: nat, key: T -> nat, unsorted: bool) returns (end: nat)
    requires n <= a.Length
    modifies a
    ensures end <= n
    ensures a[..end] == if unsorted && n > 2 then FirstByKey(old(a[..n]), key) else Unique(old(a[..n]))
  {
    if unsorted && n > 2 { end := HashDedupe(a, n, key); } else { end := UniqueInPlace(a, n); }
  }

  // ---------------------------------------------------------------------
  // What is left is the first occurrence of each node
  // ---------------------------------------------------------------------

  /** Distinct nodes have distinct addresses, and none is null. */
  ghost predicate Addresses(q: seq<XNode>, key: XNode -> nat) {
    && (forall x :: x in q ==> key(x) != 0)
    && (forall x, y :: x in q && y in q && key(x) == key(y) ==> x == y)
  }

  lemma {:induction false} FirstByKeyIsDedupe(q: seq<XNode>, key: XNode -> nat)
    requires Addresses(q, key)
    ensures FirstByKey(q, key) == Dedupe(q)
  {
    if q != [] {
      var n := |q| - 1;
      FirstByKeyIsDedupe(q[..n], key);
      assert q[n] in q && forall x :: x in q[..n] ==> x in q;
      assert q[n] in q[..n] <==> key(q[n]) in KeysOf(q[..n], key);
    }
  }

  /** Equal nodes stand next to each other, as in any sorted set. */
  predicate Grouped(q: seq<XNode>) {
    forall i, j :: 0 <= i < j < |q| && q[i] == q[j] ==> q[j - 1] == q[j]
  }

  lemma {:induction false} UniqueIsDedupe(q: seq<XNode>)
    requires Grouped(q)
    ensures Unique(q) == Dedupe(q)
  {
    if |q| == 1 {
      assert Dedupe(q[..0]) == [] && q == [q[0]];
    } else if |q| > 1 {
      var n := |q| - 1;
      UniqueIsDedupe(q[..n]);
      GroupedLast(q);
    }
  }

  lemma GroupedLast(q: seq<XNode>)
    requires Grouped(q) && |q| > 1
    ensures var n := |q| - 1; q[n] in q[..n] <==> q[n] == q[n - 1]
  {
    var n := |q| - 1;
    assert q[..n][n - 1] == q[n - 1];
    if q[n] in q[..n] {
      var i :| 0 <= i < n && q[..n][i] == q[n];
      assert q[i] == q[n];
    }
  }

  /**
    Any set of at most two nodes, any set with equal nodes adjacent, and any unsorted set keep exactly
    the first occurrences.
   */
  lemma RemoveDuplicatesIsDedupe(q: seq<XNode>, key: XNode -> nat, unsorted: bool)
    requires Addresses(q, key) && (!unsorted ==> Grouped(q))
    ensures (if unsorted && |q| > 2 then FirstByKey(q, key) else Unique(q)) == Dedupe(q)
  {
    if unsorted && |q| > 2 {
      FirstByKeyIsDedupe(q, key);
    } else {
      assert Grouped(q);
      UniqueIsDedupe(q);
    }
  }

  predicate FirstAt(q: seq<XNode>, i: nat) { i < |q| && q[i] !in q[..i] }

  /** idx lists, in order, the positions in q that hold a node for the first time. */
  ghost predicate Firsts(q: seq<XNode>, idx: seq<nat>) {
    && (forall i: nat :: i < |idx| ==> FirstAt(q, idx[i]))
    && (forall i: nat, j: nat :: i < j < |idx| ==> idx[i] < idx[j])
    && (forall m: nat :: FirstAt(q, m) ==> m in idx)
  }

  /** r is q read at the positions idx. */
  predicate ReadsAt(r: seq<XNode>, q: seq<XNode>, idx: seq<nat>) {
    |r| == |idx| && forall i: nat :: i < |idx| ==> idx[i] < |q| && r[i] == q[idx[i]]
  }

  lemma FirstsStep(q: seq<XNode>, idx: seq<nat>)
    requires q != [] && Firsts(q[..|q| - 1], idx)
    ensures var n := |q| - 1; Firsts(q, if q[n] in q[..n] then idx else idx + [n])
  {
    var n := |q| - 1;
    forall m: nat | m < n ensures FirstAt(q, m) == FirstAt(q[..n], m) { assert q[..m] == q[..n][..m]; }
    assert forall i: nat :: i < |idx| ==> FirstAt(q, idx[i]);
    if q[n] !in q[..n] {
      var idx' := idx + [n];
      assert idx'[|idx|] == n;
      forall m: nat | FirstAt(q, m) ensures m in idx' { assert m < n ==> m in idx; }
    }
  }

  lemma ReadsStep(r: seq<XNode>, q: seq<XNode>, idx: seq<nat>)
    requires q != [] && ReadsAt(r, q[..|q| - 1], idx)
    ensures ReadsAt(r, q, idx) && ReadsAt(r + [q[|q| - 1]], q, idx + [|q| - 1])
  {
    forall i: nat | i < |idx| ensures r[i] == q[idx[i]] { assert r[i] == q[..|q| - 1][idx[i]]; }
  }

  /** Dedupe reads off, in order, exactly the positions that hold a node for the first time. */
  lemma {:induction false} DedupeIsFirsts(q: seq<XNode>) returns (idx: seq<nat>)
    ensures Firsts(q, idx) && ReadsAt(Dedupe(q), q, idx)
  {
    if q == [] {
      idx := [];
    } else {
      var n := |q| - 1;
      idx := DedupeIsFirsts(q[..n]);
      FirstsStep(q, idx);
      ReadsStep(Dedupe(q[..n]), q, idx);
      if q[n] !in q[..n] { idx := idx + [n]; }
    }
  }
}
