/** Indented command lists become command trees (Utils/CommandParser/CommandParser.cpp:18-85). */
module CommandTree {

  datatype Entry = Entry(name: string, description: string)

  /** An array of commands, grown at its end.  A command without the "subcommands" key has Empty subs. */
  datatype Forest = Empty | Snoc(front: Forest, entry: Entry, subs: Forest)

  // ---------------------------------------------------------------------
  // One line
  // ---------------------------------------------------------------------

  function LeadingSpaces(s: string): (n: nat)
    ensures n <= |s|
  {
    if s == "" || s[0] != ' ' then 0 else 1 + LeadingSpaces(s[1..])
  }

  function WordLength(s: string): (n: nat)
    ensures n <= |s|
  {
    if s == "" || s[0] == ' ' then 0 else 1 + WordLength(s[1..])
  }

  function Level(line: string): nat { LeadingSpaces(line) / 4 }

  function Unindented(s: string): string { s[LeadingSpaces(s)..] }

  /** The first word, and what follows it without the spaces between. */
  function WordAndRest(name: string, t: string): Entry {
    Entry(name + t[..WordLength(t)], Unindented(t[WordLength(t)..]))
  }

  function Harvest(line: string): Entry { WordAndRest("", Unindented(line)) }

  lemma LeadingStep(line: string, i: nat)
    requires i < |line|
    ensures line[i..] != "" && line[i..][0] == line[i] && line[i..][1..] == line[i + 1..]
    ensures LeadingSpaces(line[i..]) == if line[i] == ' ' then 1 + LeadingSpaces(line[i + 1..]) else 0
  {
    assert line[i..][1..] == line[i + 1..];
  }

  method GetLevel(line: string) returns (indent: nat)
    ensures indent == Level(line)
  {
    var space := 0;
    indent := 0;
    assert line[0..] == line;
    for i := 0 to |line|
      invariant 0 <= space < 4 && 4 * indent + space == i
      invariant LeadingSpaces(line) == i + LeadingSpaces(line[i..])
    {
      LeadingStep(line, i);
      if line[i] == ' ' { space := space + 1; }
      if space == 4 { space, indent := 0, indent + 1; }
      if line[i] != ' ' { return indent; }
    }
  }

  /** What the loop of harvestCommand will return, from its variables and the characters still to come. */
  function EntryOf(noIndent: bool, nam: bool, decSpace: bool, name: string, description: string, rest: string): Entry {
    if !noIndent then WordAndRest(name, Unindented(rest))
    else if !nam then WordAndRest(name, rest)
    else if decSpace then Entry(name, Unindented(rest))
    else Entry(name, description + rest)
  }

  lemma WordStep(name: string, t: string)
    requires t != ""
    ensures t[0] != ' ' ==> WordAndRest(name, t) == WordAndRest(name + [t[0]], t[1..])
    ensures t[0] == ' ' ==> WordAndRest(name, t) == Entry(name, Unindented(t[1..]))
  {
    if t[0] != ' ' {
      var n := WordLength(t[1..]);
      assert t[1 + n..] == t[1..][n..];
      assert name + t[..1 + n] == name + [t[0]] + t[1..][..n];
    } else {
      assert t[..0] == "" && name + "" == name && t[0..] == t;
      assert t[1 + LeadingSpaces(t[1..])..] == t[1..][LeadingSpaces(t[1..])..];
    }
  }

  lemma UnindentStep(t: string)
    requires t != ""
    ensures Unindented(t) == if t[0] == ' ' then Unindented(t[1..]) else t
  {
    assert t[0..] == t;
    if t[0] == ' ' { assert t[1 + LeadingSpaces(t[1..])..] == t[1..][LeadingSpaces(t[1..])..]; }
  }

  lemma FinishStep(noIndent: bool, nam: bool, decSpace: bool, name: string, description: string, t: string)
    requires t != "" && (nam ==> noIndent) && (decSpace ==> description == "") && (!nam ==> decSpace)
    ensures var noIndent' := noIndent || t[0] != ' ';
            var nam' := nam || (noIndent' && t[0] == ' ');
            var decSpace' := decSpace && !(nam && t[0] != ' ');
            var name' := if !nam && noIndent' && t[0] != ' ' then name + [t[0]] else name;
            var description' := if nam && !decSpace' then description + [t[0]] else description;
            EntryOf(noIndent, nam, decSpace, name, description, t) ==
                EntryOf(noIndent', nam', decSpace', name', description', t[1..])
  {
    assert t == [t[0]] + t[1..];
    if !nam {
      WordStep(name, t);
      if !noIndent { UnindentStep(t); }
    } else if decSpace {
      UnindentStep(t);
      assert [] + [t[0]] + t[1..] == t;
    } else {
      assert description + t == description + [t[0]] + t[1..];
    }
  }

  method HarvestCommand(line: string) returns (e: Entry)
    ensures e == Harvest(line)
  {
    var noIndent, nam, decSpace := false, false, true;
    var name, description := "", "";
    assert line[0..] == line;
    for i := 0 to |line|
      invariant (nam ==> noIndent) && (decSpace ==> description == "") && (!nam ==> decSpace)
      invariant EntryOf(noIndent, nam, decSpace, name, description, line[i..]) == Harvest(line)
    {
      var ch := line[i];
      LeadingStep(line, i);
      FinishStep(noIndent, nam, decSpace, name, description, line[i..]);
      if ch != ' ' { noIndent := true; }
      if nam {
        if ch != ' ' { decSpace := false; }
        if !decSpace { description := description + [ch]; }
      } else if noIndent {
        if ch != ' ' { name := name + [ch]; } else { nam := true; }
      }
    }
    assert line[|line|..] == "";
    e := Entry(name, description);
  }

  // ---------------------------------------------------------------------
  // Trees
  // ---------------------------------------------------------------------

  function Size(f: Forest): nat { if f.Empty? then 0 else Size(f.front) + 1 + Size(f.subs) }

  /** The entries in preorder. */
  function Flat(f: Forest): (r: seq<Entry>)
    ensures |r| == Size(f)
  {
    if f.Empty? then [] else Flat(f.front) + [f.entry] + Flat(f.subs)
  }

  /** For each node in preorder the index of its parent, where the forest starts at index `base` below parent p. */
  function Parents(f: Forest, base: nat, p: int): (r: seq<int>)
    ensures |r| == Size(f)
    decreases f
  {
    if f.Empty? then []
    else
      var m := base + Size(f.front);
      Parents(f.front, base, p) + [p] + Parents(f.subs, m + 1, m)
  }

  /** p is the nearest position before k at a smaller level, or -1 if there is none. */
  predicate Nearest(lv: seq<nat>, k: nat, p: int) {
    && k < |lv| && -1 <= p < k
    && (p >= 0 ==> lv[p] < lv[k])
    && forall j: nat :: p < j < k ==> lv[j] >= lv[k]
  }

  function Levels(lines: seq<string>): (lv: seq<nat>)
    ensures |lv| == |lines|
  {
    seq(|lines|, i requires 0 <= i < |lines| => Level(lines[i]))
  }

  function Entries(lines: seq<string>): (es: seq<Entry>)
    ensures |es| == |lines|
  {
    seq(|lines|, i requires 0 <= i < |lines| => Harvest(lines[i]))
  }

  /** In preorder f lists the entries, and every parent is the nearest earlier position further out. */
  predicate TreeOf(lv: seq<nat>, es: seq<Entry>, f: Forest) {
    && Size(f) == |lv| && Flat(f) == es
    && forall k: nat :: k < |lv| ==> Nearest(lv, k, Parents(f, 0, -1)[k])
  }

  // ---------------------------------------------------------------------
  // Building the tree
  // ---------------------------------------------------------------------

  /** f holds the entries base..index, under the node at base - 1. */
  predicate Built(lv: seq<nat>, es: seq<Entry>, f: Forest, base: nat, index: nat)
    requires |lv| == |es|
    decreases f
  {
    && index <= |lv|
    && if f.Empty? then base == index
       else
         var m := base + Size(f.front);
         && m < index && Built(lv, es, f.front, base, m)
         && f.entry == es[m] && Nearest(lv, m, base - 1)
         && Built(lv, es, f.subs, m + 1, index)
  }

  lemma {:induction false} BuiltSize(lv: seq<nat>, es: seq<Entry>, f: Forest, base: nat, index: nat)
    requires |lv| == |es| && Built(lv, es, f, base, index)
    ensures base + Size(f) == index
    decreases f
  {
    if f.Snoc? { BuiltSize(lv, es, f.subs, base + Size(f.front) + 1, index); }
  }

  lemma {:induction false} BuiltFlat(lv: seq<nat>, es: seq<Entry>, f: Forest, base: nat, index: nat, k: nat)
    requires |lv| == |es| && Built(lv, es, f, base, index) && base <= k < index && base + Size(f) == index
    ensures Flat(f)[k - base] == es[k]
    decreases f
  {
    var m := base + Size(f.front);
    Joined(Flat(f.front), f.entry, Flat(f.subs), k - base);
    if k < m {
      BuiltFlat(lv, es, f.front, base, m, k);
    } else if k > m {
      BuiltFlat(lv, es, f.subs, m + 1, index, k);
    }
  }

  lemma {:induction false} BuiltParents(lv: seq<nat>, es: seq<Entry>, f: Forest, base: nat, index: nat, k: nat)
    requires |lv| == |es| && Built(lv, es, f, base, index) && base <= k < index && base + Size(f) == index
    ensures Nearest(lv, k, Parents(f, base, base - 1)[k - base])
    decreases f
  {
    var m := base + Size(f.front);
    Joined(Parents(f.front, base, base - 1), base - 1, Parents(f.subs, m + 1, m), k - base);
    if k < m {
      BuiltParents(lv, es, f.front, base, m, k);
    } else if k > m {
      BuiltParents(lv, es, f.subs, m + 1, index, k);
    }
  }

  lemma Joined<T>(a: seq<T>, x: T, b: seq<T>, i: nat)
    requires i < |a| + 1 + |b|
    ensures (a + [x] + b)[i] == if i < |a| then a[i] else if i == |a| then x else b[i - |a| - 1]
  {
  }

  /** All of lv[i..j] is at least l. */
  predicate AtLeast(lv: seq<nat>, i: nat, j: nat, l: nat) {
    j <= |lv| && forall k: nat :: i <= k < j ==> lv[k] >= l
  }

  /**
    The last command of the list was read at level l, and a deeper line that comes next is no deeper
    than its subcommands.
   */
  predicate LastAt(lv: seq<nat>, f: Forest, base: nat, index: nat, l: nat) {
    && f.Snoc? && index <= |lv|
    && var m := base + Size(f.front);
    && m < index && lv[m] == l
    && (index < |lv| && lv[index] > l ==> AtLeast(lv, m + 1, index, lv[index]))
  }

  /** A list of commands read at level l or deeper, below a node further out. */
  predicate Listing(lv: seq<nat>, es: seq<Entry>, f: Forest, base: nat, index: nat, l: nat)
    requires |lv| == |es|
  {
    && Built(lv, es, f, base, index) && AtLeast(lv, base, index, l)
    && (base > 0 ==> base <= index && lv[base - 1] < l)
  }

  /** A line at the level of the list becomes its last command. */
  lemma Pushed(lv: seq<nat>, es: seq<Entry>, f: Forest, base: nat, index: nat, l: nat)
    requires |lv| == |es| && index < |lv| && lv[index] == l
    requires Listing(lv, es, f, base, index, l)
    ensures var f' := Snoc(f, es[index], Empty);
            Listing(lv, es, f', base, index + 1, l) && LastAt(lv, f', base, index + 1, l)
  {
    BuiltSize(lv, es, f, base, index);
  }

  /** Deeper lines go below the last command. */
  lemma Descended(
      lv: seq<nat>, es: seq<Entry>, f: Forest, subs: Forest, base: nat, index: nat, index': nat, l: nat,
      level: nat)
    requires |lv| == |es| && Listing(lv, es, f, base, index, l) && LastAt(lv, f, base, index, l)
    requires l < level && index < index' && (index' < |lv| ==> lv[index'] < level)
    requires Listing(lv, es, subs, base + Size(f.front) + 1, index', level)
    ensures var f' := f.(subs := subs); Listing(lv, es, f', base, index', l) && LastAt(lv, f', base, index', l)
  {
  }

  method ProcessCommands(lines: seq<string>, index0: nat, currentLevel: nat, parent0: Forest,
                         ghost lv: seq<nat>, ghost es: seq<Entry>, ghost base: nat)
    returns (index: nat, parent: Forest)
    requires lv == Levels(lines) && es == Entries(lines)
    requires index0 < |lines| && lv[index0] == currentLevel
    requires Listing(lv, es, parent0, base, index0, currentLevel)
    ensures index0 < index && (index < |lines| ==> lv[index] < currentLevel)
    ensures Listing(lv, es, parent, base, index, currentLevel)
    decreases |lines| - index0, 0
  {
    index, parent := index0, parent0;
    while index < |lines|
      invariant index0 <= index
      invariant index == index0 || LastAt(lv, parent, base, index, currentLevel)
      invariant Listing(lv, es, parent, base, index, currentLevel)
      decreases |lines| - index
    {
      var level := GetLevel(lines[index]);
      if level == currentLevel {
        index, parent := PushLine(lines, index, currentLevel, parent, lv, es, base);
      } else if level > currentLevel {
        index, parent := Descend(lines, index, currentLevel, level, parent, lv, es, base);
      } else {
        break;
      }
    }
  }

  method PushLine(
      lines: seq<string>, index: nat, currentLevel: nat, parent: Forest, ghost lv: seq<nat>,
      ghost es: seq<Entry>, ghost base: nat)
    returns (index': nat, parent': Forest)
    requires lv == Levels(lines) && es == Entries(lines) && index < |lines| && lv[index] == currentLevel
    requires Listing(lv, es, parent, base, index, currentLevel)
    ensures index' == index + 1 && LastAt(lv, parent', base, index', currentLevel)
    ensures Listing(lv, es, parent', base, index', currentLevel)
  {
    var e := HarvestCommand(lines[index]);
    Pushed(lv, es, parent, base, index, currentLevel);
    index', parent' := index + 1, Snoc(parent, e, Empty);
  }

  /** The recursive call on the subcommands of the last command. */
  method Descend(lines: seq<string>, index: nat, currentLevel: nat, level: nat, parent: Forest,
                 ghost lv: seq<nat>, ghost es: seq<Entry>, ghost base: nat)
    returns (index': nat, parent': Forest)
    requires lv == Levels(lines) && es == Entries(lines) && index < |lines| && currentLevel < level == lv[index]
    requires Listing(lv, es, parent, base, index, currentLevel) && LastAt(lv, parent, base, index, currentLevel)
    ensures index < index' && LastAt(lv, parent', base, index', currentLevel)
    ensures Listing(lv, es, parent', base, index', currentLevel)
    decreases |lines| - index, 1
  {
    var subs;
    index', subs := ProcessCommands(lines, index, level, parent.subs, lv, es, base + Size(parent.front) + 1);
    Descended(lv, es, parent, subs, base, index, index', currentLevel, level);
    parent' := parent.(subs := subs);
  }

  /** The whole file: the first line must not be indented. */
  method ParseCommands(lines: seq<string>) returns (output: Forest)
    requires lines != [] ==> Level(lines[0]) == 0
    ensures TreeOf(Levels(lines), Entries(lines), output)
  {
    output := Empty;
    var index := 0;
    ghost var lv, es := Levels(lines), Entries(lines);
    while index < |lines|
      invariant index == 0 || index == |lines|
      invariant Built(lv, es, output, 0, index) && (index == 0 ==> output == Empty)
      decreases |lines| - index
    {
      index, output := ProcessCommands(lines, index, 0, output, lv, es, 0);
    }
    BuiltTree(lv, es, output);
  }

  lemma BuiltTree(lv: seq<nat>, es: seq<Entry>, f: Forest)
    requires |lv| == |es| && Built(lv, es, f, 0, |lv|)
    ensures TreeOf(lv, es, f)
  {
    BuiltSize(lv, es, f, 0, |lv|);
    forall k: nat | k < |lv| ensures Flat(f)[k] == es[k] && Nearest(lv, k, Parents(f, 0, -1)[k]) {
      BuiltFlat(lv, es, f, 0, |lv|, k);
      BuiltParents(lv, es, f, 0, |lv|, k);
    }
  }

  // ---------------------------------------------------------------------
  // Preorder and parents determine the tree
  // ---------------------------------------------------------------------

  lemma {:induction false} ParentsRange(f: Forest, base: nat, p: int, k: nat)
    requires k < Size(f)
    ensures Parents(f, base, p)[k] == p || Parents(f, base, p)[k] >= base
    decreases f
  {
    var m := base + Size(f.front);
    Joined(Parents(f.front, base, p), p, Parents(f.subs, m + 1, m), k);
    if base + k < m { ParentsRange(f.front, base, p, k); }
    if base + k > m { ParentsRange(f.subs, m + 1, m, base + k - m - 1); }
  }

  /** The last node whose parent is p is the last of the list. */
  lemma LastRoot(f: Forest, base: nat, p: int, k: nat)
    requires f.Snoc? && p < base && Size(f.front) <= k < Size(f)
    ensures Parents(f, base, p)[k] == p <==> k == Size(f.front)
  {
    var m := base + Size(f.front);
    Joined(Parents(f.front, base, p), p, Parents(f.subs, m + 1, m), k);
    if base + k > m { ParentsRange(f.subs, m + 1, m, base + k - m - 1); }
  }

  lemma Split<T>(a: seq<T>, x: T, b: seq<T>, a': seq<T>, x': T, b': seq<T>)
    requires a + [x] + b == a' + [x'] + b' && |a| == |a'|
    ensures a == a' && x == x' && b == b'
  {
    var s := a + [x] + b;
    assert s[..|a|] == a && s[..|a|] == a' && s[|a|] == x && s[|a|] == x' && s[|a| + 1..] == b && s[|a| + 1..] == b';
  }

  lemma {:induction false} TreeUnique(f: Forest, g: Forest, base: nat, p: int)
    requires Flat(f) == Flat(g) && Parents(f, base, p) == Parents(g, base, p) && p < base
    ensures f == g
    decreases f
  {
    assert |Flat(f)| == Size(f) && |Flat(g)| == Size(g);
    if f.Snoc? && g.Snoc? {
      var mf, mg := Size(f.front), Size(g.front);
      assert mf == mg by {
        if mf <= mg { LastRoot(f, base, p, mg); LastRoot(g, base, p, mg); }
        if mg <= mf { LastRoot(f, base, p, mf); LastRoot(g, base, p, mf); }
      }
      var m := base + mf;
      Split(Flat(f.front), f.entry, Flat(f.subs), Flat(g.front), g.entry, Flat(g.subs));
      Split(Parents(f.front, base, p), p, Parents(f.subs, m + 1, m), Parents(g.front, base, p), p,
          Parents(g.subs, m + 1, m));
      TreeUnique(f.front, g.front, base, p);
      TreeUnique(f.subs, g.subs, m + 1, m);
    }
  }

  // ---------------------------------------------------------------------
  // Printing and parsing
  // ---------------------------------------------------------------------

  function Spaces(n: nat): string { if n == 0 then "" else [' '] + Spaces(n - 1) }

  function PrintLine(e: Entry, depth: nat): string {
    Spaces(4 * depth) + (e.name + (if e.description == "" then "" else " " + e.description))
  }

  function Print(f: Forest, depth: nat): seq<string> {
    if f.Empty? then [] else Print(f.front, depth) + [PrintLine(f.entry, depth)] + Print(f.subs, depth + 1)
  }

  function Depths(f: Forest, depth: nat): (r: seq<nat>)
    ensures |r| == Size(f)
  {
    if f.Empty? then [] else Depths(f.front, depth) + [depth] + Depths(f.subs, depth + 1)
  }

  predicate PrintableEntry(e: Entry) {
    e.name != "" && ' ' !in e.name && (e.description != "" ==> e.description[0] != ' ')
  }

  predicate Printable(f: Forest) {
    f.Snoc? ==> Printable(f.front) && PrintableEntry(f.entry) && Printable(f.subs)
  }

  lemma {:induction false} IndentIs(n: nat, s: string)
    requires s != "" && s[0] != ' '
    ensures LeadingSpaces(Spaces(n) + s) == n && Unindented(Spaces(n) + s) == s
    decreases n
  {
    if n == 0 {
      assert Spaces(n) + s == s && s[0..] == s;
    } else {
      IndentIs(n - 1, s);
      var t := Spaces(n) + s;
      assert t == [' '] + (Spaces(n - 1) + s);
      assert t[1..] == Spaces(n - 1) + s;
      UnindentStep(t);
    }
  }

  lemma {:induction false} WordIs(name: string, t: string, n: string)
    requires ' ' !in name && (t == "" || t[0] == ' ')
    ensures WordAndRest(n, name + t) == Entry(n + name, Unindented(t))
    decreases |name|
  {
    if name == "" {
      assert name + t == t && t[..0] == "" && t[0..] == t;
      assert n + "" == n;
    } else {
      WordStep(n, name + t);
      assert (name + t)[1..] == name[1..] + t;
      WordIs(name[1..], t, n + [name[0]]);
      assert n + [name[0]] + name[1..] == n + name;
    }
  }

  lemma PrintedLine(e: Entry, depth: nat)
    requires PrintableEntry(e)
    ensures Level(PrintLine(e, depth)) == depth && Harvest(PrintLine(e, depth)) == e
  {
    var t := if e.description == "" then "" else " " + e.description;
    IndentIs(4 * depth, e.name + t);
    WordIs(e.name, t, "");
    assert "" + e.name == e.name;
    if e.description != "" {
      UnindentStep(t);
      assert t[1..] == e.description;
      UnindentStep(e.description);
    }
  }

  lemma {:induction false} PrintedLines(f: Forest, depth: nat)
    requires Printable(f)
    ensures Levels(Print(f, depth)) == Depths(f, depth) && Entries(Print(f, depth)) == Flat(f)
    decreases f
  {
    if f.Snoc? {
      PrintedLines(f.front, depth);
      PrintedLine(f.entry, depth);
      PrintedLines(f.subs, depth + 1);
      LevelsJoin(Print(f.front, depth), PrintLine(f.entry, depth), Print(f.subs, depth + 1));
    }
  }

  lemma LevelsJoin(a: seq<string>, x: string, b: seq<string>)
    ensures Levels(a + [x] + b) == Levels(a) + [Level(x)] + Levels(b)
    ensures Entries(a + [x] + b) == Entries(a) + [Harvest(x)] + Entries(b)
  {
  }

  /** From base on, lv holds the depths of f. */
  predicate LevelsAt(lv: seq<nat>, f: Forest, base: nat, depth: nat)
    decreases f
  {
    && base + Size(f) <= |lv|
    && (f.Snoc? ==>
          var m := base + Size(f.front);
          LevelsAt(lv, f.front, base, depth) && lv[m] == depth && LevelsAt(lv, f.subs, m + 1, depth + 1))
  }

  /** From base on, es holds the entries of f. */
  predicate EntriesAt(es: seq<Entry>, f: Forest, base: nat)
    decreases f
  {
    && base + Size(f) <= |es|
    && (f.Snoc? ==>
          var m := base + Size(f.front);
          EntriesAt(es, f.front, base) && es[m] == f.entry && EntriesAt(es, f.subs, m + 1))
  }

  /** From base on, s and t coincide. */
  predicate Agrees<T(==)>(s: seq<T>, t: seq<T>, base: nat) {
    base + |t| <= |s| && forall j: nat :: base <= j < base + |t| ==> s[j] == t[j - base]
  }

  lemma AgreesParts<T>(s: seq<T>, base: nat, a: seq<T>, x: T, b: seq<T>)
    requires Agrees(s, a + [x] + b, base)
    ensures Agrees(s, a, base) && s[base + |a|] == x && Agrees(s, b, base + |a| + 1)
  {
    forall j: nat | base <= j < base + |a| ensures s[j] == a[j - base] { Joined(a, x, b, j - base); }
    forall j: nat | base + |a| + 1 <= j < base + |a| + 1 + |b| ensures s[j] == b[j - (base + |a| + 1)] {
      Joined(a, x, b, j - base);
    }
    Joined(a, x, b, |a|);
  }

  lemma {:induction false} LevelsIn(lv: seq<nat>, f: Forest, base: nat, depth: nat)
    requires Agrees(lv, Depths(f, depth), base)
    ensures LevelsAt(lv, f, base, depth)
    decreases f
  {
    if f.Snoc? {
      AgreesParts(lv, base, Depths(f.front, depth), depth, Depths(f.subs, depth + 1));
      LevelsIn(lv, f.front, base, depth);
      LevelsIn(lv, f.subs, base + Size(f.front) + 1, depth + 1);
    }
  }

  lemma {:induction false} EntriesIn(es: seq<Entry>, f: Forest, base: nat)
    requires Agrees(es, Flat(f), base)
    ensures EntriesAt(es, f, base)
    decreases f
  {
    if f.Snoc? {
      AgreesParts(es, base, Flat(f.front), f.entry, Flat(f.subs));
      EntriesIn(es, f.front, base);
      EntriesIn(es, f.subs, base + Size(f.front) + 1);
    }
  }

  lemma {:induction false} DepthsAtLeast(lv: seq<nat>, f: Forest, base: nat, depth: nat, k: nat)
    requires LevelsAt(lv, f, base, depth) && base <= k < base + Size(f)
    ensures lv[k] >= depth
    decreases f
  {
    var m := base + Size(f.front);
    if k < m { DepthsAtLeast(lv, f.front, base, depth, k); }
    if k > m { DepthsAtLeast(lv, f.subs, m + 1, depth + 1, k); }
  }

  lemma {:induction false} PlacedBuilt(lv: seq<nat>, es: seq<Entry>, f: Forest, base: nat, depth: nat)
    requires |lv| == |es| && LevelsAt(lv, f, base, depth) && EntriesAt(es, f, base)
    requires (base > 0 ==> lv[base - 1] < depth)
    ensures Built(lv, es, f, base, base + Size(f))
    decreases f
  {
    if f.Snoc? {
      var m := base + Size(f.front);
      PlacedBuilt(lv, es, f.front, base, depth);
      forall j: nat | base <= j < m ensures lv[j] >= depth { DepthsAtLeast(lv, f.front, base, depth, j); }
      PlacedBuilt(lv, es, f.subs, m + 1, depth + 1);
    }
  }

  /** There is only one tree of given levels and entries. */
  lemma TreeOfUnique(lv: seq<nat>, es: seq<Entry>, f: Forest, g: Forest)
    requires TreeOf(lv, es, f) && TreeOf(lv, es, g)
    ensures f == g
  {
    var pf, pg := Parents(f, 0, -1), Parents(g, 0, -1);
    forall k: nat | k < |lv| ensures pf[k] == pg[k] { NearestUnique(lv, k, pf[k], pg[k]); }
    assert pf == pg;
    TreeUnique(f, g, 0, -1);
  }

  /** Any tree read from the printed form of f is f itself. */
  lemma PrintParseRoundTrip(f: Forest, g: Forest)
    requires Printable(f) && TreeOf(Levels(Print(f, 0)), Entries(Print(f, 0)), g)
    ensures g == f
  {
    PrintedLines(f, 0);
    DepthsTree(f);
    TreeOfUnique(Depths(f, 0), Flat(f), f, g);
  }

  // ---------------------------------------------------------------------
  // Any layout
  // ---------------------------------------------------------------------

  /** A line: an indent, a name, and if there is a description, at least one space before it. */
  function LayLine(indent: nat, e: Entry, gap: nat): string {
    Spaces(indent) + (e.name + (Spaces(gap) + e.description))
  }

  /** The indent of a level is four spaces for each, and up to three more. */
  predicate Lays(line: string, e: Entry, level: nat, indent: nat, gap: nat) {
    4 * level <= indent < 4 * level + 4 && (e.description != "" ==> gap > 0) && line == LayLine(indent, e, gap)
  }

  ghost predicate Laid(line: string, e: Entry, level: nat) {
    PrintableEntry(e) && exists indent, gap :: Lays(line, e, level, indent, gap)
  }

  lemma {:induction false} SpacesAre(n: nat)
    ensures |Spaces(n)| == n && (n > 0 ==> Spaces(n)[0] == ' ')
    ensures LeadingSpaces(Spaces(n)) == n && Unindented(Spaces(n)) == ""
  {
    if n > 0 { SpacesAre(n - 1); }
  }

  /** However it is laid out, a line is read as its level and its entry. */
  lemma LaidLine(line: string, e: Entry, level: nat)
    requires Laid(line, e, level)
    ensures Level(line) == level && Harvest(line) == e
  {
    var indent: nat, gap: nat :| Lays(line, e, level, indent, gap);
    LayoutRead(e, indent, gap);
  }

  lemma LayoutRead(e: Entry, indent: nat, gap: nat)
    requires PrintableEntry(e) && (e.description != "" ==> gap > 0)
    ensures LeadingSpaces(LayLine(indent, e, gap)) == indent && Harvest(LayLine(indent, e, gap)) == e
  {
    var t := Spaces(gap) + e.description;
    IndentIs(indent, e.name + t);
    GapRead(e.description, gap);
    WordIs(e.name, t, "");
    assert "" + e.name == e.name;
  }

  lemma GapRead(description: string, gap: nat)
    requires description != "" ==> gap > 0 && description[0] != ' '
    ensures var t := Spaces(gap) + description; Unindented(t) == description && (t == "" || t[0] == ' ')
  {
    SpacesAre(gap);
    if description != "" { IndentIs(gap, description); } else { assert Spaces(gap) + description == Spaces(gap); }
  }

  lemma {:induction false} SpacesFirst(s: string)
    ensures s == Spaces(LeadingSpaces(s)) + Unindented(s)
    ensures Unindented(s) != "" ==> Unindented(s)[0] != ' '
  {
    if s == "" || s[0] != ' ' {
      assert "" + s == s;
    } else {
      var t := s[1..];
      SpacesFirst(t);
      assert Unindented(s) == Unindented(t) by { UnindentStep(s); }
      assert s == [' '] + t;
      assert Spaces(LeadingSpaces(s)) == [' '] + Spaces(LeadingSpaces(t));
    }
  }

  lemma {:induction false} WordFirst(s: string)
    ensures ' ' !in s[..WordLength(s)] && (s[WordLength(s)..] != "" ==> s[WordLength(s)..][0] == ' ')
    ensures s != "" && s[0] != ' ' ==> WordLength(s) > 0
  {
    if s != "" && s[0] != ' ' {
      WordFirst(s[1..]);
      assert s[..WordLength(s)] == [s[0]] + s[1..][..WordLength(s[1..])];
      assert s[WordLength(s)..] == s[1..][WordLength(s[1..])..];
    }
  }

  /** Every line with more than spaces is laid out for the entry and level read from it, and for no other. */
  lemma LineIsLaid(line: string)
    requires Unindented(line) != ""
    ensures Laid(line, Harvest(line), Level(line))
    ensures forall e, level :: Laid(line, e, level) ==> e == Harvest(line) && level == Level(line)
  {
    forall e, level: nat | Laid(line, e, level) ensures e == Harvest(line) && level == Level(line) {
      LaidLine(line, e, level);
    }
    var s := Unindented(line);
    var t := s[WordLength(s)..];
    SpacesFirst(line);
    WordFirst(s);
    SpacesFirst(t);
    var e := Harvest(line);
    assert e.name == s[..WordLength(s)] && e.description == Unindented(t)
        by { assert "" + s[..WordLength(s)] == e.name; }
    assert s == e.name + t && t == Spaces(LeadingSpaces(t)) + e.description;
    assert Lays(line, e, Level(line), LeadingSpaces(line), LeadingSpaces(t));
  }

  /** Lines laid out for a forest, with any gaps and odd spaces, are read as that forest. */
  lemma LaidRoundTrip(f: Forest, g: Forest, lines: seq<string>)
    requires |lines| == Size(f) && forall i :: 0 <= i < |lines| ==> Laid(lines[i], Flat(f)[i], Depths(f, 0)[i])
    requires TreeOf(Levels(lines), Entries(lines), g)
    ensures g == f
  {
    forall i | 0 <= i < |lines| ensures Levels(lines)[i] == Depths(f, 0)[i] && Entries(lines)[i] == Flat(f)[i] {
      LaidLine(lines[i], Flat(f)[i], Depths(f, 0)[i]);
    }
    assert Levels(lines) == Depths(f, 0) && Entries(lines) == Flat(f);
    DepthsTree(f);
    TreeOfUnique(Depths(f, 0), Flat(f), f, g);
  }

  /** f is the tree of its own depths and entries. */
  lemma DepthsTree(f: Forest)
    ensures TreeOf(Depths(f, 0), Flat(f), f)
  {
    StandsAlone(f);
    PlacedBuilt(Depths(f, 0), Flat(f), f, 0, 0);
    BuiltTree(Depths(f, 0), Flat(f), f);
  }

  lemma StandsAlone(f: Forest)
    ensures LevelsAt(Depths(f, 0), f, 0, 0) && EntriesAt(Flat(f), f, 0)
  {
    LevelsIn(Depths(f, 0), f, 0, 0);
    EntriesIn(Flat(f), f, 0);
  }

  lemma NearestUnique(lv: seq<nat>, k: nat, p: int, q: int)
    requires Nearest(lv, k, p) && Nearest(lv, k, q)
    ensures p == q
  {
  }

  /** A printed forest starts without indentation, as the parser demands. */
  lemma {:induction false} PrintedFirst(f: Forest)
    requires Printable(f)
    ensures Print(f, 0) != [] ==> Level(Print(f, 0)[0]) == 0
    decreases f
  {
    if f.Snoc? {
      PrintedFirst(f.front);
      PrintedLine(f.entry, 0);
    }
  }
}
