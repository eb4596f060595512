/**
  Which task bodies run (ControlScheduler.cpp:82-118, 600-656): on an open queue every task that is
  taken is run before it is destroyed, and once a queue is closed it is the read of `closed` at the top
  of the drain's loop that decides.
 */
module ProcessQueueBodies {
  import opened Collections
  import Ring
  import opened ProcessQueue
  import opened ProcessQueueRuns

  predicate HasRun(pc: Pc) { pc.Scan? || pc.Try? || pc.Body? || pc.Recyc? || pc.AfterOne? }

  /** A drain that does not run what it takes has seen the queue closed. */
  ghost predicate RunOk(s: State) {
    forall t :: t in s.pcs && HasRun(s.pcs[t]) && !s.pcs[t].run ==> s.closed
  }

  lemma GoNextRun(pc: Pc, seen: Seen, n: nat)
    requires GoStep(pc)
    ensures var next := GoNext(pc, seen, n);
            next.At? && HasRun(next.pc) ==>
              if pc.DTop? then next.pc.run == !seen.closed else HasRun(pc) && next.pc.run == pc.run
  {
  }

  lemma RingNextRun(pc: Pc, e: Ring.Event, n: nat)
    requires n > 0 && RingStep(pc, e)
    ensures var next := RingNext(pc, e, n);
            && (next.At? && HasRun(next.pc) ==> HasRun(pc) && next.pc.run == pc.run)
            && (next.At? && next.pc.Body? <==> pc.Try? && e.CasTail?)
  {
  }

  lemma RunOkStep(s: State, t: Tid, ev: Event)
    requires RunOk(s) && Enabled(s, t, ev)
    ensures RunOk(Apply(s, t, ev))
  {
    match ev {
      case Go => GoNextRun(s.pcs[t], Look(s, s.pcs[t]), N(s));
      case InRing(e) => RingNextRun(s.pcs[t], e, N(s));
      case _ =>
    }
  }

  lemma {:induction false} RunOkRun(s: State, trace: seq<Label>)
    requires RunOk(s) && CanRun(s, trace)
    ensures RunOk(RunAll(s, trace))
    decreases |trace|
  {
    if trace != [] {
      RunOkStep(s, trace[0].t, trace[0].ev);
      RunOkRun(Apply(s, trace[0].t, trace[0].ev), trace[1..]);
    }
  }

  /** closed is never reset. */
  lemma {:induction false} StaysClosed(s: State, trace: seq<Label>)
    requires CanRun(s, trace) && s.closed
    ensures RunAll(s, trace).closed
    decreases |trace|
  {
    if trace != [] { StaysClosed(Apply(s, trace[0].t, trace[0].ev), trace[1..]); }
  }

  // ---------------------------------------------------------------------
  // Bodies
  // ---------------------------------------------------------------------

  /** A thread enters a task body exactly at a step that starts one, and leaves it by destroying that task. */
  lemma BodySpan(s: State, l: Label, u: Tid)
    requires Enabled(s, l.t, l.ev)
    ensures !InBody(s, u) && InBody(Apply(s, l.t, l.ev), u) <==> u == l.t && StartsBodyStep(s, l)
    ensures InBody(s, u) && !InBody(Apply(s, l.t, l.ev), u) <==>
            InBody(s, u) && u == l.t && l.ev == InRing(Ring.Clean)
  {
    match l.ev {
      case Go => GoNextNotBody(s.pcs[l.t], Look(s, s.pcs[l.t]), N(s));
      case InRing(e) => RingNextRun(s.pcs[l.t], e, N(s));
      case _ =>
    }
  }

  lemma GoNextNotBody(pc: Pc, seen: Seen, n: nat)
    requires GoStep(pc)
    ensures var next := GoNext(pc, seen, n); !pc.Body? && (next.At? ==> !next.pc.Body?)
  {
  }

  /** The step takes a task of sub-queue k. */
  predicate TakesFrom(s: State, l: Label, k: nat) {
    N(s) > 0 && l.ev == InRing(Ring.CasTail) && l.t in s.pcs && Target(s.pcs[l.t], N(s)) == k
  }

  /** The tasks of sub-queue k whose bodies the run starts, in that order. */
  function Ran(s: State, trace: seq<Label>, k: nat): seq<Ring.Cell>
    requires CanRun(s, trace) && k < N(s)
    decreases |trace|
  {
    if trace == [] then []
    else
      var Label(t, ev) := trace[0];
      RanBy(s, trace[0], k) + Ran(Apply(s, t, ev), trace[1..], k)
  }

  /** What the ring holds at the ticket that the step claims, if the step starts its body. */
  function RanBy(s: State, l: Label, k: nat): seq<Ring.Cell>
    requires Enabled(s, l.t, l.ev) && k < N(s)
  {
    if TakesFrom(s, l, k) && StartsBodyStep(s, l)
    then [s.rings[k].cells[Ring.Slot(s.rings[k].ops[l.t].pos, s.rings[k].cap)]] else []
  }

  /** What is taken off an open queue is run; and only then is anything run. */
  lemma TakenIsRun(s: State, l: Label, k: nat)
    requires Inv(s) && RunOk(s) && Enabled(s, l.t, l.ev) && !s.closed && k < N(s)
    ensures TakesFrom(s, l, k) ==> StartsBodyStep(s, l)
    ensures RanBy(s, l, k) ==
            if TakesFrom(s, l, k) then Ring.TakenBy(s.rings[k], l.t, Ring.CasTail) else []
  {
    if TakesFrom(s, l, k) { assert AfterClose(s.pcs[l.t]) ==> s.closed; }
  }

  lemma {:induction false} OpenRunTakes(s: State, trace: seq<Label>, k: nat)
    requires Inv(s) && RunOk(s) && CanRun(s, trace) && !RunAll(s, trace).closed && k < N(s)
    requires Ring.CanRun(s.rings[k], Project(s, trace, k))
    ensures Ran(s, trace, k) == Ring.Taken(s.rings[k], Project(s, trace, k))
    decreases |trace|
  {
    if trace != [] {
      var Label(t, ev) := trace[0];
      if s.closed { StaysClosed(s, trace); }
      RunOkStep(s, t, ev);
      ProjectStep(s, t, ev, k);
      TakenIsRun(s, trace[0], k);
      ProjectIsRingRun(Apply(s, t, ev), trace[1..], k);
      OpenRunTakes(Apply(s, t, ev), trace[1..], k);
      TakenCons(s, trace, k);
    }
  }

  /** What the ring sees taken in the first step and after it. */
  lemma TakenCons(s: State, trace: seq<Label>, k: nat)
    requires Inv(s) && CanRun(s, trace) && trace != [] && k < N(s)
    requires Ring.CanRun(s.rings[k], Project(s, trace, k))
    ensures var Label(t, ev) := trace[0];
            && N(Apply(s, t, ev)) == N(s)
            && Ring.CanRun(Apply(s, t, ev).rings[k], Project(Apply(s, t, ev), trace[1..], k))
            && Ring.Taken(s.rings[k], Project(s, trace, k)) ==
               (if TakesFrom(s, trace[0], k) then Ring.TakenBy(s.rings[k], t, Ring.CasTail) else [])
               + Ring.Taken(Apply(s, t, ev).rings[k], Project(Apply(s, t, ev), trace[1..], k))
  {
    var Label(t, ev) := trace[0];
    var rest := Project(Apply(s, t, ev), trace[1..], k);
    ProjectStep(s, t, ev, k);
    ProjectIsRingRun(Apply(s, t, ev), trace[1..], k);
    if ev.InRing? && Target(s.pcs[t], N(s)) == k {
      assert Project(s, trace, k) == [Ring.Label(t, ev.e)] + rest;
      assert ([Ring.Label(t, ev.e)] + rest)[1..] == rest;
    } else {
      assert Project(s, trace, k) == rest;
    }
  }

  // ---------------------------------------------------------------------
  // Whole runs
  // ---------------------------------------------------------------------

  /**
    In every run in which the queue is never closed, each sub-queue runs its tasks in the order in which
    they were accepted, each exactly once: at any time a prefix of them, as long as what has been taken,
    and all of them once every thread has returned and the pool holds no drain.
   */
  lemma OpenQueueRunsAll(caps: seq<nat>, trace: seq<Label>, k: nat)
    requires Capacities(caps) && CanRun(Init(caps), trace) && !RunAll(Init(caps), trace).closed && k < |caps|
    ensures Ring.CanRun(Ring.Init(caps[k]), Project(Init(caps), trace, k))
    ensures N(RunAll(Init(caps), trace)) == |caps|
    ensures var accepted := Ring.Accepted(Ring.Init(caps[k]), Project(Init(caps), trace, k));
            var ran := Ran(Init(caps), trace, k);
            && |ran| == RunAll(Init(caps), trace).rings[k].tail <= |accepted| && ran == accepted[..|ran|]
            && (Quiet(RunAll(Init(caps), trace)) ==> ran == accepted)
  {
    var s := RunAll(Init(caps), trace);
    var ring := Project(Init(caps), trace, k);
    InitInv(caps);
    RunKeepsCount(Init(caps), trace);
    ProjectIsRingRun(Init(caps), trace, k);
    OpenRunTakes(Init(caps), trace, k);
    Ring.RingIsBoundedFifo(caps[k], ring);
    Ring.InitInv(caps[k]);
    Ring.AcceptedCount(Ring.Init(caps[k]), ring);
    Ring.RunConserves(Ring.Init(caps[k]), ring);
    if Quiet(s) { QuietQueueIsEmpty(caps, trace, k); }
  }

  /** The run takes what it does not run only if the queue has been closed before. */
  lemma UnrunOnlyAfterClose(caps: seq<nat>, before: seq<Label>, l: Label, k: nat)
    requires Capacities(caps) && CanRun(Init(caps), before) && Enabled(RunAll(Init(caps), before), l.t, l.ev)
    requires TakesFrom(RunAll(Init(caps), before), l, k) && !StartsBodyStep(RunAll(Init(caps), before), l)
    ensures RunAll(Init(caps), before).closed
  {
    InitInv(caps);
    RunInv(Init(caps), before);
    RunOkRun(Init(caps), before);
    var s := RunAll(Init(caps), before);
    assert AfterClose(s.pcs[l.t]) ==> s.closed;
  }

  /** On an open queue a task is destroyed only after its body has started. */
  lemma RunBeforeDestroyed(caps: seq<nat>, trace: seq<Label>, k: nat, p: nat)
    requires Capacities(caps) && CanRun(Init(caps), trace) && !RunAll(Init(caps), trace).closed && k < |caps|
    requires Ring.CanRun(Ring.Init(caps[k]), Project(Init(caps), trace, k))
    requires p in Ring.Cleaned(Ring.Init(caps[k]), Project(Init(caps), trace, k))
    ensures p < |Ran(Init(caps), trace, k)|
  {
    var ring := Project(Init(caps), trace, k);
    OpenQueueRunsAll(caps, trace, k);
    InitInv(caps);
    ProjectIsRingRun(Init(caps), trace, k);
    Ring.InitInv(caps[k]);
    Ring.AccountedRun(Ring.Init(caps[k]), ring, {});
    assert p in {} + Elems(Ring.Cleaned(Ring.Init(caps[k]), ring));
  }

  // ---------------------------------------------------------------------
  // The read at the top decides
  // ---------------------------------------------------------------------

  /** Thread t does not come to the top of the drain's loop in this run. */
  predicate NotAtTop(s: State, trace: seq<Label>, t: Tid)
    requires CanRun(s, trace)
    decreases |trace|
  {
    && !(t in s.pcs && s.pcs[t].DTop?)
    && (trace != [] ==> NotAtTop(Apply(s, trace[0].t, trace[0].ev), trace[1..], t))
  }

  lemma {:induction false} KeepsRun(s: State, trace: seq<Label>, t: Tid, run: bool)
    requires CanRun(s, trace) && NotAtTop(s, trace, t) && (t in s.pcs && HasRun(s.pcs[t]) ==> s.pcs[t].run == run)
    ensures var u := RunAll(s, trace); t in u.pcs && HasRun(u.pcs[t]) ==> u.pcs[t].run == run
    decreases |trace|
  {
    if trace != [] {
      var Label(l, ev) := trace[0];
      if l == t {
        match ev {
          case Go => GoNextRun(s.pcs[t], Look(s, s.pcs[t]), N(s));
          case InRing(e) => RingNextRun(s.pcs[t], e, N(s));
          case _ =>
        }
      }
      KeepsRun(Apply(s, l, ev), trace[1..], t, run);
    }
  }

  /**
    However others interleave: until it comes to the top again, a drain runs what it takes if it read
    `closed` as false there, and destroys it unrun if it read true.
   */
  lemma TopReadDecides(s: State, t: Tid, trace: seq<Label>, k: nat)
    requires Enabled(s, t, Go) && s.pcs[t].DTop? && CanRun(Apply(s, t, Go), trace)
    requires NotAtTop(Apply(s, t, Go), trace, t)
    requires var u := RunAll(Apply(s, t, Go), trace);
             Enabled(u, t, InRing(Ring.CasTail)) && u.pcs[t].Try? && TakesFrom(u, Label(t, InRing(Ring.CasTail)), k)
    ensures StartsBodyStep(RunAll(Apply(s, t, Go), trace), Label(t, InRing(Ring.CasTail))) <==> !s.closed
  {
    GoNextRun(s.pcs[t], Look(s, s.pcs[t]), N(s));
    KeepsRun(Apply(s, t, Go), trace, t, !s.closed);
  }

  // ---------------------------------------------------------------------
  // Posts after close
  // ---------------------------------------------------------------------

  /** Thread t has seen the queue open and has not claimed a ticket yet. */
  predicate Unclaimed(s: State, t: Tid) {
    && t in s.pcs
    && match s.pcs[t]
       case PostEntry(_, _) => true
       case Emplace(k) => k < N(s) && t in s.rings[k].ops && (s.rings[k].ops[t].EnqPos? || s.rings[k].ops[t].EnqSeq?)
       case _ => false
  }

  function UnclaimedPosts(s: State): set<Tid> { set t | t in s.pcs && Unclaimed(s, t) }

  /** How many tasks the run accepts, over all sub-queues. */
  function Accepts(trace: seq<Label>): nat {
    if trace == [] then 0 else (if trace[0].ev == InRing(Ring.CasHead) then 1 else 0) + Accepts(trace[1..])
  }

  lemma UnclaimedOther(s: State, t: Tid, e: Ring.Event, u: Tid)
    requires Enabled(s, t, InRing(e)) && u != t && Unclaimed(RingApply(s, t, e), u)
    ensures Unclaimed(s, u)
  {
    Ring.OpsFrame(s.rings[Target(s.pcs[t], N(s))], t, e, u);
  }

  lemma UnclaimedStep(s: State, l: Label, u: Tid)
    requires Wired(s) && s.closed && Enabled(s, l.t, l.ev) && Unclaimed(Apply(s, l.t, l.ev), u)
    ensures Unclaimed(s, u) && !(u == l.t && l.ev == InRing(Ring.CasHead))
  {
    if u in s.pcs { assert ThreadOk(s, u); }
    match l.ev {
      case InRing(e) =>
        if u == l.t { UnclaimedOwn(s, u, e); } else { UnclaimedOther(s, l.t, e, u); }
      case Go => UnclaimedGo(s.pcs[l.t], Look(s, s.pcs[l.t]), N(s));
      case _ =>
    }
  }

  lemma UnclaimedGo(pc: Pc, seen: Seen, n: nat)
    requires GoStep(pc)
    ensures var next := GoNext(pc, seen, n); next.At? ==> !next.pc.PostEntry? && !next.pc.Emplace?
  {
  }

  lemma UnclaimedOwn(s: State, t: Tid, e: Ring.Event)
    requires Wired(s) && Enabled(s, t, InRing(e)) && Unclaimed(RingApply(s, t, e), t)
    ensures Unclaimed(s, t) && !e.CasHead?
  {
    assert ThreadOk(s, t);
    var k := Target(s.pcs[t], N(s));
    Ring.OpAfter(s.rings[k], t, e);
  }

  /** A claim takes its thread out of the unclaimed posts. */
  lemma ClaimCounts(s: State, l: Label)
    requires Wired(s) && s.closed && Enabled(s, l.t, l.ev)
    ensures |UnclaimedPosts(Apply(s, l.t, l.ev))| + Accepts([l]) <= |UnclaimedPosts(s)|
  {
    var a, b := UnclaimedPosts(s), UnclaimedPosts(Apply(s, l.t, l.ev));
    forall u | u in b ensures u in a && !(u == l.t && l.ev == InRing(Ring.CasHead)) { UnclaimedStep(s, l, u); }
    assert Accepts([l]) == if l.ev == InRing(Ring.CasHead) then 1 else 0 by { assert [l][1..] == []; }
    if l.ev == InRing(Ring.CasHead) {
      assert ThreadOk(s, l.t) && l.t in a;
      Subset(b, a - {l.t});
    } else {
      Subset(b, a);
    }
  }

  lemma Subset(a: set<Tid>, b: set<Tid>)
    requires a <= b
    ensures |a| <= |b|
  {
    assert b == a + (b - a);
  }

  /** After close at most the posts are accepted that had passed their check of `closed` before. */
  lemma {:induction false} LatePostsBounded(s: State, trace: seq<Label>)
    requires Inv(s) && s.closed && CanRun(s, trace)
    ensures Accepts(trace) + |UnclaimedPosts(RunAll(s, trace))| <= |UnclaimedPosts(s)|
    decreases |trace|
  {
    if trace != [] {
      StepInv(s, trace[0].t, trace[0].ev);
      ClaimCounts(s, trace[0]);
      assert [trace[0]][1..] == [];
      LatePostsBounded(Apply(s, trace[0].t, trace[0].ev), trace[1..]);
    }
  }
}
