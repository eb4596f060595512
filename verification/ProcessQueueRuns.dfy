/**
  Properties of whole stretches of a run: the round-robin bound of one drain, the destruction of
  every accepted task exactly once, and what destroyProcessQueue has achieved when it has swept.
 */
module ProcessQueueRuns {
  import Ring
  import opened ProcessQueue

  // ---------------------------------------------------------------------
  // Round robin
  // ---------------------------------------------------------------------

  /** Thread t is inside drainProcessQueue, before its last re-check ends. */
  predicate Draining(s: State, t: Tid) {
    && t in s.pcs
    && match s.pcs[t]
       case Pend(who, _) => who.ByDrain?
       case PendSeq(who, _, _) => who.ByDrain?
       case ReClosed(_) => true
       case Cas(_) => true
       case pc => Holder(pc) && !pc.PoolPush? && !pc.XPush?
  }

  function DrainOf(pc: Pc): Drain {
    match pc
    case DTop(d) => d
    case Scan(_, d, _) => d
    case Try(_, d, _) => d
    case Body(_, _, d) => d
    case Recyc(_, _, d) => d
    case AfterOne(_, d) => d
    case Clear(d) => d
    case ReClosed(d) => d
    case Pend(who, _) => if who.ByDrain? then who.d else Drain(0, [])
    case PendSeq(who, _, _) => if who.ByDrain? then who.d else Drain(0, [])
    case Cas(d) => d
    case _ => Drain(0, [])
  }

  /** A step by which thread t claims a task of some sub-queue. */
  predicate TakesTask(s: State, l: Label, t: Tid) {
    N(s) > 0 && l.t == t && l.ev == InRing(Ring.CasTail) && t in s.pcs && s.pcs[t].Try?
  }

  predicate Serves(s: State, l: Label, t: Tid, j: nat) { TakesTask(s, l, t) && Target(s.pcs[t], N(s)) == j }

  predicate ServesOther(s: State, l: Label, t: Tid, k: nat) { TakesTask(s, l, t) && !Serves(s, l, t, k) }

  /** Throughout the run t drains, the queue is open, sub-queue k shows an item and t does not serve it. */
  predicate Waits(s: State, trace: seq<Label>, t: Tid, k: nat)
    requires CanRun(s, trace)
    decreases |trace|
  {
    && Draining(s, t) && !s.closed && k < N(s)
    && Ring.Shape(s.rings[k]) && Ring.HasItem(s.rings[k])
    && (trace != [] ==>
          && !Serves(s, trace[0], t, k)
          && Waits(Apply(s, trace[0].t, trace[0].ev), trace[1..], t, k))
  }

  function ServedOthers(s: State, trace: seq<Label>, t: Tid, k: nat): nat
    requires CanRun(s, trace)
    decreases |trace|
  {
    if trace == [] then 0 else
      (if ServesOther(s, trace[0], t, k) then 1 else 0)
      + ServedOthers(Apply(s, trace[0].t, trace[0].ev), trace[1..], t, k)
  }

  /** Thread t has loaded a sequence number that makes its attempt on k give up. */
  predicate GivingUp(s: State, t: Tid, k: nat)
    requires k < N(s)
  {
    && t in s.pcs && s.pcs[t].Try? && Target(s.pcs[t], N(s)) == k
    && t in s.rings[k].ops && Refused(s.rings[k].ops[t])
  }

  lemma WaitedBound(s: State, t: Tid, k: nat)
    requires Inv(s) && Draining(s, t) && k < N(s)
    ensures DrainOk(DrainOf(s.pcs[t]), N(s)) && DrainOf(s.pcs[t]).waited[k] <= N(s) - 1
  {
    assert ThreadOk(s, t) && FairPc(s.pcs[t], N(s));
    var pc := s.pcs[t];
    var d := DrainOf(pc);
    var off := if pc.Scan? || pc.Try? then pc.off else 0;
    assert Fair(d, off, N(s));
    assert FairAt(d, off, N(s), k);
  }

  /** A step outside the rings keeps the drain's locals. */
  lemma GoKeepsDrain(pc: Pc, seen: Seen, n: nat)
    requires GoStep(pc)
    ensures var next := GoNext(pc, seen, n);
            next.At? && Holder(pc) && !pc.PoolPush? && !pc.XPush? ==> DrainOf(next.pc) == DrainOf(pc)
    ensures var next := GoNext(pc, seen, n);
            next.At? && (pc.Cas? || (pc.ReClosed? && !seen.closed) || ((pc.Pend? || pc.PendSeq?) && pc.who.ByDrain?))
            ==> DrainOf(next.pc) == DrainOf(pc)
    ensures var next := GoNext(pc, seen, n); next.At? ==> !next.pc.Try?
  {
  }

  /** A ring step changes the count for k only by serving a sub-queue or finding k empty. */
  lemma RingWaited(pc: Pc, e: Ring.Event, n: nat, k: nat)
    requires n > 0 && RingStep(pc, e) && InRange(pc, n) && Holder(pc) && k < n
    ensures var next := RingNext(pc, e, n);
            && next.At?
            && |DrainOf(pc).waited| == |DrainOf(next.pc).waited| == n
            && DrainOf(next.pc).waited[k] ==
                 (if pc.Try? && e.CasTail? then (if Target(pc, n) == k then 0 else DrainOf(pc).waited[k] + 1)
                  else if pc.Try? && e.DeqFalse? && Target(pc, n) == k then 0
                  else DrainOf(pc).waited[k])
  {
  }

  /** With an item showing, a fresh look at k never leads to giving up. */
  lemma NeverGivesUp(s: State, t: Tid, ev: Event, k: nat, l: Tid)
    requires Inv(s) && Enabled(s, l, ev) && k < N(s) && !s.closed && Ring.HasItem(s.rings[k])
    requires GivingUp(Apply(s, l, ev), t, k)
    ensures GivingUp(s, t, k)
  {
    var s' := Apply(s, l, ev);
    StepInv(s, l, ev);
    assert ThreadOk(s', t);
    match ev {
      case Go =>
        GoNextNotTry(s.pcs[l], Look(s, s.pcs[l]), N(s));
      case InRing(e) =>
        assert ThreadOk(s, l);
        if l != t {
          Ring.OpsFrame(s.rings[Target(s.pcs[l], N(s))], l, e, t);
        } else {
          TryNext(s.pcs[t], e, N(s));
          assert FreshAt(s, t);
        }
      case _ =>
    }
  }

  /** A thread about to give up on k serves nothing before it does. */
  lemma GivingUpStep(s: State, t: Tid, ev: Event, k: nat)
    requires Inv(s) && k < N(s) && GivingUp(s, t, k) && Enabled(s, t, ev) && !ev.CloseInTask?
    ensures ev == InRing(Ring.DeqFalse)
  {
  }

  lemma OthersKeep(s: State, l: Tid, ev: Event, t: Tid)
    requires Enabled(s, l, ev) && t in s.pcs && (l != t || ev.CloseInTask?)
    ensures t in Apply(s, l, ev).pcs && Apply(s, l, ev).pcs[t] == s.pcs[t]
  {
  }

  /** The drain's own step, seen from waiting sub-queue k. */
  lemma OwnStep(s: State, t: Tid, ev: Event, k: nat)
    requires Inv(s) && Draining(s, t) && !s.closed && k < N(s) && Enabled(s, t, ev) && !ev.CloseInTask?
    requires Draining(Apply(s, t, ev), t) && Inv(Apply(s, t, ev))
    requires !Serves(s, Label(t, ev), t, k)
    ensures |DrainOf(s.pcs[t]).waited| == |DrainOf(Apply(s, t, ev).pcs[t]).waited| == N(s)
    ensures ServesOther(s, Label(t, ev), t, k) ==>
              DrainOf(Apply(s, t, ev).pcs[t]).waited[k] == DrainOf(s.pcs[t]).waited[k] + 1
    ensures !ServesOther(s, Label(t, ev), t, k) && !GivingUp(s, t, k) ==>
              DrainOf(Apply(s, t, ev).pcs[t]).waited[k] == DrainOf(s.pcs[t]).waited[k]
  {
    assert ThreadOk(s, t);
    WaitedBound(s, t, k);
    match ev {
      case Go => GoKeepsDrain(s.pcs[t], Look(s, s.pcs[t]), N(s));
      case InRing(e) => RingWaited(s.pcs[t], e, N(s), k);
      case _ =>
    }
  }

  lemma {:induction false} WaitInduction(s: State, trace: seq<Label>, t: Tid, k: nat)
    requires Inv(s) && CanRun(s, trace) && Waits(s, trace, t, k)
    ensures DrainOk(DrainOf(s.pcs[t]), N(s))
    ensures ServedOthers(s, trace, t, k) + (if GivingUp(s, t, k) then 0 else DrainOf(s.pcs[t]).waited[k]) <= N(s) - 1
    decreases |trace|
  {
    WaitedBound(s, t, k);
    if trace != [] {
      var Label(l, ev) := trace[0];
      var s' := Apply(s, l, ev);
      StepInv(s, l, ev);
      WaitInduction(s', trace[1..], t, k);
      if GivingUp(s', t, k) { NeverGivesUp(s, t, ev, k, l); }
      if l != t || ev.CloseInTask? {
        OthersKeep(s, l, ev, t);
      } else {
        OwnStep(s, t, ev, k);
        if GivingUp(s, t, k) { GivingUpStep(s, t, ev, k); }
      }
    }
  }

  /**
    Round-robin bound.  However posts arrive, while a drain runs on an open queue and
    sub-queue k keeps an item, the drain serves at most n - 1 tasks of other sub-queues
    before it serves k.
   */
  lemma RoundRobinBound(caps: seq<nat>, before: seq<Label>, trace: seq<Label>, t: Tid, k: nat)
    requires Capacities(caps) && CanRun(Init(caps), before)
    requires CanRun(RunAll(Init(caps), before), trace) && Waits(RunAll(Init(caps), before), trace, t, k)
    ensures ServedOthers(RunAll(Init(caps), before), trace, t, k) <= |caps| - 1
  {
    InitInv(caps);
    RunInv(Init(caps), before);
    RunKeepsCount(Init(caps), before);
    WaitInduction(RunAll(Init(caps), before), trace, t, k);
  }

  lemma {:induction false} RunKeepsCount(s: State, trace: seq<Label>)
    requires CanRun(s, trace)
    ensures N(RunAll(s, trace)) == N(s)
    decreases |trace|
  {
    if trace != [] { RunKeepsCount(Apply(s, trace[0].t, trace[0].ev), trace[1..]); }
  }

  // ---------------------------------------------------------------------
  // Every accepted task is destroyed exactly once
  // ---------------------------------------------------------------------

  /** The steps a run takes in the ring of sub-queue k. */
  function Project(s: State, trace: seq<Label>, k: nat): seq<Ring.Label>
    requires CanRun(s, trace)
    decreases |trace|
  {
    if trace == [] then [] else
      var Label(t, ev) := trace[0];
      (if ev.InRing? && Target(s.pcs[t], N(s)) == k then [Ring.Label(t, ev.e)] else [])
      + Project(Apply(s, t, ev), trace[1..], k)
  }

  lemma ProjectStep(s: State, t: Tid, ev: Event, k: nat)
    requires Inv(s) && Enabled(s, t, ev) && k < N(s)
    ensures Inv(Apply(s, t, ev)) && N(Apply(s, t, ev)) == N(s)
    ensures if ev.InRing? && Target(s.pcs[t], N(s)) == k
            then && Ring.Shape(s.rings[k]) && Ring.Enabled(s.rings[k], t, ev.e)
                 && Apply(s, t, ev).rings[k] == Ring.Apply(s.rings[k], t, ev.e)
            else Apply(s, t, ev).rings[k] == s.rings[k]
  {
    StepInv(s, t, ev);
  }

  /** What happens to a sub-queue in a run of the process queue is a run of its ring. */
  lemma {:induction false} ProjectIsRingRun(s: State, trace: seq<Label>, k: nat)
    requires Inv(s) && CanRun(s, trace) && k < N(s)
    ensures N(RunAll(s, trace)) == N(s)
    ensures Ring.CanRun(s.rings[k], Project(s, trace, k))
    ensures Ring.RunAll(s.rings[k], Project(s, trace, k)) == RunAll(s, trace).rings[k]
    decreases |trace|
  {
    if trace != [] {
      var Label(t, ev) := trace[0];
      var s' := Apply(s, t, ev);
      ProjectStep(s, t, ev, k);
      ProjectIsRingRun(s', trace[1..], k);
      var rest := Project(s', trace[1..], k);
      if ev.InRing? && Target(s.pcs[t], N(s)) == k {
        assert Project(s, trace, k) == [Ring.Label(t, ev.e)] + rest;
        assert ([Ring.Label(t, ev.e)] + rest)[1..] == rest;
      } else {
        assert Project(s, trace, k) == rest;
      }
    }
  }

  /**
    In any run, open or closed, destroyed from outside or by one of its own tasks, posts still in
    flight at the close or not: once all threads have returned and the pool holds no drain, every task
    ever accepted by any sub-queue, run or unrun, was destroyed by exactly one step.
   */
  lemma EveryTaskDestroyedOnce(caps: seq<nat>, trace: seq<Label>, k: nat)
    requires Capacities(caps) && CanRun(Init(caps), trace) && Quiet(RunAll(Init(caps), trace)) && k < |caps|
    ensures Ring.CanRun(Ring.Init(caps[k]), Project(Init(caps), trace, k))
    ensures var ring := Project(Init(caps), trace, k);
            forall p :: 0 <= p < |Ring.Accepted(Ring.Init(caps[k]), ring)| ==>
              multiset(Ring.Cleaned(Ring.Init(caps[k]), ring))[p] == 1
  {
    InitInv(caps);
    RunKeepsCount(Init(caps), trace);
    RunInv(Init(caps), trace);
    QuietQueueIsEmpty(caps, trace, k);
    var s := RunAll(Init(caps), trace);
    assert Ring.Inv(s.rings[k]);
    ProjectIsRingRun(Init(caps), trace, k);
    Ring.DestroyedOnce(caps[k], Project(Init(caps), trace, k));
  }

  // ---------------------------------------------------------------------
  // The end of destroyProcessQueue
  // ---------------------------------------------------------------------

  /** Closed with nothing scheduled: no task body is running, and none can start. */
  ghost predicate NoBodies(s: State) {
    s.closed && forall t :: t in s.pcs ==> !MayStartBody(s.pcs[t]) && !InBody(s, t)
  }

  lemma WaitEndsBodies(s: State)
    requires TokenOk(s) && s.closed && !s.scheduled
    ensures NoBodies(s)
  {
  }

  lemma GoNextNoBody(pc: Pc, seen: Seen, n: nat)
    requires GoStep(pc) && seen.closed
    ensures var next := GoNext(pc, seen, n); next.At? ==> !MayStartBody(next.pc) && !next.pc.Body?
  {
  }

  lemma RingNextNoBody(pc: Pc, e: Ring.Event, n: nat)
    requires n > 0 && RingStep(pc, e) && !MayStartBody(pc)
    ensures var next := RingNext(pc, e, n); next.At? ==> !MayStartBody(next.pc) && !(next.pc.Body? && next.pc.run)
  {
  }

  lemma NoBodiesStep(s: State, t: Tid, ev: Event)
    requires NoBodies(s) && Enabled(s, t, ev)
    ensures NoBodies(Apply(s, t, ev))
  {
    match ev {
      case Go => GoNextNoBody(s.pcs[t], Look(s, s.pcs[t]), N(s));
      case InRing(e) => RingNextNoBody(s.pcs[t], e, N(s));
      case _ =>
    }
  }

  lemma {:induction false} NoBodiesRun(s: State, trace: seq<Label>)
    requires NoBodies(s) && CanRun(s, trace)
    ensures NoBodies(RunAll(s, trace))
    decreases |trace|
  {
    if trace != [] {
      NoBodiesStep(s, trace[0].t, trace[0].ev);
      NoBodiesRun(Apply(s, trace[0].t, trace[0].ev), trace[1..]);
    }
  }

  /**
    When a destroyer stops waiting, no task body is running and none ever starts again; so no post made
    by a task is in flight from then on, and only external posters can still be between their check of
    `closed` and the publication of a task.
   */
  lemma NoBodyAfterWait(caps: seq<nat>, before: seq<Label>, t: Tid, after: seq<Label>, u: Tid)
    requires Capacities(caps) && CanRun(Init(caps), before)
    requires var s := RunAll(Init(caps), before); t in s.pcs && s.pcs[t].XWait? && Enabled(s, t, Go)
    requires CanRun(RunAll(Init(caps), before), after)
    ensures !InBody(RunAll(Init(caps), before), u) && !InBody(RunAll(RunAll(Init(caps), before), after), u)
  {
    InitInv(caps);
    RunInv(Init(caps), before);
    var s := RunAll(Init(caps), before);
    assert AfterClose(s.pcs[t]);
    WaitEndsBodies(s);
    NoBodiesRun(s, after);
  }

  /** No thread is between a post's closed check and the publication of its task. */
  ghost predicate NoPosters(s: State) {
    forall t :: t in s.pcs ==> !s.pcs[t].PostEntry? && !s.pcs[t].Emplace?
  }

  /** The sub-queues that the destroying thread has already emptied. */
  function Swept(pc: Pc, n: nat): nat {
    match pc
    case Discard(fin, i) => if fin then i else 0
    case DTry(fin, i) => if fin then i else 0
    case DHold(fin, i) => if fin then i else 0
    case DRec(fin, i) => if fin then i else 0
    case XDone => n
    case _ => 0
  }

  /** The destroying thread has seen sub-queue k empty. */
  predicate SawEmpty(s: State, t: Tid, k: nat)
    requires k < N(s)
  {
    t in s.pcs && s.pcs[t] == DTry(true, k) && t in s.rings[k].ops && Refused(s.rings[k].ops[t])
  }

  predicate SweptAt(s: State, t: Tid, k: nat)
    requires k < N(s)
  {
    t in s.pcs && (k < Swept(s.pcs[t], N(s)) || SawEmpty(s, t, k)) ==> !NonEmpty(s, k)
  }

  /** What thread t counts as emptied is empty and stays so. */
  ghost predicate QuietOk(s: State, t: Tid) {
    && s.closed && NoPosters(s)
    && forall k :: 0 <= k < N(s) ==> SweptAt(s, t, k)
  }

  lemma EmptyStays(r: Ring.State, t: Tid, e: Ring.Event)
    requires Ring.Inv(r) && Ring.Enabled(r, t, e) && !e.CasHead? && r.tail == r.head
    ensures Ring.Apply(r, t, e).tail == Ring.Apply(r, t, e).head
  {
    if e.CasTail? { Ring.TailClaim(r, t); }
  }

  lemma RingNextSwept(pc: Pc, e: Ring.Event, n: nat)
    requires n > 0 && RingStep(pc, e) && InRange(pc, n)
    ensures var next := RingNext(pc, e, n);
            next.At? ==> Swept(next.pc, n) <= (if pc.DTry? && pc.fin && e.DeqFalse? then pc.i + 1 else Swept(pc, n))
    ensures var next := RingNext(pc, e, n);
            next.At? && next.pc.DTry? && pc != next.pc ==> e.StartDeq?
    ensures var next := RingNext(pc, e, n);
            next.At? && !pc.PostEntry? && !pc.Emplace? ==> !next.pc.PostEntry? && !next.pc.Emplace?
  {
  }

  lemma GoNextSwept(pc: Pc, seen: Seen, n: nat)
    requires GoStep(pc)
    ensures var next := GoNext(pc, seen, n);
            next.At? ==> Swept(next.pc, n) == 0 && !next.pc.DTry? && !next.pc.PostEntry? && !next.pc.Emplace?
  {
  }

  /** With posters stopped, an attempt that gives up has seen a truly empty ring. */
  lemma GaveUpOnEmpty(s: State, t: Tid, k: nat)
    requires Inv(s) && NoPosters(s) && k < N(s) && Ring.Enabled(s.rings[k], t, Ring.LoadDeqSeq)
    requires Ring.Enabled(Ring.Apply(s.rings[k], t, Ring.LoadDeqSeq), t, Ring.DeqFalse)
    ensures !NonEmpty(s, k)
  {
    Ring.DequeueFalseMeansEmpty(s.rings[k], t);
    if NonEmpty(s, k) {
      OldestIsEmplacing(s, k);
    }
  }

  lemma OldestIsEmplacing(s: State, k: nat)
    requires Wired(s) && k < N(s) && NonEmpty(s, k) && !Ring.HasItem(s.rings[k])
    ensures exists w :: w in s.pcs && s.pcs[w].Emplace?
  {
    var r := s.rings[k];
    Ring.OldestTask(r);
    var w := r.owner[Ring.Slot(r.tail, r.cap)];
    assert RingOpOk(s, k, w) && ThreadOk(s, w);
    assert w in s.pcs && s.pcs[w].Emplace?;
  }

  lemma QuietRingStep(s: State, l: Tid, e: Ring.Event, t: Tid, k: nat)
    requires Inv(s) && QuietOk(s, t) && Enabled(s, l, InRing(e)) && k < N(s)
    ensures SweptAt(RingApply(s, l, e), t, k)
  {
    if !NonEmpty(s, k) {
      StaysSwept(s, l, e, k);
    } else if l != t {
      assert SweptAt(s, t, k);
      OthersSweep(s, l, e, t, k);
    } else if t in RingApply(s, l, e).pcs {
      OwnSweep(s, t, e, k);
    }
  }

  /** An empty sub-queue stays empty, since nobody posts. */
  lemma StaysSwept(s: State, l: Tid, e: Ring.Event, k: nat)
    requires Inv(s) && NoPosters(s) && Enabled(s, l, InRing(e)) && k < N(s) && !NonEmpty(s, k)
    ensures k < N(RingApply(s, l, e)) && !NonEmpty(RingApply(s, l, e), k)
  {
    assert ThreadOk(s, l);
    if Target(s.pcs[l], N(s)) == k { EmptyStays(s.rings[k], l, e); }
  }

  /** A step of another thread changes nothing of what t counts as emptied. */
  lemma OthersSweep(s: State, l: Tid, e: Ring.Event, t: Tid, k: nat)
    requires Inv(s) && Enabled(s, l, InRing(e)) && k < N(s) && NonEmpty(s, k) && l != t && SweptAt(s, t, k)
    ensures SweptAt(RingApply(s, l, e), t, k)
  {
    assert ThreadOk(s, l);
    Ring.OpsFrame(s.rings[Target(s.pcs[l], N(s))], l, e, t);
  }

  /** The destroying thread's own step never counts a non-empty sub-queue as emptied. */
  lemma OwnSweep(s: State, t: Tid, e: Ring.Event, k: nat)
    requires Inv(s) && QuietOk(s, t) && Enabled(s, t, InRing(e)) && k < N(s) && NonEmpty(s, k)
    requires t in RingApply(s, t, e).pcs
    ensures k >= Swept(RingApply(s, t, e).pcs[t], N(s)) && !SawEmpty(RingApply(s, t, e), t, k)
  {
    var s' := RingApply(s, t, e);
    assert ThreadOk(s, t) && SweptAt(s, t, k);
    RingNextSwept(s.pcs[t], e, N(s));
    if SawEmpty(s', t, k) {
      if e.LoadDeqSeq? { GaveUpOnEmpty(s, t, k); }
    }
  }

  lemma QuietStep(s: State, l: Tid, ev: Event, t: Tid)
    requires Inv(s) && QuietOk(s, t) && Enabled(s, l, ev)
    ensures QuietOk(Apply(s, l, ev), t)
  {
    var s' := Apply(s, l, ev);
    forall k | 0 <= k < N(s') ensures SweptAt(s', t, k) {
      assert SweptAt(s, t, k);
      match ev {
        case InRing(e) => QuietRingStep(s, l, e, t, k);
        case Go => GoNextSwept(s.pcs[l], Look(s, s.pcs[l]), N(s));
        case _ =>
      }
    }
    QuietPosters(s, l, ev);
  }

  lemma QuietPosters(s: State, l: Tid, ev: Event)
    requires Inv(s) && s.closed && NoPosters(s) && Enabled(s, l, ev)
    ensures NoPosters(Apply(s, l, ev))
  {
    match ev {
      case Go => GoNextSwept(s.pcs[l], Look(s, s.pcs[l]), N(s));
      case InRing(e) =>
        assert ThreadOk(s, l);
        RingNextSwept(s.pcs[l], e, N(s));
      case _ =>
    }
  }

  lemma {:induction false} QuietRun(s: State, trace: seq<Label>, t: Tid)
    requires Inv(s) && QuietOk(s, t) && CanRun(s, trace)
    ensures Inv(RunAll(s, trace)) && QuietOk(RunAll(s, trace), t)
    decreases |trace|
  {
    if trace != [] {
      StepInv(s, trace[0].t, trace[0].ev);
      QuietStep(s, trace[0].t, trace[0].ev, t);
      QuietRun(Apply(s, trace[0].t, trace[0].ev), trace[1..], t);
    }
  }

  /**
    A destroyer stops waiting at a moment when no post is in flight (NoBodyAfterWait: posts of tasks
    never are).  In every continuation, whatever other threads still do, when its sweep has ended every
    sub-queue is empty.
   */
  lemma DestroyLeavesNothing(caps: seq<nat>, before: seq<Label>, t: Tid, after: seq<Label>, k: nat)
    requires Capacities(caps) && CanRun(Init(caps), before)
    requires var s := RunAll(Init(caps), before); t in s.pcs && s.pcs[t].XWait? && NoPosters(s)
    requires CanRun(RunAll(Init(caps), before), after)
    requires var s := RunAll(RunAll(Init(caps), before), after); t in s.pcs && s.pcs[t].XDone? && k < N(s)
    ensures !NonEmpty(RunAll(RunAll(Init(caps), before), after), k)
  {
    InitInv(caps);
    RunInv(Init(caps), before);
    SweepEmpties(RunAll(Init(caps), before), after, t, k);
  }

  lemma SweepEmpties(s: State, after: seq<Label>, t: Tid, k: nat)
    requires Inv(s) && t in s.pcs && s.pcs[t].XWait? && NoPosters(s) && CanRun(s, after)
    requires t in RunAll(s, after).pcs && RunAll(s, after).pcs[t].XDone? && k < N(RunAll(s, after))
    ensures !NonEmpty(RunAll(s, after), k)
  {
    assert AfterClose(s.pcs[t]);
    assert QuietOk(s, t);
    QuietRun(s, after, t);
    assert SweptAt(RunAll(s, after), t, k);
  }
}
