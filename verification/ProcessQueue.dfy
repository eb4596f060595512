/**
  A process queue: several sub-queue rings, a `scheduled` flag, and any number of
  threads posting to it, draining it and destroying it (ControlScheduler).

  One atomic access per step; the steps of a ring are the steps of module Ring.  The
  pool is a counter of queued drain tasks, since the pool's own ring hands each
  queued task to exactly one worker.  A post made from inside a task body is one
  more posting thread.  The destroying thread may go on as soon as `scheduled` is false;
  the source waits for `draining` to be false as well, so every run of the source is a
  run of the model.
 */
module ProcessQueue {
  import Ring

  type Tid = Ring.Tid

  /** Locals of a drain: the round-robin start, and (history) for each sub-queue how many tasks of
      other sub-queues this drain has run since it last served that one or found it empty. */
  datatype Drain = Drain(rr: nat, waited: seq<nat>)

  datatype Who = ByDrain(d: Drain) | ByDestroy

  datatype Pc =
    // post
    | PostEntry(k: nat, task: Ring.Task)       // closed seen false
    | Emplace(k: nat)                          // inside tryEmplace
    | Exchange(k: nat)                         // task published
    | PoolPush                                 // scheduled was false
    // drainProcessQueue
    | DTop(d: Drain)
    | Scan(run: bool, d: Drain, off: nat)      // about to try sub-queue rr + off
    | Try(run: bool, d: Drain, off: nat)       // inside its tryConsumeOne
    | Body(run: bool, k: nat, d: Drain)        // claimed a task; in its body when run
    | Recyc(run: bool, k: nat, d: Drain)       // task destroyed
    | AfterOne(run: bool, d: Drain)
    | Clear(d: Drain)                          // about to store scheduled := false
    | ReClosed(d: Drain)                       // about to re-read closed
    | Pend(who: Who, i: nat)                   // hasItem: about to load tail of sub-queue i
    | PendSeq(who: Who, i: nat, pos: nat)      // hasItem: about to load the slot's sequence
    | Cas(d: Drain)                            // about to re-take scheduled
    | Discard(fin: bool, i: nat)               // discardAll; fin in destroyProcessQueue
    | DTry(fin: bool, i: nat)
    | DHold(fin: bool, i: nat)
    | DRec(fin: bool, i: nat)
    // destroyProcessQueue
    | XExch
    | XPush
    | XWait
    | XDone

  /** History: who is entitled to drain. */
  datatype Token = NoToken | InPool | HeldBy(t: Tid)

  datatype State = State(
    rings: seq<Ring.State>, scheduled: bool, closed: bool, pool: nat, pcs: map<Tid, Pc>,
    token: Token, late: nat)   // late: task bodies started after closed was set

  datatype Event =
    | BeginPost(k: nat, task: Ring.Task)
    | BeginDrain
    | BeginDestroy
    | CloseInTask              // destroyProcessQueue called by a task: sets closed and defers
    | Go
    | InRing(e: Ring.Event)

  datatype Next = Idle | At(pc: Pc)

  function N(s: State): nat { |s.rings| }

  function Idx(rr: nat, off: nat, n: nat): nat
    requires n > 0
  {
    if rr + off < n then rr + off else rr + off - n
  }

  function After(k: nat, n: nat): nat { if k + 1 == n then 0 else k + 1 }

  /** The sub-queue whose ring the next step of `pc` works on. */
  function Target(pc: Pc, n: nat): nat
    requires n > 0
  {
    match pc
    case PostEntry(k, _) => k
    case Emplace(k) => k
    case Scan(_, d, off) => Idx(d.rr, off, n)
    case Try(_, d, off) => Idx(d.rr, off, n)
    case Body(_, k, _) => k
    case Recyc(_, k, _) => k
    case Discard(_, i) => i
    case DTry(_, i) => i
    case DHold(_, i) => i
    case DRec(_, i) => i
    case _ => 0
  }

  predicate Emplacing(e: Ring.Event) {
    e.LoadEnqSeq? || e.CasHead? || e.CasHeadFail? || e.EnqFalse? || e.ReloadHead? || e.SetTask? || e.Publish?
  }

  predicate Consuming(e: Ring.Event) {
    e.LoadDeqSeq? || e.CasTail? || e.CasTailFail? || e.DeqFalse? || e.ReloadTail?
  }

  predicate RingStep(pc: Pc, e: Ring.Event) {
    match pc
    case PostEntry(_, task) => e == Ring.StartEnq(task)
    case Emplace(_) => Emplacing(e)
    case Scan(_, _, _) => e.StartDeq?
    case Try(_, _, _) => Consuming(e)
    case Body(_, _, _) => e.Clean?
    case Recyc(_, _, _) => e.Recycle?
    case Discard(_, _) => e.StartDeq?
    case DTry(_, _) => Consuming(e)
    case DHold(_, _) => e.Clean?
    case DRec(_, _) => e.Recycle?
    case _ => false
  }

  predicate GoStep(pc: Pc) {
    pc.Exchange? || pc.PoolPush? || pc.DTop? || pc.AfterOne? || pc.Clear? || pc.ReClosed? || pc.Pend? || pc.PendSeq?
    || pc.Cas? || pc.XExch? || pc.XPush? || pc.XWait?
  }

  predicate Enabled(s: State, t: Tid, ev: Event) {
    && N(s) > 0
    && match ev
       case BeginPost(k, _) => t !in s.pcs && k < N(s) && !s.closed
       case BeginDrain => t !in s.pcs && s.pool > 0
       case BeginDestroy => t !in s.pcs
       case CloseInTask => true
       case Go =>
         && t in s.pcs
         && GoStep(s.pcs[t])
         && (s.pcs[t].XWait? ==> !s.scheduled)
         && (s.pcs[t].Pend? || s.pcs[t].PendSeq? ==> s.pcs[t].i < N(s) && Ring.Shape(s.rings[s.pcs[t].i]))
       case InRing(e) =>
         && t in s.pcs
         && RingStep(s.pcs[t], e)
         && Target(s.pcs[t], N(s)) < N(s)
         && Ring.Shape(s.rings[Target(s.pcs[t], N(s))])
         && Ring.Enabled(s.rings[Target(s.pcs[t], N(s))], t, e)
  }

  function Zeros(n: nat): (z: seq<nat>)
    ensures |z| == n
  {
    seq(n, i => 0)
  }

  /** One more task of sub-queue k has been run. */
  function Served(w: seq<nat>, k: nat): (w': seq<nat>)
    ensures |w'| == |w|
  {
    seq(|w|, j requires 0 <= j < |w| => if j == k then 0 else w[j] + 1)
  }

  function FoundEmpty(w: seq<nat>, k: nat): (w': seq<nat>)
    ensures |w'| == |w|
  {
    if k < |w| then w[k := 0] else w
  }

  /** Where a ring step leaves the thread. */
  function RingNext(pc: Pc, e: Ring.Event, n: nat): Next
    requires n > 0 && RingStep(pc, e)
  {
    match pc
    case PostEntry(k, _) => At(Emplace(k))
    case Emplace(k) => if e.EnqFalse? then Idle else if e.Publish? then At(Exchange(k)) else At(pc)
    case Scan(run, d, off) => At(Try(run, d, off))
    case Try(run, d, off) =>
      var k := Idx(d.rr, off, n);
      if e.DeqFalse? then
        var d' := Drain(d.rr, FoundEmpty(d.waited, k));
        At(if off + 1 < n then Scan(run, d', off + 1) else Clear(d'))
      else if e.CasTail? then At(Body(run, k, Drain(After(k, n), Served(d.waited, k))))
      else At(pc)
    case Body(run, k, d) => At(Recyc(run, k, d))
    case Recyc(run, k, d) => At(AfterOne(run, d))
    case Discard(fin, i) => At(DTry(fin, i))
    case DTry(fin, i) =>
      if e.DeqFalse? then
        (if i + 1 < n then At(Discard(fin, i + 1)) else if fin then At(XDone) else Idle)
      else if e.CasTail? then At(DHold(fin, i))
      else At(pc)
    case DHold(fin, i) => At(DRec(fin, i))
    case DRec(fin, i) => At(Discard(fin, i))
  }

  function Move(pcs: map<Tid, Pc>, t: Tid, next: Next): map<Tid, Pc> {
    if next.Idle? then pcs - {t} else pcs[t := next.pc]
  }

  /** What the step of a thread outside the rings reads. */
  datatype Seen = Seen(scheduled: bool, closed: bool, tail: nat, found: bool)

  function Look(s: State, pc: Pc): Seen
    requires (pc.Pend? || pc.PendSeq?) ==> pc.i < N(s) && Ring.Shape(s.rings[pc.i])
  {
    Seen(s.scheduled, s.closed,
         if pc.Pend? then s.rings[pc.i].tail else 0,
         pc.PendSeq? && s.rings[pc.i].seqs[Ring.Slot(pc.pos, s.rings[pc.i].cap)] == pc.pos + 1)
  }

  function GoNext(pc: Pc, seen: Seen, n: nat): Next
    requires GoStep(pc)
  {
    match pc
    case Exchange(_) => if seen.scheduled then Idle else At(PoolPush)
    case PoolPush => Idle
    case DTop(d) => At(Scan(!seen.closed, d, 0))
    case AfterOne(run, d) => At(if seen.closed then Clear(d) else Scan(run, d, 0))
    case Clear(d) => At(ReClosed(d))
    case ReClosed(d) => At(if seen.closed then Discard(false, 0) else Pend(ByDrain(d), 0))
    case Pend(who, i) => At(PendSeq(who, i, seen.tail))
    case PendSeq(who, i, _) =>
      if seen.found then At(if who.ByDestroy? then XExch else Cas(who.d))
      else if i + 1 < n then At(Pend(who, i + 1))
      else if who.ByDestroy? then At(XWait) else Idle
    case Cas(d) => if seen.scheduled then Idle else At(DTop(d))
    case XExch => At(if seen.scheduled then XWait else XPush)
    case XPush => At(XWait)
    case XWait => At(Discard(true, 0))
  }

  /** The exchange or compare-exchange that turns scheduled from false to true. */
  predicate Takes(pc: Pc, scheduled: bool) { (pc.Exchange? || pc.Cas? || pc.XExch?) && !scheduled }

  /** The pool accepts the drain task. */
  predicate Hands(pc: Pc) { pc.PoolPush? || pc.XPush? }

  function GoApply(s: State, t: Tid): State
    requires Enabled(s, t, Go)
  {
    var pc := s.pcs[t];
    s.(scheduled := if Takes(pc, s.scheduled) then true else if pc.Clear? then false else s.scheduled,
       pool := if Hands(pc) then s.pool + 1 else s.pool,
       token := if Takes(pc, s.scheduled) then HeldBy(t) else if Hands(pc) then InPool else if pc.Clear?
           then NoToken else s.token,
       pcs := Move(s.pcs, t, GoNext(pc, Look(s, pc), N(s))))
  }

  /** The step at which a claimed task's body starts. */
  predicate StartsBody(pc: Pc, e: Ring.Event) {
    pc.Try? && pc.run && e.CasTail?
  }

  function RingApply(s: State, t: Tid, e: Ring.Event): State
    requires Enabled(s, t, InRing(e))
  {
    var pc := s.pcs[t];
    var k := Target(pc, N(s));
    s.(rings := s.rings[k := Ring.Apply(s.rings[k], t, e)],
       pcs := Move(s.pcs, t, RingNext(pc, e, N(s))),
       late := s.late + (if StartsBody(pc, e) && s.closed then 1 else 0))
  }

  function Apply(s: State, t: Tid, ev: Event): State
    requires Enabled(s, t, ev)
  {
    match ev
    case BeginPost(k, task) => s.(pcs := Move(s.pcs, t, At(PostEntry(k, task))))
    case BeginDrain => s.(pool := s.pool - 1, token := HeldBy(t),
        pcs := Move(s.pcs, t, At(DTop(Drain(0, Zeros(N(s)))))))
    case BeginDestroy => s.(closed := true, pcs := Move(s.pcs, t, At(Pend(ByDestroy, 0))))
    case CloseInTask => s.(closed := true)
    case Go => GoApply(s, t)
    case InRing(e) => RingApply(s, t, e)
  }

  function Init(caps: seq<nat>): State
    requires forall k :: 0 <= k < |caps| ==> caps[k] >= 2
  {
    State(seq(|caps|, k requires 0 <= k < |caps| => Ring.Init(caps[k])), false, false, 0, map[], NoToken, 0)
  }

  // ---------------------------------------------------------------------
  // Invariant 1: threads and rings agree
  // ---------------------------------------------------------------------

  predicate DrainOk(d: Drain, n: nat) { d.rr < n && |d.waited| == n }

  predicate WhoOk(who: Who, n: nat) { who.ByDrain? ==> DrainOk(who.d, n) }

  predicate InRange(pc: Pc, n: nat) {
    match pc
    case PostEntry(k, _) => k < n
    case Emplace(k) => k < n
    case Exchange(k) => k < n
    case DTop(d) => DrainOk(d, n)
    case Scan(_, d, off) => DrainOk(d, n) && off < n
    case Try(_, d, off) => DrainOk(d, n) && off < n
    case Body(_, k, d) => k < n && DrainOk(d, n)
    case Recyc(_, k, d) => k < n && DrainOk(d, n)
    case AfterOne(_, d) => DrainOk(d, n)
    case Clear(d) => DrainOk(d, n)
    case ReClosed(d) => DrainOk(d, n)
    case Pend(who, i) => WhoOk(who, n) && i < n
    case PendSeq(who, i, _) => WhoOk(who, n) && i < n
    case Cas(d) => DrainOk(d, n)
    case Discard(_, i) => i < n
    case DTry(_, i) => i < n
    case DHold(_, i) => i < n
    case DRec(_, i) => i < n
    case _ => true
  }

  predicate Inside(pc: Pc) {
    pc.Emplace? || pc.Try? || pc.Body? || pc.Recyc? || pc.DTry? || pc.DHold? || pc.DRec?
  }

  predicate OpFits(pc: Pc, op: Ring.Op) {
    match pc
    case Emplace(_) => op.EnqPos? || op.EnqSeq? || op.EnqHold? || op.EnqSet?
    case Try(_, _, _) => op.DeqPos? || op.DeqSeq?
    case Body(_, _, _) => op.DeqHold?
    case Recyc(_, _, _) => op.DeqClean?
    case DTry(_, _) => op.DeqPos? || op.DeqSeq?
    case DHold(_, _) => op.DeqHold?
    case DRec(_, _) => op.DeqClean?
    case _ => false
  }

  predicate ThreadOk(s: State, t: Tid)
    requires N(s) > 0 && t in s.pcs
  {
    var pc := s.pcs[t];
    && InRange(pc, N(s))
    && (Inside(pc) ==> Target(pc, N(s)) < N(s))
    && (Inside(pc) ==>
          var r := s.rings[Target(pc, N(s))];
          t in r.ops && OpFits(pc, r.ops[t]))
  }

  /** A thread with a position in ring k is inside an operation on ring k. */
  predicate RingOpOk(s: State, k: nat, t: Tid)
    requires N(s) > 0 && k < N(s)
  {
    t in s.rings[k].ops ==> t in s.pcs && Inside(s.pcs[t]) && Target(s.pcs[t], N(s)) == k
  }

  ghost predicate Wired(s: State) {
    && N(s) > 0
    && (forall k :: 0 <= k < N(s) ==> Ring.Inv(s.rings[k]))
    && (forall t :: t in s.pcs ==> ThreadOk(s, t))
    && (forall k, t :: 0 <= k < N(s) && t in s.rings[k].ops ==> RingOpOk(s, k, t))
  }

  lemma WiredInit(caps: seq<nat>)
    requires |caps| > 0 && forall k :: 0 <= k < |caps| ==> caps[k] >= 2
    ensures Wired(Init(caps))
  {
    forall k | 0 <= k < |caps| ensures Ring.Inv(Ring.Init(caps[k])) { Ring.InitInv(caps[k]); }
  }

  /** A thread outside the rings moves to `next`. */
  lemma MoveOutside(s: State, t: Tid, next: Next, s': State)
    requires Wired(s) && s'.rings == s.rings && s'.pcs == Move(s.pcs, t, next)
    requires t in s.pcs ==> !Inside(s.pcs[t])
    requires next.At? ==> InRange(next.pc, N(s)) && !Inside(next.pc)
    ensures Wired(s')
  {
    forall u | u in s'.pcs ensures ThreadOk(s', u) { assert u != t ==> ThreadOk(s, u); }
    forall j, u | 0 <= j < N(s') && u in s'.rings[j].ops ensures RingOpOk(s', j, u) { assert RingOpOk(s, j, u); }
  }

  lemma GoNextInRange(pc: Pc, seen: Seen, n: nat)
    requires GoStep(pc) && n > 0 && InRange(pc, n)
    ensures var next := GoNext(pc, seen, n); next.At? ==> InRange(next.pc, n) && !Inside(next.pc)
  {
  }

  lemma RingNextInRange(pc: Pc, e: Ring.Event, n: nat)
    requires n > 0 && RingStep(pc, e) && InRange(pc, n)
    ensures Target(pc, n) < n
    ensures var next := RingNext(pc, e, n); next.At? ==>
              && InRange(next.pc, n)
              && (Inside(next.pc) ==> Target(next.pc, n) == Target(pc, n))
  {
  }

  /** The thread is inside the ring afterwards exactly when the ring still has a position for it. */
  lemma RingNextFits(pc: Pc, e: Ring.Event, n: nat, r: Ring.State, t: Tid)
    requires n > 0 && RingStep(pc, e) && Ring.Shape(r) && Ring.Enabled(r, t, e)
    requires Inside(pc) ==> t in r.ops && OpFits(pc, r.ops[t])
    ensures var next, ops := RingNext(pc, e, n), Ring.Apply(r, t, e).ops;
            if next.At? && Inside(next.pc) then t in ops && OpFits(next.pc, ops[t]) else t !in ops
  {
    Ring.OpAfter(r, t, e);
  }

  /** A thread takes a step of ring k and moves to `next`. */
  lemma MoveInside(s: State, t: Tid, e: Ring.Event, k: nat, next: Next, s': State)
    requires Wired(s) && t in s.pcs && k < N(s) && Ring.Enabled(s.rings[k], t, e)
    requires s'.rings == s.rings[k := Ring.Apply(s.rings[k], t, e)] && s'.pcs == Move(s.pcs, t, next)
    requires Inside(s.pcs[t]) ==> Target(s.pcs[t], N(s)) == k
    requires next.At? ==> InRange(next.pc, N(s))
    requires next.At? && Inside(next.pc) ==> Target(next.pc, N(s)) == k
    requires if next.At? && Inside(next.pc) then t in s'.rings[k].ops && OpFits(next.pc, s'.rings[k].ops[t])
             else t !in s'.rings[k].ops
    ensures Wired(s')
  {
    Ring.StepInv(s.rings[k], t, e);
    forall u | u in s'.pcs ensures ThreadOk(s', u) {
      if u != t { assert ThreadOk(s, u); Ring.OpsFrame(s.rings[k], t, e, u); }
    }
    forall j: nat, u | j < N(s') && u in s'.rings[j].ops ensures RingOpOk(s', j, u) {
      MoveInsideOps(s, t, e, k, next, s', j, u);
    }
  }

  lemma MoveInsideOps(s: State, t: Tid, e: Ring.Event, k: nat, next: Next, s': State, j: nat, u: Tid)
    requires Wired(s) && t in s.pcs && k < N(s) && Ring.Enabled(s.rings[k], t, e)
    requires s'.rings == s.rings[k := Ring.Apply(s.rings[k], t, e)] && s'.pcs == Move(s.pcs, t, next)
    requires Inside(s.pcs[t]) ==> Target(s.pcs[t], N(s)) == k
    requires next.At? && Inside(next.pc) ==> Target(next.pc, N(s)) == k
    requires if next.At? && Inside(next.pc) then t in s'.rings[k].ops && OpFits(next.pc, s'.rings[k].ops[t])
             else t !in s'.rings[k].ops
    requires j < N(s') && u in s'.rings[j].ops
    ensures RingOpOk(s', j, u)
  {
    if u != t { Ring.OpsFrame(s.rings[k], t, e, u); }
    if u in s.rings[j].ops { assert RingOpOk(s, j, u); }
  }

  lemma SameThreads(s: State, s': State)
    requires Wired(s) && s'.rings == s.rings && s'.pcs == s.pcs
    ensures Wired(s')
  {
    forall u | u in s'.pcs ensures ThreadOk(s', u) { assert ThreadOk(s, u); }
    forall j, u | 0 <= j < N(s') && u in s'.rings[j].ops ensures RingOpOk(s', j, u) { assert RingOpOk(s, j, u); }
  }

  lemma WiredRingStep(s: State, t: Tid, e: Ring.Event)
    requires Wired(s) && Enabled(s, t, InRing(e))
    ensures Wired(RingApply(s, t, e))
  {
    assert ThreadOk(s, t);
    var k := Target(s.pcs[t], N(s));
    RingNextInRange(s.pcs[t], e, N(s));
    RingNextFits(s.pcs[t], e, N(s), s.rings[k], t);
    MoveInside(s, t, e, k, RingNext(s.pcs[t], e, N(s)), RingApply(s, t, e));
  }

  lemma WiredStep(s: State, t: Tid, ev: Event)
    requires Wired(s) && Enabled(s, t, ev)
    ensures Wired(Apply(s, t, ev))
  {
    if t in s.pcs { assert ThreadOk(s, t); }
    match ev {
      case Go =>
        GoNextInRange(s.pcs[t], Look(s, s.pcs[t]), N(s));
        MoveOutside(s, t, GoNext(s.pcs[t], Look(s, s.pcs[t]), N(s)), GoApply(s, t));
      case InRing(e) => WiredRingStep(s, t, e);
      case BeginPost(k, task) => MoveOutside(s, t, At(PostEntry(k, task)), Apply(s, t, ev));
      case BeginDrain => MoveOutside(s, t, At(DTop(Drain(0, Zeros(N(s))))), Apply(s, t, ev));
      case BeginDestroy => MoveOutside(s, t, At(Pend(ByDestroy, 0)), Apply(s, t, ev));
      case CloseInTask => SameThreads(s, Apply(s, t, ev));
    }
  }

  // ---------------------------------------------------------------------
  // Invariant 2: a true `scheduled` flag has exactly one holder
  // ---------------------------------------------------------------------

  /** A poster (or destroyer) about to enqueue the drain, or a drain up to its store to scheduled. */
  predicate Holder(pc: Pc) {
    pc.PoolPush? || pc.XPush? || pc.DTop? || pc.Scan? || pc.Try? || pc.Body? || pc.Recyc? || pc.AfterOne? || pc.Clear?
  }

  ghost predicate TokenOk(s: State) {
    && (s.scheduled <==> s.token != NoToken)
    && s.pool == (if s.token == InPool then 1 else 0)
    && (forall t :: t in s.pcs ==> (Holder(s.pcs[t]) <==> s.token == HeldBy(t)))
    && (s.token.HeldBy? ==> s.token.t in s.pcs)
  }

  lemma MoveToken(s: State, t: Tid, next: Next, s': State)
    requires TokenOk(s) && s'.pcs == Move(s.pcs, t, next)
    requires s'.token == s.token || s'.token == HeldBy(t) || s.token == HeldBy(t) || s.token == NoToken
    requires s'.token.HeldBy? && s'.token != HeldBy(t) ==> s'.token == s.token
    requires s.token.HeldBy? && s.token != HeldBy(t) ==> s'.token == s.token
    requires s'.scheduled <==> s'.token != NoToken
    requires s'.pool == (if s'.token == InPool then 1 else 0)
    requires next.At? && Holder(next.pc) <==> s'.token == HeldBy(t)
    ensures TokenOk(s')
  {
  }

  lemma GoNextHolder(pc: Pc, seen: Seen, n: nat)
    requires GoStep(pc)
    ensures var next := GoNext(pc, seen, n);
            next.At? && Holder(next.pc) <==>
              Takes(pc, seen.scheduled) || (Holder(pc) && !Hands(pc) && !pc.Clear?)
    ensures Hands(pc) || pc.Clear? ==> Holder(pc)
    ensures Takes(pc, seen.scheduled) ==> !Holder(pc)
  {
  }

  lemma RingNextHolder(pc: Pc, e: Ring.Event, n: nat)
    requires n > 0 && RingStep(pc, e)
    ensures var next := RingNext(pc, e, n); next.At? && Holder(next.pc) <==> Holder(pc)
  {
  }

  lemma TokenStep(s: State, t: Tid, ev: Event)
    requires TokenOk(s) && Enabled(s, t, ev)
    ensures TokenOk(Apply(s, t, ev))
  {
    match ev {
      case Go =>
        GoNextHolder(s.pcs[t], Look(s, s.pcs[t]), N(s));
        MoveToken(s, t, GoNext(s.pcs[t], Look(s, s.pcs[t]), N(s)), GoApply(s, t));
      case InRing(e) =>
        RingNextHolder(s.pcs[t], e, N(s));
        MoveToken(s, t, RingNext(s.pcs[t], e, N(s)), RingApply(s, t, e));
      case BeginPost(k, task) => MoveToken(s, t, At(PostEntry(k, task)), Apply(s, t, ev));
      case BeginDrain => MoveToken(s, t, At(DTop(Drain(0, Zeros(N(s))))), Apply(s, t, ev));
      case BeginDestroy => MoveToken(s, t, At(Pend(ByDestroy, 0)), Apply(s, t, ev));
      case CloseInTask =>
    }
  }

  // ---------------------------------------------------------------------
  // Invariant 3: closing
  // ---------------------------------------------------------------------

  /** Only reached after closed was seen or set. */
  predicate AfterClose(pc: Pc) {
    pc.Discard? || pc.DTry? || pc.DHold? || pc.DRec? || pc.XExch? || pc.XPush? || pc.XWait? || pc.XDone?
    || ((pc.Pend? || pc.PendSeq?) && pc.who.ByDestroy?)
  }

  predicate MayStartBody(pc: Pc) { (pc.Scan? || pc.Try?) && pc.run }

  ghost predicate ClosedOk(s: State) {
    && (forall t :: t in s.pcs && AfterClose(s.pcs[t]) ==> s.closed)
    && (!s.closed ==> s.late == 0)
    && s.late <= 1
    && (s.late == 1 ==> forall t :: t in s.pcs ==> !MayStartBody(s.pcs[t]))
  }

  lemma MoveClosed(s: State, t: Tid, next: Next, s': State)
    requires ClosedOk(s) && s'.pcs == Move(s.pcs, t, next) && (s.closed ==> s'.closed)
    requires next.At? && AfterClose(next.pc) ==> s'.closed
    requires s'.late == s.late
    requires s.late == 1 && next.At? ==> !MayStartBody(next.pc)
    ensures ClosedOk(s')
  {
  }

  lemma GoNextClosed(pc: Pc, seen: Seen, n: nat)
    requires GoStep(pc)
    ensures var next := GoNext(pc, seen, n);
            && (next.At? && AfterClose(next.pc) ==> AfterClose(pc) || seen.closed)
            && (next.At? && MayStartBody(next.pc) ==> !seen.closed)
  {
  }

  lemma RingNextClosed(pc: Pc, e: Ring.Event, n: nat)
    requires n > 0 && RingStep(pc, e)
    ensures var next := RingNext(pc, e, n);
            && (next.At? && AfterClose(next.pc) ==> AfterClose(pc))
            && (next.At? && MayStartBody(next.pc) ==> MayStartBody(pc) && !StartsBody(pc, e))
    ensures StartsBody(pc, e) ==> MayStartBody(pc) && Holder(pc) && !AfterClose(pc)
  {
  }

  /** The one body that may still start after close: its drain held the token, so no other can. */
  lemma LateBody(s: State, t: Tid, e: Ring.Event)
    requires TokenOk(s) && ClosedOk(s) && Enabled(s, t, InRing(e)) && StartsBody(s.pcs[t], e) && s.closed
    ensures ClosedOk(RingApply(s, t, e))
  {
    var s' := RingApply(s, t, e);
    RingNextClosed(s.pcs[t], e, N(s));
    forall u | u in s'.pcs ensures !MayStartBody(s'.pcs[u]) {
      if u != t { assert Holder(s.pcs[u]) ==> s.token == HeldBy(u); }
    }
  }

  lemma ClosedStep(s: State, t: Tid, ev: Event)
    requires TokenOk(s) && ClosedOk(s) && Enabled(s, t, ev)
    ensures ClosedOk(Apply(s, t, ev))
  {
    match ev {
      case Go =>
        GoNextClosed(s.pcs[t], Look(s, s.pcs[t]), N(s));
        MoveClosed(s, t, GoNext(s.pcs[t], Look(s, s.pcs[t]), N(s)), GoApply(s, t));
      case InRing(e) =>
        RingNextClosed(s.pcs[t], e, N(s));
        if StartsBody(s.pcs[t], e) && s.closed {
          LateBody(s, t, e);
        } else {
          MoveClosed(s, t, RingNext(s.pcs[t], e, N(s)), RingApply(s, t, e));
        }
      case BeginPost(k, task) => MoveClosed(s, t, At(PostEntry(k, task)), Apply(s, t, ev));
      case BeginDrain => MoveClosed(s, t, At(DTop(Drain(0, Zeros(N(s))))), Apply(s, t, ev));
      case BeginDestroy => MoveClosed(s, t, At(Pend(ByDestroy, 0)), Apply(s, t, ev));
      case CloseInTask =>
    }
  }

  // ---------------------------------------------------------------------
  // Invariant 4: round robin
  // ---------------------------------------------------------------------

  /** How many sub-queues a scan starting at rr looks at before sub-queue k. */
  function Dist(rr: nat, k: nat, n: nat): nat
    requires rr < n && k < n
  {
    if k >= rr then k - rr else k + n - rr
  }

  predicate FairAt(d: Drain, off: nat, n: nat, k: nat)
    requires DrainOk(d, n) && k < n
  {
    var dist := Dist(d.rr, k, n);
    if dist < off then d.waited[k] == 0 else d.waited[k] + dist <= n - 1
  }

  predicate Fair(d: Drain, off: nat, n: nat)
    requires DrainOk(d, n)
  {
    forall k :: 0 <= k < n ==> FairAt(d, off, n, k)
  }

  predicate FairPc(pc: Pc, n: nat)
    requires InRange(pc, n)
  {
    match pc
    case DTop(d) => Fair(d, 0, n)
    case Scan(_, d, off) => Fair(d, off, n)
    case Try(_, d, off) => Fair(d, off, n)
    case Body(_, _, d) => Fair(d, 0, n)
    case Recyc(_, _, d) => Fair(d, 0, n)
    case AfterOne(_, d) => Fair(d, 0, n)
    case Clear(d) => Fair(d, 0, n)
    case ReClosed(d) => Fair(d, 0, n)
    case Pend(who, _) => who.ByDrain? ==> Fair(who.d, 0, n)
    case PendSeq(who, _, _) => who.ByDrain? ==> Fair(who.d, 0, n)
    case Cas(d) => Fair(d, 0, n)
    case _ => true
  }

  ghost predicate FairOk(s: State)
    requires Wired(s)
  {
    forall t :: t in s.pcs ==> ThreadOk(s, t) && FairPc(s.pcs[t], N(s))
  }

  lemma ServeKeepsFair(d: Drain, off: nat, n: nat, k: nat)
    requires DrainOk(d, n) && off < n && Fair(d, off, n) && k == Idx(d.rr, off, n)
    ensures k < n && DrainOk(Drain(After(k, n), Served(d.waited, k)), n)
    ensures Fair(Drain(After(k, n), Served(d.waited, k)), 0, n)
  {
    var d' := Drain(After(k, n), Served(d.waited, k));
    forall j | 0 <= j < n ensures FairAt(d', 0, n, j) {
      assert FairAt(d, off, n, j);
    }
  }

  lemma EmptyKeepsFair(d: Drain, off: nat, n: nat, k: nat)
    requires DrainOk(d, n) && off < n && Fair(d, off, n) && k == Idx(d.rr, off, n)
    ensures DrainOk(Drain(d.rr, FoundEmpty(d.waited, k)), n)
    ensures Fair(Drain(d.rr, FoundEmpty(d.waited, k)), off + 1, n)
    ensures off + 1 == n ==> Fair(Drain(d.rr, FoundEmpty(d.waited, k)), 0, n)
  {
    var d' := Drain(d.rr, FoundEmpty(d.waited, k));
    var off' := off + 1;
    forall j | 0 <= j < n ensures FairAt(d', off', n, j) { assert FairAt(d, off, n, j); }
    if off' == n {
      forall j | 0 <= j < n ensures FairAt(d', 0, n, j) { assert FairAt(d', off', n, j); }
    }
  }

  lemma GoNextFair(pc: Pc, seen: Seen, n: nat)
    requires GoStep(pc) && n > 0 && InRange(pc, n) && FairPc(pc, n)
    ensures var next := GoNext(pc, seen, n); next.At? ==> InRange(next.pc, n) && FairPc(next.pc, n)
  {
  }

  lemma RingNextFair(pc: Pc, e: Ring.Event, n: nat)
    requires n > 0 && RingStep(pc, e) && InRange(pc, n) && FairPc(pc, n)
    ensures var next := RingNext(pc, e, n); next.At? ==> InRange(next.pc, n) && FairPc(next.pc, n)
  {
    if pc.Try? {
      ServeKeepsFair(pc.d, pc.off, n, Idx(pc.d.rr, pc.off, n));
      EmptyKeepsFair(pc.d, pc.off, n, Idx(pc.d.rr, pc.off, n));
    }
  }

  lemma MoveFair(s: State, t: Tid, next: Next, s': State)
    requires Wired(s) && Wired(s') && FairOk(s) && N(s') == N(s) && s'.pcs == Move(s.pcs, t, next)
    requires next.At? ==> InRange(next.pc, N(s)) && FairPc(next.pc, N(s))
    ensures FairOk(s')
  {
    forall u | u in s'.pcs ensures ThreadOk(s', u) && FairPc(s'.pcs[u], N(s')) {
      assert ThreadOk(s', u);
      if u != t { assert ThreadOk(s, u) && FairPc(s.pcs[u], N(s)); }
    }
  }

  lemma FairStep(s: State, t: Tid, ev: Event)
    requires Wired(s) && FairOk(s) && Enabled(s, t, ev)
    ensures Wired(Apply(s, t, ev)) && FairOk(Apply(s, t, ev))
  {
    WiredStep(s, t, ev);
    if t in s.pcs { assert ThreadOk(s, t) && FairPc(s.pcs[t], N(s)); }
    match ev {
      case Go =>
        GoNextFair(s.pcs[t], Look(s, s.pcs[t]), N(s));
        MoveFair(s, t, GoNext(s.pcs[t], Look(s, s.pcs[t]), N(s)), GoApply(s, t));
      case InRing(e) =>
        RingNextFair(s.pcs[t], e, N(s));
        MoveFair(s, t, RingNext(s.pcs[t], e, N(s)), RingApply(s, t, e));
      case BeginPost(k, task) => MoveFair(s, t, At(PostEntry(k, task)), Apply(s, t, ev));
      case BeginDrain => MoveFair(s, t, At(DTop(Drain(0, Zeros(N(s))))), Apply(s, t, ev));
      case BeginDestroy => MoveFair(s, t, At(Pend(ByDestroy, 0)), Apply(s, t, ev));
      case CloseInTask => MoveFair(s, t, if t in s.pcs then At(s.pcs[t]) else Idle, Apply(s, t, ev));
    }
  }

  // ---------------------------------------------------------------------
  // Invariant 5: no stranded task
  // ---------------------------------------------------------------------

  predicate NonEmpty(s: State, k: nat)
    requires k < N(s)
  {
    s.rings[k].tail < s.rings[k].head
  }

  /** Thread t posts to sub-queue k, has its ticket and has not yet exchanged scheduled. */
  predicate Posting(s: State, t: Tid, k: nat)
    requires k < N(s)
  {
    && t in s.pcs
    && (|| s.pcs[t] == Exchange(k)
        || (s.pcs[t] == Emplace(k) && t in s.rings[k].ops && (s.rings[k].ops[t].EnqHold? || s.rings[k].ops[t].EnqSet?)))
  }

  /** Thread t is a drain that cleared scheduled and whose re-check will still look at the oldest task of k. */
  predicate Rechecking(s: State, t: Tid, k: nat)
    requires k < N(s)
  {
    && t in s.pcs
    && match s.pcs[t]
       case ReClosed(_) => true
       case Pend(who, i) => who.ByDrain? && i <= k
       case PendSeq(who, i, pos) => who.ByDrain? && (i < k || (i == k && pos == s.rings[k].tail))
       case Cas(_) => true
       case _ => false
  }

  /** A dequeue that has loaded a sequence number short of its ticket: it will return false. */
  predicate Refused(op: Ring.Op) { op.DeqSeq? && op.seen <= op.pos }

  /** Thread t is discarding and has yet to find sub-queue k without a published task. */
  predicate Sweeping(s: State, t: Tid, k: nat)
    requires k < N(s)
  {
    && t in s.pcs
    && match s.pcs[t]
       case Discard(_, i) => i <= k
       case DTry(_, i) => i < k || (i == k && t in s.rings[k].ops && !Refused(s.rings[k].ops[t]))
       case DHold(_, i) => i <= k
       case DRec(_, i) => i <= k
       case _ => false
  }

  predicate Watches(s: State, t: Tid, k: nat)
    requires k < N(s)
  {
    Posting(s, t, k) || Rechecking(s, t, k) || Sweeping(s, t, k)
  }

  /** Open or closed, a non-empty sub-queue has the drain right in existence or someone who watches it. */
  ghost predicate CoverOk(s: State) {
    forall k :: 0 <= k < N(s) && NonEmpty(s, k) ==> s.scheduled || exists t :: Watches(s, t, k)
  }

  /** While nothing is scheduled only posters and discarding threads are inside rings. */
  predicate Outsider(pc: Pc) {
    pc.PostEntry? || pc.Emplace? || pc.Discard? || pc.DTry? || pc.DHold? || pc.DRec?
  }

  lemma OnlyOutsiders(s: State, t: Tid, e: Ring.Event)
    requires TokenOk(s) && !s.scheduled && Enabled(s, t, InRing(e))
    ensures Outsider(s.pcs[t])
  {
    assert !Holder(s.pcs[t]);
  }

  /** What a ring step can change: head by a poster's claim, tail by a consumer's. */
  lemma HeadTailFrame(r: Ring.State, t: Tid, e: Ring.Event)
    requires Ring.Shape(r) && Ring.Enabled(r, t, e)
    ensures var r' := Ring.Apply(r, t, e);
            r'.head == r.head + (if e.CasHead? then 1 else 0) && r'.tail == r.tail + (if e.CasTail? then 1 else 0)
  {
  }

  /** Whoever takes a task off sub-queue k while nothing is scheduled comes back to k. */
  lemma TakerWatches(s: State, t: Tid, k: nat)
    requires Wired(s) && TokenOk(s) && !s.scheduled && k < N(s)
    requires Enabled(s, t, InRing(Ring.CasTail)) && Target(s.pcs[t], N(s)) == k
    ensures N(Apply(s, t, InRing(Ring.CasTail))) == N(s) && Watches(Apply(s, t, InRing(Ring.CasTail)), t, k)
  {
    OnlyOutsiders(s, t, Ring.CasTail);
    assert s.pcs[t].DTry?;
  }

  lemma WatcherRing(s: State, t: Tid, e: Ring.Event, u: Tid, k: nat)
    requires Wired(s) && Enabled(s, t, InRing(e)) && k < N(s) && u != t && u in s.pcs
    requires !(e == Ring.CasTail && Target(s.pcs[t], N(s)) == k)
    ensures var s' := RingApply(s, t, e);
            && N(s') == N(s) && u in s'.pcs && s'.pcs[u] == s.pcs[u] && s'.rings[k].tail == s.rings[k].tail
            && (u in s.rings[k].ops ==> u in s'.rings[k].ops && s'.rings[k].ops[u] == s.rings[k].ops[u])
  {
    var j := Target(s.pcs[t], N(s));
    HeadTailFrame(s.rings[j], t, e);
    Ring.OpsFrame(s.rings[j], t, e, u);
  }

  /** Steps of other threads do not disturb a watcher, unless they take from its sub-queue. */
  lemma WatcherStays(s: State, t: Tid, ev: Event, u: Tid, k: nat)
    requires Wired(s) && Enabled(s, t, ev) && k < N(s) && u != t && Watches(s, u, k)
    requires !(ev == InRing(Ring.CasTail) && Target(s.pcs[t], N(s)) == k)
    ensures N(Apply(s, t, ev)) == N(s) && Watches(Apply(s, t, ev), u, k)
  {
    match ev {
      case InRing(e) => WatcherRing(s, t, e, u, k);
      case _ =>
    }
  }

  /** A poster's step either leaves its task covered by itself or has exchanged scheduled. */
  lemma PosterMoves(s: State, t: Tid, ev: Event, k: nat)
    requires Wired(s) && Enabled(s, t, ev) && k < N(s) && Posting(s, t, k)
    ensures var s' := Apply(s, t, ev); N(s') == N(s) && (s'.scheduled || Posting(s', t, k))
  {
    assert ThreadOk(s, t);
    match ev {
      case InRing(e) => Ring.OpAfter(s.rings[k], t, e);
      case _ =>
    }
  }

  /** An accepted but unpublished oldest task is covered by its poster. */
  lemma UnpublishedHasPoster(s: State, k: nat) returns (w: Tid)
    requires Wired(s) && k < N(s) && NonEmpty(s, k) && !Ring.HasItem(s.rings[k])
    ensures Posting(s, w, k)
  {
    var r := s.rings[k];
    Ring.OldestTask(r);
    w := r.owner[Ring.Slot(r.tail, r.cap)];
    assert RingOpOk(s, k, w);
    assert ThreadOk(s, w);
  }

  /** A re-checking drain moves on from sub-queue k only when someone else covers it. */
  lemma RecheckMoves(s: State, t: Tid, ev: Event, k: nat) returns (w: Tid)
    requires Wired(s) && Enabled(s, t, ev) && !s.scheduled
    requires k < N(s) && NonEmpty(s, k) && Rechecking(s, t, k)
    ensures var s' := Apply(s, t, ev); N(s') == N(s) && (s'.scheduled || Watches(s', w, k))
  {
    w := t;
    assert ThreadOk(s, t);
    if ev == Go && s.pcs[t].PendSeq? && s.pcs[t].i == k && !Look(s, s.pcs[t]).found {
      w := UnpublishedHasPoster(s, k);
      WatcherStays(s, t, ev, w, k);
    }
  }

  predicate Discards(pc: Pc) { pc.Discard? || pc.DTry? || pc.DHold? || pc.DRec? }

  lemma RingNextDiscards(pc: Pc, e: Ring.Event, n: nat, k: nat)
    requires n > 0 && RingStep(pc, e) && Discards(pc) && pc.i <= k < n && (e.DeqFalse? ==> pc.i < k)
    ensures var next := RingNext(pc, e, n);
            && next.At? && Discards(next.pc) && next.pc.i <= k
            && (next.pc.DTry? && next.pc.i == k ==> pc.i == k && (e.StartDeq? || (pc.DTry? && Consuming(e))))
  {
  }

  /** A discarding thread moves on from sub-queue k only when someone else covers it. */
  lemma SweepMoves(s: State, t: Tid, ev: Event, k: nat) returns (w: Tid)
    requires Wired(s) && Enabled(s, t, ev) && k < N(s) && NonEmpty(s, k) && Sweeping(s, t, k)
    ensures var s' := Apply(s, t, ev); N(s') == N(s) && Watches(s', w, k)
  {
    w := t;
    match ev {
      case InRing(e) => w := SweepRing(s, t, e, k);
      case _ =>
    }
  }

  lemma SweepRing(s: State, t: Tid, e: Ring.Event, k: nat) returns (w: Tid)
    requires Wired(s) && Enabled(s, t, InRing(e)) && k < N(s) && NonEmpty(s, k) && Sweeping(s, t, k)
    ensures var s' := RingApply(s, t, e); N(s') == N(s) && Watches(s', w, k)
  {
    w := t;
    assert ThreadOk(s, t);
    var pc := s.pcs[t];
    var r := s.rings[pc.i];
    if pc.i == k && e.LoadDeqSeq? && Refused(Ring.Apply(r, t, e).ops[t]) {
      Ring.DequeueFalseMeansEmpty(r, t);
      w := UnpublishedHasPoster(s, k);
      WatcherStays(s, t, InRing(e), w, k);
    } else {
      if pc.i == k && pc.DTry? { SweepOp(r, t, e); }
      RingNextDiscards(pc, e, N(s), k);
      SweepStays(s, t, e, k);
    }
  }

  lemma SweepStays(s: State, t: Tid, e: Ring.Event, k: nat)
    requires Wired(s) && Enabled(s, t, InRing(e)) && k < N(s) && Discards(s.pcs[t]) && s.pcs[t].i < N(s)
    requires var next := RingNext(s.pcs[t], e, N(s));
             && next.At? && Discards(next.pc) && next.pc.i <= k
             && (next.pc.DTry? && next.pc.i == k ==>
                s.pcs[t].i == k && (e.StartDeq? || (s.pcs[t].DTry? && Consuming(e))))
    requires s.pcs[t].i == k && s.pcs[t].DTry? && Consuming(e) ==>
               var ops := Ring.Apply(s.rings[k], t, e).ops; t in ops && !Refused(ops[t])
    ensures N(RingApply(s, t, e)) == N(s) && Sweeping(RingApply(s, t, e), t, k)
  {
  }

  lemma SweepOp(r: Ring.State, t: Tid, e: Ring.Event)
    requires Ring.Shape(r) && Ring.Enabled(r, t, e) && Consuming(e) && t in r.ops && !Refused(r.ops[t])
    ensures !e.DeqFalse?
    ensures !e.LoadDeqSeq? ==> var ops := Ring.Apply(r, t, e).ops; t in ops && !Refused(ops[t])
  {
  }

  lemma CoverStepAt(s: State, t: Tid, ev: Event, k: nat) returns (w: Tid)
    requires Wired(s) && TokenOk(s) && CoverOk(s) && Enabled(s, t, ev) && !s.scheduled && k < N(s) && NonEmpty(s, k)
    ensures var s' := Apply(s, t, ev); N(s') == N(s) && (s'.scheduled || Watches(s', w, k))
  {
    w :| Watches(s, w, k);
    if ev == InRing(Ring.CasTail) && Target(s.pcs[t], N(s)) == k {
      w := t;
      TakerWatches(s, t, k);
    } else if w != t {
      WatcherStays(s, t, ev, w, k);
    } else if Posting(s, t, k) {
      PosterMoves(s, t, ev, k);
    } else if Rechecking(s, t, k) {
      w := RecheckMoves(s, t, ev, k);
    } else {
      w := SweepMoves(s, t, ev, k);
    }
  }

  /** A task just accepted while nothing was scheduled is covered by the poster that won its ticket. */
  lemma NewTaskCovered(s: State, t: Tid, ev: Event, k: nat)
    requires Wired(s) && TokenOk(s) && Enabled(s, t, ev) && !s.scheduled && k < N(s) && !NonEmpty(s, k)
    ensures N(Apply(s, t, ev)) == N(s)
    ensures NonEmpty(Apply(s, t, ev), k) ==> Watches(Apply(s, t, ev), t, k)
  {
    match ev {
      case InRing(e) =>
        assert ThreadOk(s, t);
        var j := Target(s.pcs[t], N(s));
        HeadTailFrame(s.rings[j], t, e);
        Ring.OpAfter(s.rings[j], t, e);
      case _ =>
    }
  }

  lemma CoverStep(s: State, t: Tid, ev: Event)
    requires Wired(s) && TokenOk(s) && CoverOk(s) && Enabled(s, t, ev)
    ensures CoverOk(Apply(s, t, ev))
  {
    var s' := Apply(s, t, ev);
    forall k | 0 <= k < N(s') && NonEmpty(s', k) && !s'.scheduled
      ensures exists w :: Watches(s', w, k)
    {
      var w := t;
      if s.scheduled {
        assert Watches(s', t, k) by { ClearCovers(s, t, ev, k); }
      } else if NonEmpty(s, k) {
        w := CoverStepAt(s, t, ev, k);
      } else {
        NewTaskCovered(s, t, ev, k);
      }
      assert Watches(s', w, k);
    }
  }

  /** Only a drain's own store turns scheduled off, and that drain then re-checks every sub-queue. */
  lemma ClearCovers(s: State, t: Tid, ev: Event, k: nat)
    requires Enabled(s, t, ev) && s.scheduled && !Apply(s, t, ev).scheduled && k < N(s)
    ensures N(Apply(s, t, ev)) == N(s) && Rechecking(Apply(s, t, ev), t, k)
  {
  }

  // ---------------------------------------------------------------------
  // Invariant 6: an open queue's drain sees the true tail
  // ---------------------------------------------------------------------

  predicate FreshAt(s: State, t: Tid)
    requires N(s) > 0 && t in s.pcs && ThreadOk(s, t)
  {
    s.pcs[t].Try? ==>
      var r := s.rings[Target(s.pcs[t], N(s))]; r.ops[t].pos == r.tail
  }

  ghost predicate FreshOk(s: State)
    requires Wired(s)
  {
    !s.closed ==> forall t :: t in s.pcs ==> ThreadOk(s, t) && FreshAt(s, t)
  }

  /** Only a winning tail CAS moves tail. */
  lemma TailFrame(r: Ring.State, t: Tid, e: Ring.Event)
    requires Ring.Shape(r) && Ring.Enabled(r, t, e) && !e.CasTail?
    ensures Ring.Apply(r, t, e).tail == r.tail
  {
  }

  lemma TryPos(r: Ring.State, t: Tid, e: Ring.Event)
    requires Ring.Shape(r) && Ring.Enabled(r, t, e) && (e.StartDeq? || (Consuming(e) && !e.CasTail? && !e.DeqFalse?))
    requires e.StartDeq? || r.ops[t].pos == r.tail
    ensures var r' := Ring.Apply(r, t, e); t in r'.ops && r'.ops[t].pos == r'.tail
  {
  }

  lemma TryNext(pc: Pc, e: Ring.Event, n: nat)
    requires n > 0 && RingStep(pc, e)
    ensures var next := RingNext(pc, e, n);
            next.At? && next.pc.Try? ==> (e.StartDeq? || (Consuming(e) && !e.CasTail? && !e.DeqFalse? && pc.Try?))
                                         && Target(next.pc, n) == Target(pc, n)
  {
  }

  lemma FreshRingStep(s: State, t: Tid, e: Ring.Event, u: Tid)
    requires Wired(s) && TokenOk(s) && ClosedOk(s) && FreshOk(s) && Enabled(s, t, InRing(e)) && !s.closed
    requires Wired(RingApply(s, t, e)) && u in RingApply(s, t, e).pcs
    ensures ThreadOk(RingApply(s, t, e), u) && FreshAt(RingApply(s, t, e), u)
  {
    var s' := RingApply(s, t, e);
    var k := Target(s.pcs[t], N(s));
    assert ThreadOk(s', u) && ThreadOk(s, t) && FreshAt(s, t);
    if u == t {
      TryNext(s.pcs[t], e, N(s));
      if s'.pcs[t].Try? { TryPos(s.rings[k], t, e); }
    } else if s.pcs[u].Try? {
      assert ThreadOk(s, u) && FreshAt(s, u);
      Ring.OpsFrame(s.rings[k], t, e, u);
      assert Holder(s.pcs[u]) && !Holder(s.pcs[t]) && !AfterClose(s.pcs[t]);
      TailFrame(s.rings[k], t, e);
    }
  }

  lemma GoNextNotTry(pc: Pc, seen: Seen, n: nat)
    requires GoStep(pc)
    ensures var next := GoNext(pc, seen, n); next.At? ==> !next.pc.Try?
  {
  }

  lemma FreshStep(s: State, t: Tid, ev: Event)
    requires Wired(s) && TokenOk(s) && ClosedOk(s) && FreshOk(s) && Enabled(s, t, ev)
    ensures Wired(Apply(s, t, ev)) && FreshOk(Apply(s, t, ev))
  {
    WiredStep(s, t, ev);
    var s' := Apply(s, t, ev);
    if !s'.closed {
      forall u | u in s'.pcs ensures ThreadOk(s', u) && FreshAt(s', u) {
        assert ThreadOk(s', u);
        match ev {
          case InRing(e) => FreshRingStep(s, t, e, u);
          case Go => GoNextNotTry(s.pcs[t], Look(s, s.pcs[t]), N(s)); assert u != t ==> FreshAt(s, u);
          case _ => assert u in s.pcs ==> FreshAt(s, u);
        }
      }
    }
  }

  // ---------------------------------------------------------------------
  // Runs
  // ---------------------------------------------------------------------

  ghost predicate Inv(s: State) {
    Wired(s) && TokenOk(s) && ClosedOk(s) && FairOk(s) && CoverOk(s) && FreshOk(s)
  }

  lemma StepInv(s: State, t: Tid, ev: Event)
    requires Inv(s) && Enabled(s, t, ev)
    ensures Inv(Apply(s, t, ev))
  {
    TokenStep(s, t, ev);
    ClosedStep(s, t, ev);
    FairStep(s, t, ev);
    CoverStep(s, t, ev);
    FreshStep(s, t, ev);
  }

  datatype Label = Label(t: Tid, ev: Event)

  predicate CanRun(s: State, trace: seq<Label>)
    decreases |trace|
  {
    trace == [] ||
    (Enabled(s, trace[0].t, trace[0].ev) && CanRun(Apply(s, trace[0].t, trace[0].ev), trace[1..]))
  }

  function RunAll(s: State, trace: seq<Label>): State
    requires CanRun(s, trace)
    decreases |trace|
  {
    if trace == [] then s else RunAll(Apply(s, trace[0].t, trace[0].ev), trace[1..])
  }

  lemma {:induction false} RunInv(s: State, trace: seq<Label>)
    requires Inv(s) && CanRun(s, trace)
    ensures Inv(RunAll(s, trace))
    decreases |trace|
  {
    if trace != [] {
      StepInv(s, trace[0].t, trace[0].ev);
      RunInv(Apply(s, trace[0].t, trace[0].ev), trace[1..]);
    }
  }

  predicate Capacities(caps: seq<nat>) {
    |caps| > 0 && forall k :: 0 <= k < |caps| ==> caps[k] >= 2
  }

  lemma InitInv(caps: seq<nat>)
    requires Capacities(caps)
    ensures Inv(Init(caps))
  {
    WiredInit(caps);
  }

  predicate InBody(s: State, t: Tid) { t in s.pcs && s.pcs[t].Body? && s.pcs[t].run }

  /**
    Serial execution.  In every state of every run, `scheduled` is true exactly when one drain
    right exists: one drain queued in the pool, or one thread about to queue it or draining,
    never both and never two; hence at most one thread is inside a task body.
   */
  lemma SerialExecution(caps: seq<nat>, trace: seq<Label>)
    requires Capacities(caps) && CanRun(Init(caps), trace)
    ensures var s := RunAll(Init(caps), trace);
            && (s.scheduled <==> s.pool > 0 || exists t :: t in s.pcs && Holder(s.pcs[t]))
            && s.pool <= 1
            && (forall t :: t in s.pcs && Holder(s.pcs[t]) ==> s.pool == 0)
            && (forall t, u :: t in s.pcs && u in s.pcs && Holder(s.pcs[t]) && Holder(s.pcs[u]) ==> t == u)
            && (forall t, u :: InBody(s, t) && InBody(s, u) ==> t == u)
  {
    InitInv(caps);
    RunInv(Init(caps), trace);
    var s := RunAll(Init(caps), trace);
    if s.scheduled && s.pool == 0 { assert s.token.t in s.pcs && Holder(s.pcs[s.token.t]); }
  }

  /**
    No stranded task.  In every reachable state, open or closed, a non-empty sub-queue has the drain
    right in existence, a poster yet to exchange `scheduled`, a drain yet to finish its re-check, or
    (only once the queue is closed) a discarding thread that has not finished with it.
   */
  lemma NoStrandedTask(caps: seq<nat>, trace: seq<Label>, k: nat)
    requires Capacities(caps) && CanRun(Init(caps), trace)
    requires var s := RunAll(Init(caps), trace); k < N(s) && NonEmpty(s, k)
    ensures var s := RunAll(Init(caps), trace);
            || s.pool == 1
            || (exists t :: t in s.pcs && Holder(s.pcs[t]))
            || (exists t :: Posting(s, t, k))
            || (exists t :: Rechecking(s, t, k))
            || (s.closed && exists t :: Sweeping(s, t, k))
  {
    InitInv(caps);
    RunInv(Init(caps), trace);
    var s := RunAll(Init(caps), trace);
    if s.scheduled {
      if s.pool == 0 { assert s.token.t in s.pcs && Holder(s.pcs[s.token.t]); }
    } else {
      var w :| Watches(s, w, k);
      assert Sweeping(s, w, k) ==> AfterClose(s.pcs[w]);
    }
  }

  /** Every thread has returned, a destroyer perhaps after its sweep, and the pool holds no drain. */
  predicate Quiet(s: State) { s.pool == 0 && forall t :: t in s.pcs ==> s.pcs[t].XDone? }

  /**
    A quiet queue, open or closed, destroyed from outside or by one of its tasks, is empty and no
    thread is inside a ring.
   */
  lemma QuietQueueIsEmpty(caps: seq<nat>, trace: seq<Label>, k: nat)
    requires Capacities(caps) && CanRun(Init(caps), trace)
    requires var s := RunAll(Init(caps), trace); k < N(s) && Quiet(s)
    ensures var s := RunAll(Init(caps), trace); !NonEmpty(s, k) && s.rings[k].ops == map[]
  {
    InitInv(caps);
    RunInv(Init(caps), trace);
    var s := RunAll(Init(caps), trace);
    if NonEmpty(s, k) { NoStrandedTask(caps, trace, k); }
    forall t ensures t !in s.rings[k].ops { assert t in s.rings[k].ops ==> RingOpOk(s, k, t); }
  }

  predicate StartsBodyStep(s: State, l: Label) {
    l.ev.InRing? && l.t in s.pcs && StartsBody(s.pcs[l.t], l.ev.e)
  }

  /** How many task bodies start in the run while `closed` is set. */
  function BodiesAfterClose(s: State, trace: seq<Label>): nat
    requires CanRun(s, trace)
    decreases |trace|
  {
    if trace == [] then 0 else
      (if s.closed && StartsBodyStep(s, trace[0]) then 1 else 0)
      + BodiesAfterClose(Apply(s, trace[0].t, trace[0].ev), trace[1..])
  }

  lemma {:induction false} LateCounts(s: State, trace: seq<Label>)
    requires CanRun(s, trace)
    ensures RunAll(s, trace).late == s.late + BodiesAfterClose(s, trace)
    decreases |trace|
  {
    if trace != [] {
      LateCounts(Apply(s, trace[0].t, trace[0].ev), trace[1..]);
    }
  }

  /** After close, at most one more task body starts, over all overlapping drains. */
  lemma AtMostOneBodyAfterClose(caps: seq<nat>, trace: seq<Label>)
    requires Capacities(caps) && CanRun(Init(caps), trace)
    ensures BodiesAfterClose(Init(caps), trace) <= 1
  {
    InitInv(caps);
    RunInv(Init(caps), trace);
    LateCounts(Init(caps), trace);
  }
}
