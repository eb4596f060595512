/**
  No thread gets stuck or runs in circles (ControlScheduler.cpp:82-127, 600-717): every thread has a next
  step, and between two of its claims, lost races and re-takings of the drain right it takes a bounded
  number of steps before it returns.
 */
module ProcessQueueProgress {
  import Ring
  import opened ProcessQueue

  // ---------------------------------------------------------------------
  // A next step
  // ---------------------------------------------------------------------

  /** The next step of an operation on a ring: it claims its ticket as soon as it can. */
  function RingEvent(r: Ring.State, op: Ring.Op): Ring.Event {
    match op
    case EnqPos(_, _) => Ring.LoadEnqSeq
    case EnqSeq(pos, _, seen) =>
      if seen < pos then Ring.EnqFalse else if seen > pos then Ring.ReloadHead
      else if r.head == pos then Ring.CasHead else Ring.CasHeadFail
    case EnqHold(_, _) => Ring.SetTask
    case EnqSet(_) => Ring.Publish
    case DeqPos(_) => Ring.LoadDeqSeq
    case DeqSeq(pos, seen) =>
      if seen < pos + 1 then Ring.DeqFalse else if seen > pos + 1 then Ring.ReloadTail
      else if r.tail == pos then Ring.CasTail else Ring.CasTailFail
    case DeqHold(_) => Ring.Clean
    case DeqClean(_) => Ring.Recycle
  }

  function NextEvent(s: State, t: Tid): Event
    requires N(s) > 0 && t in s.pcs && ThreadOk(s, t)
  {
    var pc := s.pcs[t];
    if GoStep(pc) then Go
    else if pc.PostEntry? then InRing(Ring.StartEnq(pc.task))
    else if Inside(pc) then InRing(RingEvent(s.rings[Target(pc, N(s))], s.rings[Target(pc, N(s))].ops[t]))
    else InRing(Ring.StartDeq)
  }

  /** In every reachable state every thread has a next step, except a destroyer that waits or is done. */
  lemma NoThreadStuck(caps: seq<nat>, trace: seq<Label>, t: Tid)
    requires Capacities(caps) && CanRun(Init(caps), trace)
    requires var s := RunAll(Init(caps), trace);
             t in s.pcs && !s.pcs[t].XDone? && (s.pcs[t].XWait? ==> !s.scheduled)
    ensures var s := RunAll(Init(caps), trace);
            N(s) > 0 && ThreadOk(s, t) && Enabled(s, t, NextEvent(s, t)) &&
                (NextEvent(s, t).Go? || NextEvent(s, t).InRing?)
  {
    InitInv(caps);
    RunInv(Init(caps), trace);
    var s := RunAll(Init(caps), trace);
    assert ThreadOk(s, t);
    Steps(s, t);
  }

  lemma Steps(s: State, t: Tid)
    requires Wired(s) && t in s.pcs && ThreadOk(s, t)
    requires !s.pcs[t].XDone? && (s.pcs[t].XWait? ==> !s.scheduled)
    ensures Enabled(s, t, NextEvent(s, t))
  {
    var pc := s.pcs[t];
    var k := Target(pc, N(s));
    if !GoStep(pc) {
      assert k < N(s);
      assert Ring.Inv(s.rings[k]);
      if t in s.rings[k].ops { assert RingOpOk(s, k, t); }
    } else if pc.Pend? || pc.PendSeq? {
      assert Ring.Inv(s.rings[pc.i]);
    }
  }

  /** A queued drain can be started by any thread that is not busy. */
  lemma QueuedDrainStarts(s: State, t: Tid)
    requires N(s) > 0 && s.pool > 0 && t !in s.pcs
    ensures Enabled(s, t, BeginDrain)
  {
  }

  // ---------------------------------------------------------------------
  // A bound
  // ---------------------------------------------------------------------

  /** Steps left in the ring operation of a thread that stays in it without a claim or a lost race. */
  function OpRank(op: Ring.Op): nat {
    match op
    case EnqPos(_, _) => 4
    case EnqSeq(_, _, _) => 3
    case EnqHold(_, _) => 2
    case EnqSet(_) => 1
    case DeqPos(_) => 2
    case DeqSeq(_, _) => 1
    case _ => 0
  }

  function DiscardRank(i: nat, n: nat): int { 3 * (n - i) + 1 }

  function ScanRank(off: nat, n: nat): int { 3 * n + 6 + 3 * (n - off) }

  /** An upper bound on the steps to the end of the post, drain or destroy, as far as nothing intervenes. */
  function Rank(pc: Pc, op: int, n: nat): int {
    match pc
    case PostEntry(_, _) => 7
    case Emplace(_) => 2 + op
    case Exchange(_) => 2
    case PoolPush => 1
    case DTop(_) => ScanRank(0, n) + 1
    case Scan(_, _, off) => ScanRank(off, n)
    case Try(_, _, off) => ScanRank(off, n) - 3 + op
    case Body(_, _, _) => ScanRank(0, n) + 3
    case Recyc(_, _, _) => ScanRank(0, n) + 2
    case AfterOne(_, _) => ScanRank(0, n) + 1
    case Clear(_) => 3 * n + 5
    case ReClosed(_) => 3 * n + 4
    case Pend(who, i) => (if who.ByDestroy? then 3 * n + 3 else 0) + 2 * (n - i) + 2
    case PendSeq(who, i, _) => (if who.ByDestroy? then 3 * n + 3 else 0) + 2 * (n - i) + 1
    case Cas(_) => 1
    case Discard(_, i) => DiscardRank(i, n)
    case DTry(_, i) => DiscardRank(i, n) - 3 + op
    case DHold(_, i) => DiscardRank(i, n) + 2
    case DRec(_, i) => DiscardRank(i, n) + 1
    case XExch => 3 * n + 4
    case XPush => 3 * n + 3
    case XWait => 3 * n + 2
    case XDone => 0
  }

  function RankOp(s: State, t: Tid): int
    requires N(s) > 0 && t in s.pcs
  {
    var k := Target(s.pcs[t], N(s));
    if k < N(s) && t in s.rings[k].ops then OpRank(s.rings[k].ops[t]) else 0
  }

  function RankOf(s: State, t: Tid): int
    requires N(s) > 0
  {
    if t in s.pcs then Rank(s.pcs[t], RankOp(s, t), N(s)) else 0
  }

  /** A claim, a lost or refused race, or the drain right taken again. */
  predicate Restarts(s: State, t: Tid, ev: Event) {
    match ev
    case InRing(e) => e.CasTail? || e.CasTailFail? || e.ReloadTail? || e.CasHeadFail? || e.ReloadHead?
    case Go => t in s.pcs && s.pcs[t].Cas? && !s.scheduled
    case _ => false
  }

  lemma GoRank(pc: Pc, seen: Seen, n: nat)
    requires GoStep(pc) && n > 0 && InRange(pc, n) && !(pc.Cas? && !seen.scheduled)
    ensures var next := GoNext(pc, seen, n);
            0 <= (if next.At? then Rank(next.pc, 0, n) else 0) < Rank(pc, 0, n)
  {
  }

  lemma RingRank(pc: Pc, e: Ring.Event, n: nat, r: Ring.State, t: Tid)
    requires n > 0 && RingStep(pc, e) && InRange(pc, n) && Ring.Shape(r) && Ring.Enabled(r, t, e)
    requires Inside(pc) ==> t in r.ops && OpFits(pc, r.ops[t])
    requires !e.CasTail? && !e.CasTailFail? && !e.ReloadTail? && !e.CasHeadFail? && !e.ReloadHead?
    ensures var next, ops := RingNext(pc, e, n), Ring.Apply(r, t, e).ops;
            0 <= (if next.At? then Rank(next.pc, if t in ops then OpRank(ops[t]) else 0, n) else 0)
              < Rank(pc, if t in r.ops then OpRank(r.ops[t]) else 0, n)
  {
  }

  /** Outside the rings a position does not matter. */
  lemma RankOutside(pc: Pc, a: int, b: int, n: nat)
    requires !Inside(pc)
    ensures Rank(pc, a, n) == Rank(pc, b, n)
  {
  }

  lemma GoCounts(s: State, t: Tid)
    requires Wired(s) && Enabled(s, t, Go) && !Restarts(s, t, Go)
    ensures N(GoApply(s, t)) == N(s) && 0 <= RankOf(GoApply(s, t), t) < RankOf(s, t)
  {
    assert ThreadOk(s, t);
    var pc, s' := s.pcs[t], GoApply(s, t);
    GoRank(pc, Look(s, pc), N(s));
    GoNextInRange(pc, Look(s, pc), N(s));
    RankOutside(pc, 0, RankOp(s, t), N(s));
    if t in s'.pcs { RankOutside(s'.pcs[t], 0, RankOp(s', t), N(s)); }
  }

  lemma RingCounts(s: State, t: Tid, e: Ring.Event)
    requires Wired(s) && Enabled(s, t, InRing(e)) && !Restarts(s, t, InRing(e))
    ensures N(RingApply(s, t, e)) == N(s) && 0 <= RankOf(RingApply(s, t, e), t) < RankOf(s, t)
  {
    assert ThreadOk(s, t);
    var pc, s' := s.pcs[t], RingApply(s, t, e);
    var k := Target(pc, N(s));
    var ops := s'.rings[k].ops;
    RingRank(pc, e, N(s), s.rings[k], t);
    RingNextInRange(pc, e, N(s));
    if t in s'.pcs && !Inside(s'.pcs[t]) {
      RankOutside(s'.pcs[t], if t in ops then OpRank(ops[t]) else 0, RankOp(s', t), N(s));
    }
  }

  /** Every other step of its own brings a thread closer to its return. */
  lemma OwnStepCounts(s: State, t: Tid, ev: Event)
    requires Wired(s) && Enabled(s, t, ev) && (ev.Go? || ev.InRing?) && !Restarts(s, t, ev)
    ensures N(Apply(s, t, ev)) == N(s) && 0 <= RankOf(Apply(s, t, ev), t) < RankOf(s, t)
  {
    match ev
    case Go => GoCounts(s, t);
    case InRing(e) => RingCounts(s, t, e);
  }

  /** The greatest rank, with one for the step that restarts. */
  function Round(n: nat): nat { 6 * n + 10 }

  lemma RankBound(s: State, t: Tid)
    requires Wired(s)
    ensures RankOf(s, t) < Round(N(s))
  {
    if t in s.pcs { assert ThreadOk(s, t); }
  }

  /** The steps of other threads do not touch it. */
  lemma OthersRank(s: State, l: Tid, ev: Event, t: Tid)
    requires Wired(s) && Enabled(s, l, ev) && (l != t || ev.CloseInTask?)
    ensures N(Apply(s, l, ev)) == N(s) && RankOf(Apply(s, l, ev), t) == RankOf(s, t)
  {
    match ev {
      case InRing(e) => Ring.OpsFrame(s.rings[Target(s.pcs[l], N(s))], l, e, t);
      case _ =>
    }
  }

  predicate Own(l: Label, t: Tid) { l.t == t && (l.ev.Go? || l.ev.InRing?) }

  /** The steps thread t takes inside posts, drains and destroys. */
  function OwnSteps(trace: seq<Label>, t: Tid): nat {
    if trace == [] then 0 else (if Own(trace[0], t) then 1 else 0) + OwnSteps(trace[1..], t)
  }

  /** It begins something, claims a task, loses a race or takes the drain right again. */
  predicate NewRound(s: State, l: Label, t: Tid) {
    l.t == t && (l.ev.BeginPost? || l.ev.BeginDrain? || l.ev.BeginDestroy? || Restarts(s, t, l.ev))
  }

  function Rounds(s: State, trace: seq<Label>, t: Tid): nat
    requires CanRun(s, trace)
    decreases |trace|
  {
    if trace == [] then 0
    else (if NewRound(s, trace[0], t) then 1 else 0) + Rounds(Apply(s, trace[0].t, trace[0].ev), trace[1..], t)
  }

  function Multiple(k: nat, m: nat): nat { if k == 0 then 0 else m + Multiple(k - 1, m) }

  lemma StepInRound(s: State, l: Label, t: Tid)
    requires Wired(s) && Enabled(s, l.t, l.ev) && Wired(Apply(s, l.t, l.ev))
    ensures N(Apply(s, l.t, l.ev)) == N(s)
    ensures RankOf(Apply(s, l.t, l.ev), t) + (if Own(l, t) then 1 else 0) <=
            RankOf(s, t) + if NewRound(s, l, t) then Round(N(s)) else 0
  {
    RankNatural(s, t);
    RankBound(Apply(s, l.t, l.ev), t);
    if l.t != t || l.ev.CloseInTask? {
      OthersRank(s, l.t, l.ev, t);
    } else if Own(l, t) && !Restarts(s, t, l.ev) {
      OwnStepCounts(s, t, l.ev);
    }
  }

  lemma {:induction false} StepsInRounds(s: State, trace: seq<Label>, t: Tid)
    requires Inv(s) && CanRun(s, trace)
    ensures OwnSteps(trace, t) <= RankOf(s, t) + Multiple(Rounds(s, trace, t), Round(N(s)))
    decreases |trace|
  {
    if trace == [] {
      RankNatural(s, t);
    } else {
      var s' := Apply(s, trace[0].t, trace[0].ev);
      assert Inv(s') && Wired(s) && Wired(s') by { StepInv(s, trace[0].t, trace[0].ev); }
      StepInRound(s, trace[0], t);
      StepsInRounds(s', trace[1..], t);
      MultipleNext(NewRound(s, trace[0], t), Rounds(s', trace[1..], t), Round(N(s)));
    }
  }

  lemma MultipleNext(more: bool, k: nat, m: nat)
    ensures Multiple((if more then 1 else 0) + k, m) == (if more then m else 0) + Multiple(k, m)
  {
  }

  lemma RankNatural(s: State, t: Tid)
    requires Wired(s)
    ensures RankOf(s, t) >= 0
  {
    if t in s.pcs { assert ThreadOk(s, t); }
  }

  /**
    In every run a thread takes at most 6 n + 10 steps, n the number of sub-queues, for each post,
    drain or destroy it begins, each task it claims, each race it loses and each time it takes the drain
    right again.
   */
  lemma StepsBounded(caps: seq<nat>, trace: seq<Label>, t: Tid)
    requires Capacities(caps) && CanRun(Init(caps), trace)
    ensures OwnSteps(trace, t) <= Multiple(Rounds(Init(caps), trace, t), 6 * |caps| + 10)
  {
    var s := Init(caps);
    InitInv(caps);
    StepsInRounds(s, trace, t);
    assert RankOf(s, t) == 0 && Round(N(s)) == 6 * |caps| + 10;
  }

  /** A counter is loaded again only if another thread has moved it. */
  lemma ReloadsFollowClaims(r: Ring.State, t: Tid)
    requires Ring.Inv(r) && t in r.ops
    ensures Ring.Enabled(r, t, Ring.ReloadTail) ==> r.ops[t].pos < r.tail
    ensures Ring.Enabled(r, t, Ring.ReloadHead) ==> r.ops[t].pos < r.head
  {
    assert Ring.OpOk(r, t);
    if r.ops[t].DeqSeq? || r.ops[t].EnqSeq? {
      var pos := r.ops[t].pos;
      var i := Ring.Slot(pos, r.cap);
      assert Ring.SlotOk(r, i);
      if pos < r.cur[i] < pos + r.cap { Ring.SameSlot(r.cur[i], pos, r.cap); }
    }
  }
}
