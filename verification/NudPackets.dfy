/**
  What becomes of the packets for a neighbor (Ndp.cpp:148-177, 240-303): sent at once, dropped for want of
  room, or kept in order for its next answer.
 */
module NudPackets {
  import opened Collections
  import opened Nud
  import opened NudProbing
  import Arp

  /** A neighbor whose address is known and not in doubt. */
  predicate Known(s: Ndp, ip: Ip) { ip in s.cache && s.cache[ip].state == REACHABLE }

  // ---------------------------------------------------------------------
  // One packet
  // ---------------------------------------------------------------------

  /** p is the last of what waits in t, if there was room; a neighbor that is gone took the rest with it. */
  predicate HeldBack(s: Ndp, t: Ndp, c: NudConfig, ip: Ip, p: Packet) {
    && ip in t.pending
    && Waiting(t, ip) == Appended(if ip in t.cache then Waiting(s, ip) else [], p, c.queueLimit)
  }

  lemma PacketWaits(s: Ndp, c: NudConfig, shut: bool, ip: Ip, p: Packet)
    requires !Known(s, ip)
    ensures var t := SendPacket(s, c, shut, ip, p); t.out == s.out && HeldBack(s, t, c, ip, p)
  {
    if ip !in s.cache {
      SchedulePending(ResetCount(Enter(s, ip), ip), c, shut, ip);
    } else {
      SchedulePending(Probed(s, ip), c, shut, ip);
    }
  }

  lemma SchedulePending(s: Ndp, c: NudConfig, shut: bool, ip: Ip)
    ensures var t := ScheduleNs(s, c, shut, ip);
            t.out == s.out && (ip in s.cache ==> t.pending == if ip in t.cache then s.pending else s.pending - {ip})
  {
  }

  predicate Stale(s: Ndp, ip: Ip) { ip in s.cache && (s.cache[ip].state == STALE || s.cache[ip].state == DELAY) }

  /** A probe has begun: by a first solicitation, or at once between groups or gone if there is none to make. */
  predicate ProbeBegun(s: Ndp, t: Ndp, c: NudConfig, shut: bool, ip: Ip) {
    && (InGroup(t, c, ip) || Between(t, c, ip) || ip !in t.cache)
    && (c.attempts > 0 ==> InGroup(t, c, ip) && t.log == s.log + if shut then [] else [ip])
  }

  lemma StaleIsProbed(s: Ndp, c: NudConfig, shut: bool, ip: Ip, p: Packet)
    requires Sized(c) && NdpInv(s, c) && Stale(s, ip)
    ensures ProbeBegun(s, SendPacket(s, c, shut, ip, p), c, shut, ip)
  {
    assert TidyAt(s, c, ip);
    StartSolicits(s, c, shut, ip);
  }

  lemma StartSolicits(s: Ndp, c: NudConfig, shut: bool, ip: Ip)
    requires Sized(c) && Idle(s, c, ip)
    ensures var t := StartNud(s, c, shut, ip); ProbeBegun(s, t, c, shut, ip) && (ip !in t.cache ==> Lost(t, ip))
  {
    if c.attempts > 0 { SolicitReady(Probed(s, ip), c, shut, ip); } else { ZeroStart(c, ip, s, shut); }
    assert s.log + [] == s.log;
  }

  /**
    An unknown neighbor has been entered and its retry timer runs; unless one was left running, that is
    with a first solicitation.  With NUD_RETRY at 0 there is none, and the entry is gone again.
   */
  predicate Entered(s: Ndp, t: Ndp, c: NudConfig, shut: bool, ip: Ip) {
    if c.retry == 0 && ip !in s.nsRetryTimers then ip !in t.cache && t.log == s.log
    else && ip in t.cache && t.cache[ip].state == ACTIVE && ip in t.nsRetryTimers && t.order == s.order + [ip]
         && t.log == s.log + if shut || ip in s.nsRetryTimers then [] else [ip]
  }

  lemma UnknownIsSolicited(s: Ndp, c: NudConfig, shut: bool, ip: Ip, p: Packet)
    requires ip !in s.cache
    ensures Entered(s, SendPacket(s, c, shut, ip, p), c, shut, ip)
  {
    assert s.log + [] == s.log;
  }

  // ---------------------------------------------------------------------
  // Whole runs
  // ---------------------------------------------------------------------

  ghost function Events(c: NudConfig): (Ndp, Event, Ndp) -> bool { (s, e, t) => Happens(c, s, e, t) }

  /** A stretch of a run of the router. */
  ghost predicate Stretch(c: NudConfig, ss: seq<Ndp>, es: seq<Event>) { Chain(Events(c), ss, es) }

  /** The packets that the events hand over for ip, behind w, as far as there is room. */
  function Handed(w: seq<Packet>, es: seq<Event>, ip: Ip, limit: nat): seq<Packet> {
    if es == [] then w
    else
      var sofar, e := Handed(w, es[..|es| - 1], ip, limit), es[|es| - 1];
      if e.Sends? && e.ip == ip then Appended(sofar, e.p, limit) else sofar
  }

  /** A step that does not hand over a packet for ip leaves what waits alone, unless ip answers or is removed. */
  lemma OthersLeave(c: NudConfig, s: Ndp, e: Event, t: Ndp, ip: Ip)
    requires NdpInv(s, c) && Happens(c, s, e, t) && !(e.Sends? && e.ip == ip)
    requires ip in s.cache && ip in t.cache && !(e.Does? && e.step.Answer? && e.ip == ip)
    ensures Waiting(t, ip) == Waiting(s, ip)
  {
    if e.ip != ip {
      StepInv(c, s, e, t);
      assert SameAt(s, t, ip);
    } else {
      match e
      case Probes(_, shut) => SchedulePending(Probed(s, ip), c, shut, ip);
      case Does(_, step) => OwnLeaves(c, s, step, t, ip);
    }
  }

  lemma OwnLeaves(c: NudConfig, s: Ndp, step: Step, t: Ndp, ip: Ip)
    requires Next(c, ip, s, step, t) && !step.Answer? && !step.Elsewhere? && !step.Arrives?
    requires ip in s.cache && ip in t.cache
    ensures t.pending == s.pending
  {
    match step
    case Retry(shut) => SchedulePending(s.(nsRetryTimers := s.nsRetryTimers - {ip}), c, shut, ip);
    case Stray(shut) => SchedulePending(Unkey(s.(loose := s.loose - multiset{ip}), ip), c, shut, ip);
    case Wait(shut) => WaitLeaves(c, s, shut, ip);
    case Late(shut) => WaitLeaves(c, Overtaken(s, ip), shut, ip);
    case Ages =>
  }

  lemma WaitLeaves(c: NudConfig, s: Ndp, shut: bool, ip: Ip)
    requires ip in s.cache && ip in RetryNud(s, c, shut, ip).cache
    ensures RetryNud(s, c, shut, ip).pending == s.pending
  {
    if s.cache[ip].state == UNREACHABLE { SchedulePending(ResetCount(NextGroup(s, ip), ip), c, shut, ip); }
  }

  /** While ip is in the cache and not reachable, what waits for it is what was handed over, in order. */
  lemma {:induction false} HeldRun(c: NudConfig, ss: seq<Ndp>, es: seq<Event>, ip: Ip)
    requires Stretch(c, ss, es) && NdpInv(ss[0], c)
    requires forall i :: 0 <= i <= |es| ==> ip in ss[i].cache && ss[i].cache[ip].state != REACHABLE
    ensures NdpInv(ss[|es|], c) && Waiting(ss[|es|], ip) == Handed(Waiting(ss[0], ip), es, ip, c.queueLimit)
    decreases |es|
  {
    if es != [] {
      var n := |es| - 1;
      HeldRun(c, ss[..n + 1], es[..n], ip);
      var s, e, t := ss[n], es[n], ss[n + 1];
      assert Events(c)(s, e, t);
      StepInv(c, s, e, t);
      HeldStep(c, s, e, t, ip);
    }
  }

  lemma HeldStep(c: NudConfig, s: Ndp, e: Event, t: Ndp, ip: Ip)
    requires NdpInv(s, c) && Happens(c, s, e, t)
    requires ip in s.cache && s.cache[ip].state != REACHABLE && ip in t.cache && t.cache[ip].state != REACHABLE
    ensures Waiting(t, ip) ==
            if e.Sends? && e.ip == ip then Appended(Waiting(s, ip), e.p, c.queueLimit) else Waiting(s, ip)
  {
    if e.Sends? && e.ip == ip { PacketWaits(s, c, e.shut, ip, e.p); } else { OthersLeave(c, s, e, t, ip); }
  }

  /** Nothing waits for a neighbor outside resolution and probing, in any run. */
  ghost predicate NoneWaiting(s: Ndp) { forall ip :: Resolved(s, ip) ==> Waiting(s, ip) == [] }

  lemma NoneWaitingStep(c: NudConfig, s: Ndp, e: Event, t: Ndp)
    requires NdpInv(s, c) && NoneWaiting(s) && Happens(c, s, e, t)
    ensures NoneWaiting(t)
  {
    StepInv(c, s, e, t);
    forall ip | Resolved(t, ip) ensures Waiting(t, ip) == [] {
      if e.ip != ip { assert SameAt(s, t, ip); } else { ResolvedFrom(c, s, e, t, ip); }
      assert Resolved(s, ip) ==> Waiting(s, ip) == [];
      assert e.ip != ip ==> Resolved(s, ip);
    }
  }

  /** What leaves a neighbor resolved: an answer, or a step that began so and left what waits alone. */
  lemma ResolvedFrom(c: NudConfig, s: Ndp, e: Event, t: Ndp, ip: Ip)
    requires NdpInv(s, c) && Happens(c, s, e, t) && e.ip == ip && Resolved(t, ip)
    ensures Waiting(t, ip) == [] || (Resolved(s, ip) && Waiting(t, ip) == Waiting(s, ip))
  {
    match e
    case Probes(_, shut) => NeverResolved(Probed(s, ip), c, shut, ip);
    case Sends(_, shut, p) => SendsResolved(c, s, shut, p, ip);
    case Does(_, step) => DoesResolved(c, s, step, t, ip);
  }

  lemma NeverResolved(s: Ndp, c: NudConfig, shut: bool, ip: Ip)
    requires ip in s.cache && !Resolved(s, ip)
    ensures !Resolved(ScheduleNs(s, c, shut, ip), ip)
  {
  }

  lemma SendsResolved(c: NudConfig, s: Ndp, shut: bool, p: Packet, ip: Ip)
    requires Resolved(SendPacket(s, c, shut, ip, p), ip)
    ensures Resolved(s, ip) && Waiting(SendPacket(s, c, shut, ip, p), ip) == Waiting(s, ip)
  {
    if ip !in s.cache {
      NeverResolved(ResetCount(Enter(s, ip), ip), c, shut, ip);
    } else if s.cache[ip].state == STALE || s.cache[ip].state == DELAY {
      NeverResolved(Probed(s, ip), c, shut, ip);
    }
  }

  lemma DoesResolved(c: NudConfig, s: Ndp, step: Step, t: Ndp, ip: Ip)
    requires Next(c, ip, s, step, t) && !step.Elsewhere? && !step.Arrives? && Resolved(t, ip)
    ensures Waiting(t, ip) == [] || (Resolved(s, ip) && Waiting(t, ip) == Waiting(s, ip))
  {
    match step
    case Answer(mac) =>
    case Ages =>
    case Retry(shut) =>
      var s1 := s.(nsRetryTimers := s.nsRetryTimers - {ip});
      ScheduleFrom(s1, c, shut, ip);
    case Stray(shut) =>
      var s1 := Unkey(s.(loose := s.loose - multiset{ip}), ip);
      ScheduleFrom(s1, c, shut, ip);
    case Wait(shut) =>
      if s.cache[ip].state == UNREACHABLE { NeverResolved(ResetCount(NextGroup(s, ip), ip), c, shut, ip); }
    case Late(shut) =>
      if ip in s.cache && s.cache[ip].state == UNREACHABLE {
        NeverResolved(ResetCount(NextGroup(Overtaken(s, ip), ip), ip), c, shut, ip);
      }
  }

  lemma ScheduleFrom(s: Ndp, c: NudConfig, shut: bool, ip: Ip)
    requires Resolved(ScheduleNs(s, c, shut, ip), ip)
    ensures Resolved(s, ip) && Waiting(ScheduleNs(s, c, shut, ip), ip) == Waiting(s, ip)
  {
  }

  lemma {:induction false} NoneWaitingRun(c: NudConfig, ss: seq<Ndp>, es: seq<Event>)
    requires Stretch(c, ss, es) && NdpInv(ss[0], c) && NoneWaiting(ss[0])
    ensures NdpInv(ss[|es|], c) && NoneWaiting(ss[|es|])
    decreases |es|
  {
    if es != [] {
      var n := |es| - 1;
      NoneWaitingRun(c, ss[..n + 1], es[..n]);
      assert Events(c)(ss[n], es[n], ss[n + 1]);
      StepInv(c, ss[n], es[n], ss[n + 1]);
      NoneWaitingStep(c, ss[n], es[n], ss[n + 1]);
    }
  }

  /** In every run from the empty cache. */
  lemma NothingWaitsForResolved(c: NudConfig, ss: seq<Ndp>, es: seq<Event>, ip: Ip)
    requires Run(c, ss, es) && Resolved(ss[|es|], ip)
    ensures Waiting(ss[|es|], ip) == []
  {
    assert Stretch(c, ss, es);
    assert NoneWaiting(Empty());
    NoneWaitingRun(c, ss, es);
  }

  lemma {:induction false} HandedFirst(w: seq<Packet>, es: seq<Event>, ip: Ip, limit: nat)
    requires es != []
    ensures Handed(w, es, ip, limit) == Handed(Handed(w, es[..1], ip, limit), es[1..], ip, limit)
    decreases |es|
  {
    if |es| > 1 {
      var front := es[..|es| - 1];
      HandedFirst(w, front, ip, limit);
      assert front[..1] == es[..1] && front[1..] == es[1..][..|es| - 2];
    } else {
      assert es[..1] == es;
    }
  }

  /**
    From the packet that finds the neighbor unknown or STALE until its next answer, whatever else happens:
    the answer sends every packet handed over since that found room, each once and in order, to the MAC it
    brings, and nothing waits any more.
   */
  lemma AnswerSendsAll(c: NudConfig, ss: seq<Ndp>, es: seq<Event>, ip: Ip, mac: Mac)
    requires Stretch(c, ss, es) && NdpInv(ss[0], c) && es != [] && es[0].Sends? && es[0].ip == ip
    requires !Known(ss[0], ip) && Waiting(ss[0], ip) == []
    requires forall i :: 1 <= i <= |es| ==> ip in ss[i].cache && ss[i].cache[ip].state != REACHABLE
    ensures var s, t := ss[|es|], Answered(ss[|es|], ip, mac);
            && t.out == s.out + Arp.Dispatches(Handed([], es, ip, c.queueLimit), mac)
            && ip !in t.pending && ip in t.table && t.table[ip] == mac
  {
    assert Events(c)(ss[0], es[0], ss[0 + 1]);
    StepInv(c, ss[0], es[0], ss[1]);
    PacketWaits(ss[0], c, es[0].shut, ip, es[0].p);
    assert es[..1][..0] == [];
    forall i | 0 <= i < |es[1..]| ensures Events(c)(ss[1..][i], es[1..][i], ss[1..][i + 1]) {
      assert Events(c)(ss[i + 1], es[i + 1], ss[i + 1 + 1]);
    }
    HeldRun(c, ss[1..], es[1..], ip);
    HandedFirst([], es, ip, c.queueLimit);
  }

  /** A neighbor that is removed takes what waits with it; at most the packet just handed over stays. */
  lemma RemovalLoses(c: NudConfig, s: Ndp, e: Event, t: Ndp, ip: Ip)
    requires NdpInv(s, c) && Happens(c, s, e, t) && ip in s.cache && ip !in t.cache
    ensures e.ip == ip && Waiting(t, ip) == if e.Sends? then Appended([], e.p, c.queueLimit) else []
  {
    StepInv(c, s, e, t);
    assert e.ip != ip ==> SameAt(s, t, ip);
    match e
    case Sends(_, shut, p) => PacketWaits(s, c, shut, ip, p);
    case Probes(_, shut) => SchedulePending(Probed(s, ip), c, shut, ip);
    case Does(_, step) => DoesLose(c, s, step, t, ip);
  }

  lemma DoesLose(c: NudConfig, s: Ndp, step: Step, t: Ndp, ip: Ip)
    requires Next(c, ip, s, step, t) && !step.Elsewhere? && !step.Arrives? && ip in s.cache && ip !in t.cache
    ensures ip !in t.pending
  {
    match step
    case Retry(shut) => SchedulePending(s.(nsRetryTimers := s.nsRetryTimers - {ip}), c, shut, ip);
    case Stray(shut) => SchedulePending(Unkey(s.(loose := s.loose - multiset{ip}), ip), c, shut, ip);
    case Wait(shut) => SchedulePending(ResetCount(NextGroup(s, ip), ip), c, shut, ip);
    case Late(shut) => SchedulePending(ResetCount(NextGroup(Overtaken(s, ip), ip), ip), c, shut, ip);
    case _ =>
  }
}
