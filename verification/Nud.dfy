/**
  Neighbor Unreachability Detection (section 7.3 of RFC 4861; Ndp.cpp:148-177, 221-234, 240-470),
  with no limit on the number of probes or resolutions, so that nothing waits in a queue for them.

  Timers.  The source records the id of a neighbor's retry timer in nsRetryTimers and that of its final
  wait in the entry.  A callback whose id is overwritten or erased without a cancel still fires: `loose`
  counts such retry callbacks and `late` such final waits.
 */
module Nud {
  import opened Collections
  import Arp

  type Ip = Arp.Ip
  type Mac = Arp.Mac
  type Packet = Arp.Packet

  datatype NudState = ACTIVE | REACHABLE | STALE | DELAY | PROBE | UNREACHABLE

  /** `retryTimer`: the final wait is running. */
  datatype Neighbor = Neighbor(mac: Mac, state: NudState, retryTimer: bool, nudGroup: nat)

  /** NUD_RETRY and NUD_RETRY_ATTEMPTS are 8-bit numbers. */
  datatype NudConfig = NudConfig(retry: nat, attempts: nat, queueLimit: nat)

  predicate Sized(c: NudConfig) { c.retry < 256 && c.attempts < 256 }

  /**
    nsRetryTimers is the set of addresses with a recorded retry timer; `log` lists the solicitations
    sent, `out` the packets.
   */
  datatype Ndp = Ndp(
    cache: map<Ip, Neighbor>, table: map<Ip, Mac>, order: seq<Ip>, pending: map<Ip, seq<Packet>>,
    nsRetryCount: map<Ip, nat>, nsRetryTimers: set<Ip>, loose: multiset<Ip>, late: multiset<Ip>,
    log: seq<Ip>, out: seq<Arp.Event>)

  function Empty(): Ndp { Ndp(map[], map[], [], map[], map[], {}, multiset{}, multiset{}, [], []) }

  // ---------------------------------------------------------------------
  // What each handler does
  // ---------------------------------------------------------------------

  function RemoveNeighbor(s: Ndp, ip: Ip): Ndp {
    if ip !in s.cache then s
    else s.(cache := s.cache - {ip}, table := s.table - {ip}, order := Arp.Without(s.order, ip),
            pending := s.pending - {ip})
  }

  predicate RunningNud(s: Ndp, ip: Ip) {
    ip in s.cache && (s.cache[ip].state == PROBE || s.cache[ip].state == UNREACHABLE)
  }

  function Attempt(s: Ndp, ip: Ip): nat { if ip in s.nsRetryCount then s.nsRetryCount[ip] else 0 }

  /** Erasing the recorded id does not cancel the timer. */
  function Unkey(s: Ndp, ip: Ip): Ndp {
    s.(nsRetryTimers := s.nsRetryTimers - {ip},
       loose := if ip in s.nsRetryTimers then s.loose + multiset{ip} else s.loose)
  }

  function Forget(s: Ndp, ip: Ip): Ndp { Unkey(s.(nsRetryCount := s.nsRetryCount - {ip}), ip) }

  /** The final wait begins; one that was recorded already is not cancelled. */
  function BeginWait(s: Ndp, ip: Ip): Ndp
    requires ip in s.cache
  {
    s.(cache := s.cache[ip := s.cache[ip].(state := UNREACHABLE, retryTimer := true)],
       late := if s.cache[ip].retryTimer then s.late + multiset{ip} else s.late)
  }

  /** All attempts of a group are used up. */
  function Exhausted(s: Ndp, c: NudConfig, ip: Ip): Ndp {
    if RunningNud(s, ip) && s.cache[ip].nudGroup <= c.retry then Forget(BeginWait(s, ip), ip)
    else Forget(RemoveNeighbor(s, ip), ip)
  }

  /**
    One solicitation, unless the interface is shut, and the timer for the next attempt in place of the
    recorded one.
   */
  function Solicit(s: Ndp, shut: bool, ip: Ip): Ndp {
    s.(nsRetryCount := s.nsRetryCount[ip := (Attempt(s, ip) + 1) % 256],
       nsRetryTimers := s.nsRetryTimers + {ip},
       log := if shut then s.log else s.log + [ip])
  }

  function AttemptLimit(s: Ndp, c: NudConfig, ip: Ip): nat { if RunningNud(s, ip) then c.attempts else c.retry }

  function ScheduleNs(s: Ndp, c: NudConfig, shut: bool, ip: Ip): Ndp {
    if Attempt(s, ip) >= AttemptLimit(s, c, ip) then Exhausted(s, c, ip) else Solicit(s, shut, ip)
  }

  function ResetCount(s: Ndp, ip: Ip): Ndp { s.(nsRetryCount := s.nsRetryCount[ip := 0]) }

  function SendNs(s: Ndp, c: NudConfig, shut: bool, ip: Ip): Ndp {
    if ip in s.nsRetryTimers then s else ScheduleNs(ResetCount(s, ip), c, shut, ip)
  }

  function Probed(s: Ndp, ip: Ip): Ndp
    requires ip in s.cache
  {
    ResetCount(s.(cache := s.cache[ip := s.cache[ip].(state := PROBE)]), ip)
  }

  function StartNud(s: Ndp, c: NudConfig, shut: bool, ip: Ip): Ndp
    requires ip in s.cache
  {
    ScheduleNs(Probed(s, ip), c, shut, ip)
  }

  /** The callback of the recorded retry timer, which erases its own id. */
  function NsTimer(s: Ndp, c: NudConfig, shut: bool, ip: Ip): Ndp {
    ScheduleNs(s.(nsRetryTimers := s.nsRetryTimers - {ip}), c, shut, ip)
  }

  /** The same callback when its id is not the recorded one: it erases the id of another timer, if there is one. */
  function StrayTimer(s: Ndp, c: NudConfig, shut: bool, ip: Ip): Ndp {
    ScheduleNs(Unkey(s.(loose := s.loose - multiset{ip}), ip), c, shut, ip)
  }

  function NextGroup(s: Ndp, ip: Ip): Ndp
    requires ip in s.cache
  {
    var e := s.cache[ip];
    ResetCount(s.(cache := s.cache[ip := e.(retryTimer := false, nudGroup := (e.nudGroup + 1) % 256)]), ip)
  }

  /** The callback of the recorded final wait: the next group begins. */
  function RetryNud(s: Ndp, c: NudConfig, shut: bool, ip: Ip): Ndp {
    if ip !in s.cache || s.cache[ip].state != UNREACHABLE then s else SendNs(NextGroup(s, ip), c, shut, ip)
  }

  /** Another final wait ends: in an unreachable entry it drops the id of the recorded one. */
  function Overtaken(s: Ndp, ip: Ip): Ndp {
    var others := s.late - multiset{ip};
    var drops := ip in s.cache && s.cache[ip].state == UNREACHABLE && s.cache[ip].retryTimer;
    s.(late := if drops then others + multiset{ip} else others)
  }

  function LateWait(s: Ndp, c: NudConfig, shut: bool, ip: Ip): Ndp { RetryNud(Overtaken(s, ip), c, shut, ip) }

  function Waiting(s: Ndp, ip: Ip): seq<Packet> { if ip in s.pending then s.pending[ip] else [] }

  /** An advertisement completes the entry and sends what waited; no retry timer is cancelled. */
  function Answered(s: Ndp, ip: Ip, mac: Mac): Ndp
    requires ip in s.cache
  {
    s.(cache := s.cache[ip := s.cache[ip].(mac := mac, state := REACHABLE, retryTimer := false)],
       table := s.table[ip := mac], pending := s.pending - {ip},
       out := s.out + Arp.Dispatches(Waiting(s, ip), mac))
  }

  /** The reachable time ends without a refresh. */
  function Aged(s: Ndp, ip: Ip): Ndp
    requires ip in s.cache
  {
    s.(cache := s.cache[ip := s.cache[ip].(state := STALE)])
  }

  function Hold(s: Ndp, c: NudConfig, ip: Ip, p: Packet): Ndp {
    var q := Waiting(s, ip);
    s.(pending := s.pending[ip := if |q| < c.queueLimit then q + [p] else q])
  }

  function Enter(s: Ndp, ip: Ip): Ndp {
    s.(cache := s.cache[ip := Neighbor(0, ACTIVE, false, 1)], order := s.order + [ip])
  }

  /** A packet for an unknown neighbor: a new entry, the first solicitation, and the packet waits. */
  function Resolve(s: Ndp, c: NudConfig, shut: bool, ip: Ip, p: Packet): Ndp {
    Hold(SendNs(Enter(s, ip), c, shut, ip), c, ip, p)
  }

  /**
    A packet for a neighbor: sent at once if it is REACHABLE, a new probe if it is STALE, otherwise
    the packet waits.
   */
  function SendPacket(s: Ndp, c: NudConfig, shut: bool, ip: Ip, p: Packet): Ndp {
    if ip !in s.cache then Resolve(s, c, shut, ip, p)
    else match s.cache[ip].state
      case REACHABLE => s.(out := s.out + Arp.Dispatches([p], s.cache[ip].mac))
      case STALE | DELAY => Hold(StartNud(s, c, shut, ip), c, ip, p)
      case _ => Hold(s, c, ip, p)
  }

  // ---------------------------------------------------------------------
  // Runs
  // ---------------------------------------------------------------------

  function Sent(log: seq<Ip>, ip: Ip): nat {
    if log == [] then 0 else Sent(log[..|log| - 1], ip) + if log[|log| - 1] == ip then 1 else 0
  }

  lemma SentStep(log: seq<Ip>, x: Ip, ip: Ip)
    ensures Sent(log + [x], ip) == Sent(log, ip) + if x == ip then 1 else 0
  {
    assert (log + [x])[..|log|] == log;
  }

  /** Whatever else the router does leaves this neighbor's data and timers alone. */
  ghost predicate SameAt(s: Ndp, t: Ndp, ip: Ip) {
    && (ip in t.cache <==> ip in s.cache) && (ip in s.cache ==> t.cache[ip] == s.cache[ip])
    && (ip in t.table <==> ip in s.table) && (ip in t.order <==> ip in s.order)
    && (ip in t.pending <==> ip in s.pending) && (ip in s.pending ==> t.pending[ip] == s.pending[ip])
    && (ip in t.nsRetryCount <==> ip in s.nsRetryCount) && Attempt(t, ip) == Attempt(s, ip)
    && (ip in t.nsRetryTimers <==> ip in s.nsRetryTimers)
    && t.loose[ip] == s.loose[ip] && t.late[ip] == s.late[ip] && Sent(t.log, ip) == Sent(s.log, ip)
  }

  /**
    What happens to one neighbor until the next probe of it begins: its recorded retry timer or a loose
    one ends, its recorded final wait or a late one ends, it answers, its reachable time ends, a packet
    waits for it, or something happens elsewhere.
   */
  datatype Step = Retry(shut: bool) | Stray(shut: bool) | Wait(shut: bool) | Late(shut: bool)
                | Answer(mac: Mac) | Ages | Arrives(p: Packet) | Elsewhere

  ghost predicate Next(c: NudConfig, ip: Ip, s: Ndp, step: Step, t: Ndp) {
    match step
    case Retry(shut) => ip in s.nsRetryTimers && t == NsTimer(s, c, shut, ip)
    case Stray(shut) => s.loose[ip] > 0 && t == StrayTimer(s, c, shut, ip)
    case Wait(shut) => ip in s.cache && s.cache[ip].retryTimer && t == RetryNud(s, c, shut, ip)
    case Late(shut) => s.late[ip] > 0 && t == LateWait(s, c, shut, ip)
    case Answer(mac) => ip in s.cache && t == Answered(s, ip, mac)
    case Ages => ip in s.cache && s.cache[ip].state == REACHABLE && t == Aged(s, ip)
    case Arrives(p) => ip in s.cache && (s.cache[ip].state == ACTIVE || RunningNud(s, ip)) && t == Hold(s, c, ip, p)
    case Elsewhere => SameAt(s, t, ip)
  }

  ghost function Moves(c: NudConfig, ip: Ip): (Ndp, Step, Ndp) -> bool { (s, step, t) => Next(c, ip, s, step, t) }

  ghost predicate Trace(c: NudConfig, ip: Ip, ss: seq<Ndp>, steps: seq<Step>) { Chain(Moves(c, ip), ss, steps) }

  /** A probe may start: the neighbor is resolved and is not being probed. */
  predicate Resolved(s: Ndp, ip: Ip) { ip in s.cache && !RunningNud(s, ip) && s.cache[ip].state != ACTIVE }

  /** What happens to the router: a step of one neighbor, a packet for it, or a new probe of it. */
  datatype Event = Does(ip: Ip, step: Step) | Sends(ip: Ip, shut: bool, p: Packet) | Probes(ip: Ip, shut: bool)

  ghost predicate Happens(c: NudConfig, s: Ndp, e: Event, t: Ndp) {
    match e
    case Does(ip, step) => !step.Elsewhere? && !step.Arrives? && Next(c, ip, s, step, t)
    case Sends(ip, shut, p) => t == SendPacket(s, c, shut, ip, p)
    case Probes(ip, shut) => Resolved(s, ip) && t == StartNud(s, c, shut, ip)
  }

  ghost predicate Run(c: NudConfig, ss: seq<Ndp>, es: seq<Event>) {
    && |ss| == |es| + 1 && ss[0] == Empty()
    && forall i :: 0 <= i < |es| ==> Happens(c, ss[i], es[i], ss[i + 1])
  }

  // ---------------------------------------------------------------------
  // What every handler keeps
  // ---------------------------------------------------------------------

  /** The data-plane table is the resolved part of the cache. */
  ghost predicate Agree(s: Ndp) {
    forall x ::
      if x in s.cache && s.cache[x].state != ACTIVE then x in s.table && s.table[x] == s.cache[x].mac else x !in s.table
  }

  /** The 8-bit counters. */
  ghost predicate Counters(s: Ndp) {
    && (forall x :: x in s.cache ==> s.cache[x].nudGroup < 256)
    && (forall x :: x in s.nsRetryCount ==> s.nsRetryCount[x] < 256)
  }

  predicate NoStrays(s: Ndp, ip: Ip) { s.loose[ip] == 0 && s.late[ip] == 0 }

  /** Final waits belong to unreachable neighbors.  If there are attempts to make, every callback is recorded. */
  ghost predicate TidyAt(s: Ndp, c: NudConfig, ip: Ip) {
    && (ip in s.cache && s.cache[ip].retryTimer ==> s.cache[ip].state == UNREACHABLE)
    && (c.attempts > 0 ==> NoStrays(s, ip) && !(ip in s.cache && s.cache[ip].retryTimer && ip in s.nsRetryTimers))
  }

  ghost predicate Tidy(s: Ndp, c: NudConfig) { forall x :: TidyAt(s, c, x) }

  ghost predicate NdpInv(s: Ndp, c: NudConfig) { Agree(s) && Counters(s) && Tidy(s, c) }

  /** Nothing of any other neighbor changes: for them the step happens elsewhere. */
  ghost predicate OnlyTouches(s: Ndp, t: Ndp, ip: Ip) { forall x :: x != ip ==> SameAt(s, t, x) }

  /** The invariant without what it says of the timers of ip. */
  ghost predicate Sound(s: Ndp) { Agree(s) && Counters(s) }

  lemma TouchesTwice(s: Ndp, s1: Ndp, t: Ndp, ip: Ip)
    requires OnlyTouches(s, s1, ip) && OnlyTouches(s1, t, ip)
    ensures OnlyTouches(s, t, ip)
  {
    forall x | x != ip ensures SameAt(s, t, x) { assert SameAt(s, s1, x) && SameAt(s1, t, x); }
  }

  lemma TidyElsewhere(s: Ndp, t: Ndp, c: NudConfig, ip: Ip)
    requires Tidy(s, c) && OnlyTouches(s, t, ip) && TidyAt(t, c, ip)
    ensures Tidy(t, c)
  {
    forall x ensures TidyAt(t, c, x) { assert TidyAt(s, c, x) && (x != ip ==> SameAt(s, t, x)); }
  }

  lemma WithoutOthers(order: seq<Ip>, ip: Ip, x: Ip)
    requires x != ip
    ensures x in Arp.Without(order, ip) <==> x in order
  {
    if order != [] {
      WithoutOthers(order[1..], ip, x);
      assert order == [order[0]] + order[1..];
    }
  }

  lemma RemoveKeeps(s: Ndp, ip: Ip)
    requires Sound(s)
    ensures Sound(RemoveNeighbor(s, ip)) && OnlyTouches(s, RemoveNeighbor(s, ip), ip)
  {
    forall x | x != ip ensures SameAt(s, RemoveNeighbor(s, ip), x) { WithoutOthers(s.order, ip, x); }
  }

  lemma SolicitKeeps(s: Ndp, shut: bool, ip: Ip)
    requires Sound(s)
    ensures Sound(Solicit(s, shut, ip)) && OnlyTouches(s, Solicit(s, shut, ip), ip)
  {
    forall x ensures Sent(s.log + [ip], x) == Sent(s.log, x) + if x == ip then 1 else 0 { SentStep(s.log, ip, x); }
  }

  lemma ForgetKeeps(s: Ndp, s1: Ndp, ip: Ip)
    requires Sound(s1) && OnlyTouches(s, s1, ip)
    ensures Sound(Forget(s1, ip)) && OnlyTouches(s, Forget(s1, ip), ip)
  {
    forall x | x != ip ensures SameAt(s, Forget(s1, ip), x) { assert SameAt(s, s1, x); }
  }

  lemma ExhaustedKeeps(s: Ndp, c: NudConfig, ip: Ip)
    requires Sound(s)
    ensures Sound(Exhausted(s, c, ip)) && OnlyTouches(s, Exhausted(s, c, ip), ip)
  {
    if RunningNud(s, ip) && s.cache[ip].nudGroup <= c.retry {
      ForgetKeeps(s, BeginWait(s, ip), ip);
    } else {
      RemoveKeeps(s, ip);
      ForgetKeeps(s, RemoveNeighbor(s, ip), ip);
    }
  }

  lemma ScheduleKeeps(s: Ndp, c: NudConfig, shut: bool, ip: Ip)
    requires Sound(s)
    ensures Sound(ScheduleNs(s, c, shut, ip)) && OnlyTouches(s, ScheduleNs(s, c, shut, ip), ip)
  {
    if Attempt(s, ip) >= AttemptLimit(s, c, ip) { ExhaustedKeeps(s, c, ip); } else { SolicitKeeps(s, shut, ip); }
  }

  /** No timer of ip is recorded when scheduling, or it will be replaced. */
  ghost predicate Fit(s: Ndp, c: NudConfig, ip: Ip) {
    && (ip in s.cache ==> !s.cache[ip].retryTimer || (c.attempts == 0 && s.cache[ip].state == UNREACHABLE))
    && (c.attempts > 0 ==> NoStrays(s, ip) && (ip in s.nsRetryTimers ==> Attempt(s, ip) < AttemptLimit(s, c, ip)))
  }

  lemma ScheduleTidy(s: Ndp, c: NudConfig, shut: bool, ip: Ip)
    requires Fit(s, c, ip)
    ensures TidyAt(ScheduleNs(s, c, shut, ip), c, ip)
  {
  }

  /** After scheduling, a retry timer runs, or the final wait does, or the neighbor is gone. */
  predicate Resting(s: Ndp, ip: Ip) {
    ip in s.nsRetryTimers || ip !in s.cache || (s.cache[ip].state == UNREACHABLE && s.cache[ip].retryTimer)
  }

  lemma ScheduleRests(s: Ndp, c: NudConfig, shut: bool, ip: Ip)
    ensures var t := ScheduleNs(s, c, shut, ip); Resting(t, ip) && (ip in s.cache && ip !in t.cache ==> Lost(t, ip))
  {
  }

  predicate Lost(s: Ndp, ip: Ip) { ip !in s.cache && ip !in s.table && ip !in s.order && ip !in s.pending }

  /** A handler that prepares s1 and then schedules. */
  lemma ThenKeeps(s: Ndp, s1: Ndp, c: NudConfig, shut: bool, ip: Ip)
    requires Tidy(s, c) && Sound(s1) && OnlyTouches(s, s1, ip) && Fit(s1, c, ip)
    ensures var t := ScheduleNs(s1, c, shut, ip); NdpInv(t, c) && OnlyTouches(s, t, ip)
  {
    var t := ScheduleNs(s1, c, shut, ip);
    ScheduleKeeps(s1, c, shut, ip);
    TouchesTwice(s, s1, t, ip);
    ScheduleTidy(s1, c, shut, ip);
    TidyElsewhere(s, t, c, ip);
  }

  lemma SendKeeps(s0: Ndp, s: Ndp, c: NudConfig, shut: bool, ip: Ip)
    requires Tidy(s0, c) && Sound(s) && OnlyTouches(s0, s, ip) && TidyAt(s, c, ip)
    requires ip in s.cache ==> !s.cache[ip].retryTimer
    ensures var t := SendNs(s, c, shut, ip); NdpInv(t, c) && OnlyTouches(s0, t, ip) && Resting(t, ip)
  {
    if ip in s.nsRetryTimers {
      TidyElsewhere(s0, s, c, ip);
    } else {
      var s1 := ResetCount(s, ip);
      TouchesTwice(s0, s, s1, ip);
      ThenKeeps(s0, s1, c, shut, ip);
      ScheduleRests(s1, c, shut, ip);
    }
  }

  lemma StartNudKeeps(s: Ndp, c: NudConfig, shut: bool, ip: Ip)
    requires NdpInv(s, c) && Resolved(s, ip)
    ensures var t := StartNud(s, c, shut, ip); NdpInv(t, c) && OnlyTouches(s, t, ip)
  {
    assert TidyAt(s, c, ip);
    ThenKeeps(s, Probed(s, ip), c, shut, ip);
  }

  lemma NsTimerKeeps(s: Ndp, c: NudConfig, shut: bool, ip: Ip)
    requires NdpInv(s, c) && ip in s.nsRetryTimers
    ensures var t := NsTimer(s, c, shut, ip); NdpInv(t, c) && OnlyTouches(s, t, ip)
  {
    assert TidyAt(s, c, ip);
    ThenKeeps(s, s.(nsRetryTimers := s.nsRetryTimers - {ip}), c, shut, ip);
  }

  lemma StrayTimerKeeps(s: Ndp, c: NudConfig, shut: bool, ip: Ip)
    requires NdpInv(s, c) && s.loose[ip] > 0
    ensures var t := StrayTimer(s, c, shut, ip); NdpInv(t, c) && OnlyTouches(s, t, ip)
  {
    assert TidyAt(s, c, ip);
    ThenKeeps(s, Unkey(s.(loose := s.loose - multiset{ip}), ip), c, shut, ip);
  }

  lemma NextGroupKeeps(s0: Ndp, s: Ndp, c: NudConfig, shut: bool, ip: Ip)
    requires Tidy(s0, c) && Sound(s) && OnlyTouches(s0, s, ip) && TidyAt(s, c, ip)
    ensures var t := RetryNud(s, c, shut, ip); NdpInv(t, c) && OnlyTouches(s0, t, ip)
  {
    if ip !in s.cache || s.cache[ip].state != UNREACHABLE {
      TidyElsewhere(s0, s, c, ip);
    } else {
      var s1 := NextGroup(s, ip);
      TouchesTwice(s0, s, s1, ip);
      SendKeeps(s0, s1, c, shut, ip);
    }
  }

  lemma WaitKeepsInv(s: Ndp, c: NudConfig, shut: bool, ip: Ip)
    requires NdpInv(s, c)
    ensures var t := RetryNud(s, c, shut, ip); NdpInv(t, c) && OnlyTouches(s, t, ip)
  {
    NextGroupKeeps(s, s, c, shut, ip);
  }

  lemma LateKeepsInv(s: Ndp, c: NudConfig, shut: bool, ip: Ip)
    requires NdpInv(s, c) && s.late[ip] > 0
    ensures var t := LateWait(s, c, shut, ip); NdpInv(t, c) && OnlyTouches(s, t, ip)
  {
    assert TidyAt(s, c, ip);
    NextGroupKeeps(s, Overtaken(s, ip), c, shut, ip);
  }

  lemma AnsweredKeeps(s: Ndp, c: NudConfig, ip: Ip, mac: Mac)
    requires NdpInv(s, c) && ip in s.cache
    ensures NdpInv(Answered(s, ip, mac), c) && OnlyTouches(s, Answered(s, ip, mac), ip)
  {
    assert TidyAt(s, c, ip);
    TidyElsewhere(s, Answered(s, ip, mac), c, ip);
  }

  lemma AgedKeeps(s: Ndp, c: NudConfig, ip: Ip)
    requires NdpInv(s, c) && ip in s.cache && s.cache[ip].state == REACHABLE
    ensures NdpInv(Aged(s, ip), c) && OnlyTouches(s, Aged(s, ip), ip)
  {
    assert TidyAt(s, c, ip);
    TidyElsewhere(s, Aged(s, ip), c, ip);
  }

  lemma HoldKeeps(s0: Ndp, s: Ndp, c: NudConfig, ip: Ip, p: Packet)
    requires NdpInv(s, c) && OnlyTouches(s0, s, ip)
    ensures NdpInv(Hold(s, c, ip, p), c) && OnlyTouches(s0, Hold(s, c, ip, p), ip)
  {
    var t := Hold(s, c, ip, p);
    assert TidyAt(s, c, ip);
    TidyElsewhere(s, t, c, ip);
    TouchesTwice(s0, s, t, ip);
  }

  lemma ResolveKeeps(s: Ndp, c: NudConfig, shut: bool, ip: Ip, p: Packet)
    requires NdpInv(s, c) && ip !in s.cache
    ensures var t := Resolve(s, c, shut, ip, p); NdpInv(t, c) && OnlyTouches(s, t, ip)
  {
    assert TidyAt(s, c, ip);
    SendKeeps(s, Enter(s, ip), c, shut, ip);
    HoldKeeps(s, SendNs(Enter(s, ip), c, shut, ip), c, ip, p);
  }

  lemma SendPacketKeeps(s: Ndp, c: NudConfig, shut: bool, ip: Ip, p: Packet)
    requires NdpInv(s, c)
    ensures var t := SendPacket(s, c, shut, ip, p); NdpInv(t, c) && OnlyTouches(s, t, ip)
  {
    assert TidyAt(s, c, ip);
    if ip !in s.cache {
      ResolveKeeps(s, c, shut, ip, p);
    } else if s.cache[ip].state == REACHABLE {
      TidyElsewhere(s, SendPacket(s, c, shut, ip, p), c, ip);
    } else if s.cache[ip].state == STALE || s.cache[ip].state == DELAY {
      StartNudKeeps(s, c, shut, ip);
      HoldKeeps(s, StartNud(s, c, shut, ip), c, ip, p);
    } else {
      HoldKeeps(s, s, c, ip, p);
    }
  }

  lemma StepInv(c: NudConfig, s: Ndp, e: Event, t: Ndp)
    requires NdpInv(s, c) && Happens(c, s, e, t)
    ensures NdpInv(t, c) && OnlyTouches(s, t, e.ip)
  {
    match e
    case Sends(ip, shut, p) => SendPacketKeeps(s, c, shut, ip, p);
    case Probes(ip, shut) => StartNudKeeps(s, c, shut, ip);
    case Does(ip, step) =>
      match step
      case Retry(shut) => NsTimerKeeps(s, c, shut, ip);
      case Stray(shut) => StrayTimerKeeps(s, c, shut, ip);
      case Wait(shut) => WaitKeepsInv(s, c, shut, ip);
      case Late(shut) => LateKeepsInv(s, c, shut, ip);
      case Answer(mac) => AnsweredKeeps(s, c, ip, mac);
      case Ages => AgedKeeps(s, c, ip);
  }

  /**
    Over every run the table is the resolved part of the cache, the counters keep their width, and if
    NUD_RETRY_ATTEMPTS is not 0 no callback is left without its record.
   */
  lemma {:induction false} RunInv(c: NudConfig, ss: seq<Ndp>, es: seq<Event>)
    requires Run(c, ss, es)
    ensures NdpInv(ss[|es|], c)
    ensures c.attempts > 0 ==> forall x :: NoStrays(ss[|es|], x)
    decreases |es|
  {
    if es != [] {
      var n := |es| - 1;
      RunInv(c, ss[..n + 1], es[..n]);
      StepInv(c, ss[n], es[n], ss[n + 1]);
    }
    forall x | c.attempts > 0 ensures NoStrays(ss[|es|], x) { assert TidyAt(ss[|es|], c, x); }
  }
}
