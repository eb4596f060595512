/**
  How unanswered probing of one neighbor ends (Ndp.cpp:316-470).  With attempts to make in a group, or no
  callback left over from before, the groups are counted by `ProbingRun`.  With NUD_RETRY_ATTEMPTS at 0 a
  group is over as it begins, callbacks may be left over, and `ZeroRun` counts the waits.
 */
module NudProbing {
  import opened Nud

  predicate Unanswered(steps: seq<Step>) { forall i :: 0 <= i < |steps| ==> !steps[i].Answer? }

  /** The neighbor is in the middle of a group. */
  predicate InGroup(s: Ndp, c: NudConfig, ip: Ip) {
    && RunningNud(s, ip) && !s.cache[ip].retryTimer && s.cache[ip].nudGroup < 256
    && ip in s.nsRetryTimers && ip in s.nsRetryCount && 1 <= s.nsRetryCount[ip] <= c.attempts
  }

  /** The neighbor is UNREACHABLE between two groups. */
  predicate Between(s: Ndp, c: NudConfig, ip: Ip) {
    && ip in s.cache && s.cache[ip].state == UNREACHABLE && s.cache[ip].retryTimer && s.cache[ip].nudGroup <= c.retry
    && ip !in s.nsRetryTimers && ip !in s.nsRetryCount
  }

  predicate Gone(s: Ndp, ip: Ip) { Lost(s, ip) && ip !in s.nsRetryTimers && ip !in s.nsRetryCount }

  predicate Probing(s: Ndp, c: NudConfig, ip: Ip) {
    NoStrays(s, ip) && (InGroup(s, c, ip) || Between(s, c, ip) || Gone(s, ip))
  }

  /** Groups still to come after group g. */
  function GroupsAfter(g: nat, c: NudConfig): nat { if g <= c.retry then c.retry - g + 1 else 0 }

  function Mul(n: nat, x: nat): nat { if n == 0 then 0 else Mul(n - 1, x) + x }

  /** Solicitations the neighbor can still be sent. */
  function Budget(s: Ndp, c: NudConfig, ip: Ip): nat
    requires Probing(s, c, ip)
  {
    if Gone(s, ip) then 0
    else
      var left := if InGroup(s, c, ip) then c.attempts - s.nsRetryCount[ip] else 0;
      Mul(GroupsAfter(s.cache[ip].nudGroup, c), c.attempts) + left
  }

  /** Timers of the neighbor that are still to end: lexicographic in groups left and attempts left. */
  function TimersLeft(s: Ndp, c: NudConfig, ip: Ip): nat
    requires Probing(s, c, ip)
  {
    if Gone(s, ip) then 0
    else
      var left := if InGroup(s, c, ip) then c.attempts - s.nsRetryCount[ip] + 1 else 0;
      Mul(GroupsAfter(s.cache[ip].nudGroup, c), c.attempts + 1) + left
  }

  // ---------------------------------------------------------------------
  // One step
  // ---------------------------------------------------------------------

  /** A group is about to make its next attempt; a recorded timer, if there is one, will be replaced. */
  predicate Ready(s: Ndp, c: NudConfig, ip: Ip) {
    && RunningNud(s, ip) && !s.cache[ip].retryTimer && s.cache[ip].nudGroup < 256 && NoStrays(s, ip)
    && ip in s.nsRetryCount && s.nsRetryCount[ip] <= c.attempts
    && (ip in s.nsRetryTimers ==> s.nsRetryCount[ip] < c.attempts)
  }

  lemma SolicitReady(s: Ndp, c: NudConfig, shut: bool, ip: Ip)
    requires Sized(c) && Ready(s, c, ip) && s.nsRetryCount[ip] < c.attempts
    ensures var t := Solicit(s, shut, ip);
            InGroup(t, c, ip) && NoStrays(t, ip) && t.cache == s.cache && t.nsRetryCount[ip] == s.nsRetryCount[ip] + 1
    ensures Sent(Solicit(s, shut, ip).log, ip) == Sent(s.log, ip) + if shut then 0 else 1
  {
    assert Attempt(s, ip) + 1 < 256;
    SentStep(s.log, ip, ip);
  }

  lemma ExhaustedReady(s: Ndp, c: NudConfig, ip: Ip)
    requires Ready(s, c, ip) && s.nsRetryCount[ip] == c.attempts
    ensures var t := Exhausted(s, c, ip);
            && t.log == s.log && NoStrays(t, ip)
            && if s.cache[ip].nudGroup <= c.retry
               then Between(t, c, ip) && t.cache[ip].nudGroup == s.cache[ip].nudGroup
               else Gone(t, ip)
  {
  }

  /** The budgets of a group before its next attempt. */
  predicate Accounts(s: Ndp, t: Ndp, c: NudConfig, ip: Ip, shut: bool, budget: nat, timers: nat) {
    && Probing(t, c, ip) && TimersLeft(t, c, ip) == timers
    && Sent(t.log, ip) + Budget(t, c, ip) <= Sent(s.log, ip) + budget
    && (!shut ==> Sent(t.log, ip) + Budget(t, c, ip) == Sent(s.log, ip) + budget)
  }

  lemma ScheduleReady(s: Ndp, c: NudConfig, shut: bool, ip: Ip)
    requires Sized(c) && Ready(s, c, ip)
    ensures var left, after := c.attempts - s.nsRetryCount[ip], GroupsAfter(s.cache[ip].nudGroup, c);
            Accounts(s, ScheduleNs(s, c, shut, ip), c, ip, shut,
                     Mul(after, c.attempts) + left, Mul(after, c.attempts + 1) + left)
  {
    if s.nsRetryCount[ip] < c.attempts { SolicitReady(s, c, shut, ip); } else { ExhaustedReady(s, c, ip); }
  }

  /** The steps that bring probing closer to its end: a recorded retry timer or any final wait. */
  predicate Own(step: Step) { step.Retry? || step.Wait? || step.Late? }

  predicate Shut(step: Step) { Own(step) && step.shut }

  lemma RetryKeeps(c: NudConfig, ip: Ip, s: Ndp, shut: bool)
    requires Sized(c) && InGroup(s, c, ip) && NoStrays(s, ip)
    ensures TimersLeft(s, c, ip) > 0
    ensures Accounts(s, NsTimer(s, c, shut, ip), c, ip, shut, Budget(s, c, ip), TimersLeft(s, c, ip) - 1)
  {
    ScheduleReady(s.(nsRetryTimers := s.nsRetryTimers - {ip}), c, shut, ip);
  }

  lemma NextGroupIs(c: NudConfig, ip: Ip, s: Ndp, shut: bool)
    requires Between(s, c, ip)
    ensures RetryNud(s, c, shut, ip) == ScheduleNs(NextGroup(s, ip), c, shut, ip)
  {
    var s1 := NextGroup(s, ip);
    assert ResetCount(s1, ip).nsRetryCount == s1.nsRetryCount;
  }

  lemma WaitKeeps(c: NudConfig, ip: Ip, s: Ndp, shut: bool)
    requires Sized(c) && c.retry <= 254 && Between(s, c, ip) && NoStrays(s, ip)
    ensures TimersLeft(s, c, ip) > 0
    ensures Accounts(s, RetryNud(s, c, shut, ip), c, ip, shut, Budget(s, c, ip), TimersLeft(s, c, ip) - 1)
  {
    var g := s.cache[ip].nudGroup;
    assert (g + 1) % 256 == g + 1;
    assert GroupsAfter(g, c) == GroupsAfter(g + 1, c) + 1;
    NextGroupIs(c, ip, s, shut);
    ScheduleReady(NextGroup(s, ip), c, shut, ip);
  }

  lemma StepKeeps(c: NudConfig, ip: Ip, s: Ndp, step: Step, t: Ndp)
    requires Sized(c) && c.retry <= 254 && Probing(s, c, ip) && Next(c, ip, s, step, t) && !step.Answer?
    ensures Own(step) ==> TimersLeft(s, c, ip) > 0
    ensures Accounts(s, t, c, ip, Shut(step), Budget(s, c, ip), TimersLeft(s, c, ip) - if Own(step) then 1 else 0)
  {
    match step
    case Retry(shut) => RetryKeeps(c, ip, s, shut);
    case Wait(shut) => WaitKeeps(c, ip, s, shut);
    case _ =>
  }

  // ---------------------------------------------------------------------
  // Whole runs
  // ---------------------------------------------------------------------

  /** How many of the neighbor's timers have ended. */
  function Firings(steps: seq<Step>): nat {
    if steps == [] then 0 else Firings(steps[..|steps| - 1]) + if Own(steps[|steps| - 1]) then 1 else 0
  }

  predicate NeverShut(steps: seq<Step>) { forall i :: 0 <= i < |steps| ==> !Shut(steps[i]) }

  /**
    From any point of probing: every timer of the neighbor that ends brings its removal one timer
    closer, it is removed when none is left, and solicitations sent plus those still possible never grow.
   */
  lemma {:induction false} ProbingRun(c: NudConfig, ip: Ip, ss: seq<Ndp>, steps: seq<Step>)
    requires Sized(c) && c.retry <= 254 && Trace(c, ip, ss, steps) && Unanswered(steps) && Probing(ss[0], c, ip)
    ensures Firings(steps) <= TimersLeft(ss[0], c, ip)
    ensures Accounts(ss[0], ss[|steps|], c, ip, !NeverShut(steps),
                     Budget(ss[0], c, ip), TimersLeft(ss[0], c, ip) - Firings(steps))
    decreases |steps|
  {
    if steps != [] {
      var n := |steps| - 1;
      ProbingRun(c, ip, ss[..n + 1], steps[..n]);
      assert Moves(c, ip)(ss[n], steps[n], ss[n + 1]);
      StepKeeps(c, ip, ss[n], steps[n], ss[n + 1]);
    }
  }

  lemma OnlyGoneIsDone(s: Ndp, c: NudConfig, ip: Ip)
    requires Probing(s, c, ip)
    ensures TimersLeft(s, c, ip) == 0 <==> Gone(s, ip)
  {
  }

  lemma {:induction false} MulIs(n: nat, x: nat)
    ensures Mul(n, x) == n * x
  {
    if n > 0 {
      MulIs(n - 1, x);
      assert n * x == (n - 1) * x + x;
    }
  }

  /** No callback of an earlier resolution or probe survives the start of probing. */
  predicate Unencumbered(s: Ndp, c: NudConfig, ip: Ip) {
    NoStrays(s, ip) && (ip in s.nsRetryTimers ==> c.attempts > 0)
  }

  /** A neighbor that may start probing. */
  predicate Idle(s: Ndp, c: NudConfig, ip: Ip) {
    && ip in s.cache && !s.cache[ip].retryTimer && s.cache[ip].nudGroup < 256
    && (c.attempts > 0 ==> NoStrays(s, ip))
  }

  /** Wherever the router starts probing, the neighbor is idle. */
  lemma ReachableIdle(c: NudConfig, ip: Ip, ss: seq<Ndp>, es: seq<Event>)
    requires Run(c, ss, es) && Resolved(ss[|es|], ip)
    ensures Idle(ss[|es|], c, ip)
  {
    RunInv(c, ss, es);
    assert TidyAt(ss[|es|], c, ip);
  }

  lemma StartKeeps(c: NudConfig, ip: Ip, s: Ndp, shut: bool)
    requires Sized(c) && Idle(s, c, ip) && Unencumbered(s, c, ip)
    ensures var after := GroupsAfter(s.cache[ip].nudGroup, c);
            Accounts(s, StartNud(s, c, shut, ip), c, ip, shut,
                     Mul(after + 1, c.attempts), Mul(after, c.attempts + 1) + c.attempts)
  {
    ScheduleReady(Probed(s, ip), c, shut, ip);
  }

  /** A run from its start, counted in groups. */
  lemma NudRun(c: NudConfig, ip: Ip, s: Ndp, shut: bool, ss: seq<Ndp>, steps: seq<Step>, after: nat)
    requires Sized(c) && c.retry <= 254 && Idle(s, c, ip) && Unencumbered(s, c, ip)
    requires after == GroupsAfter(s.cache[ip].nudGroup, c)
    requires Trace(c, ip, ss, steps) && Unanswered(steps) && ss[0] == StartNud(s, c, shut, ip)
    ensures Firings(steps) <= Mul(after, c.attempts + 1) + c.attempts
    ensures Accounts(s, ss[|steps|], c, ip, shut || !NeverShut(steps), Mul(after + 1, c.attempts),
                     Mul(after, c.attempts + 1) + c.attempts - Firings(steps))
  {
    StartKeeps(c, ip, s, shut);
    ProbingRun(c, ip, ss, steps);
  }

  lemma AccountsSay(s: Ndp, t: Ndp, c: NudConfig, ip: Ip, shut: bool, budget: nat, timers: nat)
    requires Accounts(s, t, c, ip, shut, budget, timers)
    ensures InGroup(t, c, ip) || Between(t, c, ip) || Gone(t, ip)
    ensures NoStrays(t, ip) && (ip !in t.cache <==> Gone(t, ip)) && (Gone(t, ip) <==> timers == 0)
    ensures Sent(t.log, ip) <= Sent(s.log, ip) + budget
    ensures Gone(t, ip) && !shut ==> Sent(t.log, ip) == Sent(s.log, ip) + budget
  {
    OnlyGoneIsDone(t, c, ip);
  }

  lemma GroupsTimes(after: nat, attempts: nat)
    ensures Mul(after + 1, attempts) == (after + 1) * attempts
    ensures Mul(after, attempts + 1) + attempts == (after + 1) * (attempts + 1) - 1
  {
    MulIs(after + 1, attempts);
    MulIs(after + 1, attempts + 1);
    assert Mul(after + 1, attempts + 1) == Mul(after, attempts + 1) + (attempts + 1);
  }

  // ---------------------------------------------------------------------
  // Groups without attempts
  // ---------------------------------------------------------------------

  /** The waits the neighbor has left. */
  function WaitsLeft(s: Ndp, c: NudConfig, ip: Ip): nat {
    if ip in s.cache then GroupsAfter(s.cache[ip].nudGroup, c) else 0
  }

  lemma ZeroWait(c: NudConfig, ip: Ip, s: Ndp, shut: bool)
    requires c.attempts == 0 && c.retry <= 254 && Between(s, c, ip)
    ensures var t := RetryNud(s, c, shut, ip);
            && (Between(t, c, ip) || Lost(t, ip)) && t.log == s.log
            && WaitsLeft(t, c, ip) == WaitsLeft(s, c, ip) - 1
  {
    NextGroupIs(c, ip, s, shut);
  }

  lemma ZeroStep(c: NudConfig, ip: Ip, s: Ndp, step: Step, t: Ndp)
    requires c.attempts == 0 && c.retry <= 254 && Between(s, c, ip) && Next(c, ip, s, step, t) && !step.Answer?
    ensures (Between(t, c, ip) || Lost(t, ip)) && Sent(t.log, ip) == Sent(s.log, ip)
    ensures WaitsLeft(t, c, ip) == WaitsLeft(s, c, ip) - if Own(step) then 1 else 0
  {
    match step
    case Wait(shut) => ZeroWait(c, ip, s, shut);
    case Late(shut) => ZeroWait(c, ip, Overtaken(s, ip), shut);
    case _ =>
  }

  /** Nothing brings a lost neighbor back but a new packet for it. */
  lemma LostStep(c: NudConfig, ip: Ip, s: Ndp, step: Step, t: Ndp)
    requires Lost(s, ip) && Next(c, ip, s, step, t)
    ensures Lost(t, ip)
  {
    match step
    case Retry(shut) => LostSchedules(s.(nsRetryTimers := s.nsRetryTimers - {ip}), c, shut, ip);
    case Stray(shut) => LostSchedules(Unkey(s.(loose := s.loose - multiset{ip}), ip), c, shut, ip);
    case _ =>
  }

  lemma LostSchedules(s: Ndp, c: NudConfig, shut: bool, ip: Ip)
    requires Lost(s, ip)
    ensures Lost(ScheduleNs(s, c, shut, ip), ip)
  {
  }

  /** Every wait, the recorded one or another, ends one group; retry callbacks left over end none and send nothing. */
  lemma {:induction false} ZeroRun(c: NudConfig, ip: Ip, ss: seq<Ndp>, steps: seq<Step>)
    requires c.attempts == 0 && c.retry <= 254 && Trace(c, ip, ss, steps) && Unanswered(steps)
    requires Between(ss[0], c, ip) || Lost(ss[0], ip)
    ensures var t := ss[|steps|];
            if Firings(steps) < WaitsLeft(ss[0], c, ip)
            then && Between(t, c, ip) && WaitsLeft(t, c, ip) == WaitsLeft(ss[0], c, ip) - Firings(steps)
                 && Sent(t.log, ip) == Sent(ss[0].log, ip)
            else Lost(t, ip)
    decreases |steps|
  {
    if steps != [] {
      var n := |steps| - 1;
      ZeroRun(c, ip, ss[..n + 1], steps[..n]);
      var s, step, t := ss[n], steps[n], ss[n + 1];
      assert Moves(c, ip)(s, step, t);
      if Lost(s, ip) { LostStep(c, ip, s, step, t); } else { ZeroStep(c, ip, s, step, t); }
    }
  }

  lemma ZeroStart(c: NudConfig, ip: Ip, s: Ndp, shut: bool)
    requires c.attempts == 0 && Idle(s, c, ip)
    ensures var t := StartNud(s, c, shut, ip);
            && (Between(t, c, ip) || Lost(t, ip)) && t.log == s.log
            && WaitsLeft(t, c, ip) == GroupsAfter(s.cache[ip].nudGroup, c)
  {
  }

  // ---------------------------------------------------------------------
  // Probing ends
  // ---------------------------------------------------------------------

  /**
    Unanswered probing ends.  Whatever happens meanwhile to other neighbors, the neighbor is removed
    when, and only when, a fixed number of its timers have ended; until then it is inside a group or
    UNREACHABLE between two, and at most NUD_RETRY_ATTEMPTS solicitations per group are sent.  If no
    earlier callback is left over, it leaves no trace, and exactly that many are sent if the interface
    stays up.  A first run has NUD_RETRY + 1 groups.
   */
  lemma NudTerminates(c: NudConfig, ip: Ip, s: Ndp, shut: bool, ss: seq<Ndp>, steps: seq<Step>, groups: nat)
    requires Sized(c) && c.retry <= 254 && Idle(s, c, ip) && groups == GroupsAfter(s.cache[ip].nudGroup, c) + 1
    requires Trace(c, ip, ss, steps) && Unanswered(steps) && ss[0] == StartNud(s, c, shut, ip)
    ensures s.cache[ip].nudGroup >= 1 ==> groups <= c.retry + 1
    ensures s.cache[ip].nudGroup == 1 ==> groups == c.retry + 1
    ensures var t := ss[|steps|]; InGroup(t, c, ip) || Between(t, c, ip) || Lost(t, ip)
    ensures ip !in ss[|steps|].cache <==> Firings(steps) >= groups * (c.attempts + 1) - 1
    ensures ip in ss[|steps|].cache ==> Sent(ss[|steps|].log, ip) <= Sent(s.log, ip) + groups * c.attempts
    ensures Unencumbered(s, c, ip) ==>
              Cleanly(ip, s, ss[|steps|], steps, shut, groups * c.attempts, groups * (c.attempts + 1) - 1)
  {
    var budget, timers := groups * c.attempts, groups * (c.attempts + 1) - 1;
    assert budget == Mul(groups, c.attempts) && timers == Mul(groups - 1, c.attempts + 1) + c.attempts by {
      GroupsTimes(groups - 1, c.attempts);
    }
    ProbingEnds(c, ip, s, shut, ss, steps, groups - 1, budget, timers);
  }

  lemma ProbingEnds(
    c: NudConfig, ip: Ip, s: Ndp, shut: bool, ss: seq<Ndp>, steps: seq<Step>, after: nat, budget: int, timers: int)
    requires Sized(c) && c.retry <= 254 && Idle(s, c, ip) && after == GroupsAfter(s.cache[ip].nudGroup, c)
    requires budget == Mul(after + 1, c.attempts) && timers == Mul(after, c.attempts + 1) + c.attempts
    requires Trace(c, ip, ss, steps) && Unanswered(steps) && ss[0] == StartNud(s, c, shut, ip)
    ensures var t := ss[|steps|]; InGroup(t, c, ip) || Between(t, c, ip) || Lost(t, ip)
    ensures ip !in ss[|steps|].cache <==> Firings(steps) >= timers
    ensures ip in ss[|steps|].cache ==> Sent(ss[|steps|].log, ip) <= Sent(s.log, ip) + budget
    ensures Unencumbered(s, c, ip) ==> Cleanly(ip, s, ss[|steps|], steps, shut, budget, timers)
  {
    if Unencumbered(s, c, ip) {
      CleanTerminates(c, ip, s, shut, ss, steps, after, budget, timers);
    } else {
      MulIs(after, 1);
      ZeroStart(c, ip, s, shut);
      ZeroRun(c, ip, ss, steps);
    }
  }

  /** No timer is left after the last, no trace of the neighbor either, and the solicitations are counted exactly. */
  predicate Cleanly(ip: Ip, s: Ndp, t: Ndp, steps: seq<Step>, shut: bool, budget: int, timers: int) {
    && Firings(steps) <= timers && (ip !in t.cache ==> Gone(t, ip) && NoStrays(t, ip))
    && Sent(t.log, ip) <= Sent(s.log, ip) + budget
    && (ip !in t.cache && !shut && NeverShut(steps) ==> Sent(t.log, ip) == Sent(s.log, ip) + budget)
  }

  lemma CleanTerminates(
    c: NudConfig, ip: Ip, s: Ndp, shut: bool, ss: seq<Ndp>, steps: seq<Step>, after: nat, budget: int, timers: int)
    requires Sized(c) && c.retry <= 254 && Idle(s, c, ip) && Unencumbered(s, c, ip)
    requires after == GroupsAfter(s.cache[ip].nudGroup, c)
    requires budget == Mul(after + 1, c.attempts) && timers == Mul(after, c.attempts + 1) + c.attempts
    requires Trace(c, ip, ss, steps) && Unanswered(steps) && ss[0] == StartNud(s, c, shut, ip)
    ensures var t := ss[|steps|]; InGroup(t, c, ip) || Between(t, c, ip) || Gone(t, ip)
    ensures ip !in ss[|steps|].cache <==> Firings(steps) == timers
    ensures Cleanly(ip, s, ss[|steps|], steps, shut, budget, timers)
  {
    NudRun(c, ip, s, shut, ss, steps, after);
    AccountsSay(s, ss[|steps|], c, ip, shut || !NeverShut(steps), budget, timers - Firings(steps));
  }

  /** Probing goes on; callbacks are left over only if there are no attempts to make. */
  predicate GoesOn(s: Ndp, c: NudConfig, ip: Ip) {
    (InGroup(s, c, ip) || Between(s, c, ip)) && (c.attempts > 0 ==> NoStrays(s, ip))
  }

  /** With NUD_RETRY at 255 the 8-bit group never exceeds it: the neighbor is probed for ever. */
  lemma {:induction false} NudForever(c: NudConfig, ip: Ip, ss: seq<Ndp>, steps: seq<Step>)
    requires Sized(c) && c.retry == 255 && Trace(c, ip, ss, steps) && Unanswered(steps) && GoesOn(ss[0], c, ip)
    ensures GoesOn(ss[|steps|], c, ip)
    decreases |steps|
  {
    if steps != [] {
      var n := |steps| - 1;
      NudForever(c, ip, ss[..n + 1], steps[..n]);
      assert Moves(c, ip)(ss[n], steps[n], ss[n + 1]);
      ForeverStep(c, ip, ss[n], steps[n], ss[n + 1]);
    }
  }

  /** It is so from the start. */
  lemma ForeverStart(c: NudConfig, ip: Ip, s: Ndp, shut: bool)
    requires Sized(c) && c.retry == 255 && Idle(s, c, ip)
    ensures GoesOn(StartNud(s, c, shut, ip), c, ip)
  {
    if c.attempts > 0 { SolicitReady(Probed(s, ip), c, shut, ip); } else { ZeroStart(c, ip, s, shut); }
  }

  lemma ForeverWait(c: NudConfig, ip: Ip, s: Ndp, shut: bool)
    requires Sized(c) && c.retry == 255 && Between(s, c, ip) && GoesOn(s, c, ip)
    ensures GoesOn(RetryNud(s, c, shut, ip), c, ip)
  {
    NextGroupIs(c, ip, s, shut);
    if 0 < c.attempts { SolicitReady(NextGroup(s, ip), c, shut, ip); }
  }

  lemma ForeverRetry(c: NudConfig, ip: Ip, s: Ndp, shut: bool)
    requires Sized(c) && c.retry == 255 && InGroup(s, c, ip) && NoStrays(s, ip)
    ensures GoesOn(NsTimer(s, c, shut, ip), c, ip)
  {
    var s1 := s.(nsRetryTimers := s.nsRetryTimers - {ip});
    if s1.nsRetryCount[ip] < c.attempts { SolicitReady(s1, c, shut, ip); } else { ExhaustedReady(s1, c, ip); }
  }

  lemma ForeverStray(c: NudConfig, ip: Ip, s: Ndp, shut: bool)
    requires c.attempts == 0 && Between(s, c, ip)
    ensures Between(StrayTimer(s, c, shut, ip), c, ip)
  {
  }

  lemma ForeverStep(c: NudConfig, ip: Ip, s: Ndp, step: Step, t: Ndp)
    requires Sized(c) && c.retry == 255 && GoesOn(s, c, ip) && Next(c, ip, s, step, t) && !step.Answer?
    ensures GoesOn(t, c, ip)
  {
    match step {
      case Retry(shut) => ForeverRetry(c, ip, s, shut);
      case Wait(shut) => ForeverWait(c, ip, s, shut);
      case Late(shut) => ForeverWait(c, ip, Overtaken(s, ip), shut);
      case Stray(shut) => ForeverStray(c, ip, s, shut);
      case _ =>
    }
  }
}
