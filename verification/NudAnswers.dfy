/**
  When a neighbor that has answered is lost again (Ndp.cpp:148-177, 316-416): completing an entry cancels
  no retry callback, and outside probing each callback counts on up to NUD_RETRY and then removes the entry.
 */
module NudAnswers {
  import opened Collections
  import opened Nud
  import opened NudProbing

  /** A neighbor outside probing. */
  predicate Settled(s: Ndp, ip: Ip) { ip in s.cache && !RunningNud(s, ip) && !s.cache[ip].retryTimer }

  /** The retry callbacks of a neighbor that can still fire, recorded or not. */
  function Callbacks(s: Ndp, ip: Ip): nat { s.loose[ip] + if ip in s.nsRetryTimers then 1 else 0 }

  predicate Doomed(s: Ndp, ip: Ip) { Settled(s, ip) && Callbacks(s, ip) > 0 }

  /** Removed; the last callback has forgotten the attempts as well. */
  predicate Removed(s: Ndp, ip: Ip) { Lost(s, ip) && (Callbacks(s, ip) == 0 ==> Gone(s, ip)) }

  predicate Strike(step: Step) { step.Retry? || step.Stray? }

  function Strikes(steps: seq<Step>): nat {
    if steps == [] then 0 else Strikes(steps[..|steps| - 1]) + if Strike(steps[|steps| - 1]) then 1 else 0
  }

  /** How often retry callbacks of a settled neighbor fire before one removes it: the rest of one round. */
  function FirstLoss(s: Ndp, c: NudConfig, ip: Ip): nat {
    (if Attempt(s, ip) < c.retry then c.retry - Attempt(s, ip) else 0) + 1
  }

  /** How often they fire before none is left: a round of NUD_RETRY + 1 for every further callback. */
  function StrikesLeft(s: Ndp, c: NudConfig, ip: Ip): nat {
    if Callbacks(s, ip) == 0 then 0 else Mul(Callbacks(s, ip) - 1, c.retry + 1) + FirstLoss(s, c, ip)
  }

  // ---------------------------------------------------------------------
  // One step
  // ---------------------------------------------------------------------

  /** A callback has just fired: s is what it leaves when it schedules. */
  lemma StrikeSchedules(s: Ndp, c: NudConfig, shut: bool, ip: Ip)
    requires Sized(c) && (Settled(s, ip) || Lost(s, ip)) && ip !in s.nsRetryTimers
    ensures var t := ScheduleNs(s, c, shut, ip);
            if Attempt(s, ip) < c.retry
            then && Callbacks(t, ip) == Callbacks(s, ip) + 1 && Attempt(t, ip) == Attempt(s, ip) + 1
                 && (Settled(s, ip) ==> Settled(t, ip)) && (Lost(s, ip) ==> Lost(t, ip))
            else Callbacks(t, ip) == Callbacks(s, ip) && Attempt(t, ip) == 0 && Gone(t, ip)
  {
  }

  /** What one firing does: one attempt more, or the end of this callback and of the entry. */
  ghost predicate Struck(c: NudConfig, ip: Ip, s: Ndp, t: Ndp) {
    if Attempt(s, ip) < c.retry
    then && Callbacks(t, ip) == Callbacks(s, ip) && Attempt(t, ip) == Attempt(s, ip) + 1
         && (Settled(s, ip) ==> Settled(t, ip)) && (Lost(s, ip) ==> Lost(t, ip))
    else Callbacks(t, ip) == Callbacks(s, ip) - 1 && Attempt(t, ip) == 0 && Gone(t, ip)
  }

  lemma RetryStrikes(c: NudConfig, ip: Ip, s: Ndp, shut: bool)
    requires Sized(c) && (Settled(s, ip) || Lost(s, ip)) && ip in s.nsRetryTimers
    ensures Struck(c, ip, s, NsTimer(s, c, shut, ip))
  {
    StrikeSchedules(s.(nsRetryTimers := s.nsRetryTimers - {ip}), c, shut, ip);
  }

  lemma StrayStrikes(c: NudConfig, ip: Ip, s: Ndp, shut: bool)
    requires Sized(c) && (Settled(s, ip) || Lost(s, ip)) && s.loose[ip] > 0
    ensures Struck(c, ip, s, StrayTimer(s, c, shut, ip))
  {
    var s1 := Unkey(s.(loose := s.loose - multiset{ip}), ip);
    assert Callbacks(s1, ip) == Callbacks(s, ip) - 1;
    StrikeSchedules(s1, c, shut, ip);
  }

  lemma StrikeKeeps(c: NudConfig, ip: Ip, s: Ndp, step: Step, t: Ndp)
    requires Sized(c) && (Settled(s, ip) || Lost(s, ip)) && Strike(step) && Next(c, ip, s, step, t)
    ensures Callbacks(s, ip) > 0 && Struck(c, ip, s, t)
  {
    match step
    case Retry(shut) => RetryStrikes(c, ip, s, shut);
    case Stray(shut) => StrayStrikes(c, ip, s, shut);
  }

  lemma StrikeCounts(c: NudConfig, ip: Ip, s: Ndp, t: Ndp)
    requires (Settled(s, ip) || Removed(s, ip)) && Callbacks(s, ip) > 0 && Struck(c, ip, s, t)
    ensures Settled(t, ip) || Removed(t, ip)
    ensures StrikesLeft(s, c, ip) > 0 && StrikesLeft(t, c, ip) == StrikesLeft(s, c, ip) - 1
    ensures Settled(s, ip) ==> (Settled(t, ip) <==> FirstLoss(s, c, ip) > 1)
    ensures Settled(t, ip) ==> FirstLoss(t, c, ip) == FirstLoss(s, c, ip) - 1
    ensures Removed(s, ip) ==> Removed(t, ip)
  {
  }

  /** Everything else leaves the callbacks and the attempt alone. */
  lemma OtherKeeps(c: NudConfig, ip: Ip, s: Ndp, step: Step, t: Ndp)
    requires (Settled(s, ip) || Removed(s, ip)) && !Strike(step) && Next(c, ip, s, step, t)
    ensures Callbacks(t, ip) == Callbacks(s, ip) && Attempt(t, ip) == Attempt(s, ip)
    ensures (Settled(s, ip) ==> Settled(t, ip)) && (Removed(s, ip) ==> Removed(t, ip))
  {
  }

  // ---------------------------------------------------------------------
  // Whole runs
  // ---------------------------------------------------------------------

  /** Where a settled neighbor s stands after n firings of its retry callbacks. */
  ghost predicate After(c: NudConfig, ip: Ip, s: Ndp, t: Ndp, n: nat) {
    && (if n < FirstLoss(s, c, ip) then Settled(t, ip) && FirstLoss(t, c, ip) == FirstLoss(s, c, ip) - n
        else Removed(t, ip))
    && n <= StrikesLeft(s, c, ip) && StrikesLeft(t, c, ip) == StrikesLeft(s, c, ip) - n
  }

  lemma AfterStep(c: NudConfig, ip: Ip, s0: Ndp, s: Ndp, step: Step, t: Ndp, n: nat)
    requires Sized(c) && After(c, ip, s0, s, n) && Next(c, ip, s, step, t)
    ensures After(c, ip, s0, t, n + if Strike(step) then 1 else 0)
  {
    if Strike(step) {
      StrikeKeeps(c, ip, s, step, t);
      AfterStrike(c, ip, s0, s, t, n);
    } else {
      OtherKeeps(c, ip, s, step, t);
    }
  }

  lemma AfterStrike(c: NudConfig, ip: Ip, s0: Ndp, s: Ndp, t: Ndp, n: nat)
    requires After(c, ip, s0, s, n) && Callbacks(s, ip) > 0 && Struck(c, ip, s, t)
    ensures After(c, ip, s0, t, n + 1)
  {
    StrikeCounts(c, ip, s, t);
  }

  /**
    A settled neighbor, in every run without a new probe, whatever else happens to it and to others,
    further answers included: its retry callbacks remove it at exactly their max(0, NUD_RETRY - attempt)
    + 1st firing, and fall silent after a round of NUD_RETRY + 1 firings for every further one of them.
   */
  lemma {:induction false} AnsweredRun(c: NudConfig, ip: Ip, ss: seq<Ndp>, steps: seq<Step>)
    requires Sized(c) && Trace(c, ip, ss, steps) && Settled(ss[0], ip)
    ensures After(c, ip, ss[0], ss[|steps|], Strikes(steps))
    decreases |steps|
  {
    if steps != [] {
      var n := |steps| - 1;
      var ss', steps' := ss[..n + 1], steps[..n];
      AnsweredRun(c, ip, ss', steps');
      assert ss'[|steps'|] == ss[n] && ss'[0] == ss[0];
      var s, step, t := ss[n], steps[n], ss[n + 1];
      assert Moves(c, ip)(s, step, t);
      AfterStep(c, ip, ss[0], s, step, t, Strikes(steps'));
    } else {
      AfterNone(c, ip, ss[0]);
    }
  }

  lemma AfterNone(c: NudConfig, ip: Ip, s: Ndp)
    requires Settled(s, ip)
    ensures After(c, ip, s, s, 0)
  {
  }

  /** Without a retry callback it stays, in every run without a new probe. */
  lemma SafeRun(c: NudConfig, ip: Ip, ss: seq<Ndp>, steps: seq<Step>)
    requires Sized(c) && Trace(c, ip, ss, steps) && Settled(ss[0], ip) && Callbacks(ss[0], ip) == 0
    ensures Settled(ss[|steps|], ip) && Callbacks(ss[|steps|], ip) == 0
  {
    AnsweredRun(c, ip, ss, steps);
  }

  /** The run in which nothing but its retry callbacks fires, a recorded one first. */
  lemma {:induction false} RemovalRun(c: NudConfig, ip: Ip, s: Ndp) returns (ss: seq<Ndp>, steps: seq<Step>)
    requires Sized(c) && Doomed(s, ip)
    ensures Trace(c, ip, ss, steps) && ss[0] == s && Removed(ss[|steps|], ip) && |steps| == FirstLoss(s, c, ip)
    ensures forall i :: 0 <= i < |steps| ==> steps[i] == Retry(false) || steps[i] == Stray(false)
    ensures StrikesLeft(ss[|steps|], c, ip) == StrikesLeft(s, c, ip) - |steps|
    decreases FirstLoss(s, c, ip)
  {
    var step := if ip in s.nsRetryTimers then Retry(false) else Stray(false);
    var t := if ip in s.nsRetryTimers then NsTimer(s, c, false, ip) else StrayTimer(s, c, false, ip);
    StrikeKeeps(c, ip, s, step, t);
    StrikeCounts(c, ip, s, t);
    if Settled(t, ip) {
      ss, steps := RemovalRun(c, ip, t);
    } else {
      ss, steps := [t], [];
    }
    ChainCons(Moves(c, ip), s, step, ss, steps);
    ss, steps := [s] + ss, [step] + steps;
  }

  // ---------------------------------------------------------------------
  // When an answer is safe
  // ---------------------------------------------------------------------

  /** Some run without a new probe loses the neighbor after it has answered. */
  ghost predicate CanLose(c: NudConfig, ip: Ip, s: Ndp, mac: Mac)
    requires ip in s.cache
  {
    exists ss: seq<Ndp>, steps: seq<Step> ::
      Trace(c, ip, ss, steps) && ss[0] == Answered(s, ip, mac) && ip !in ss[|steps|].cache
  }

  /**
    An answer is safe if and only if no retry callback of the neighbor, recorded or not, is pending
    when it arrives.
   */
  lemma AnswerSafeIff(c: NudConfig, ip: Ip, s: Ndp, mac: Mac)
    requires Sized(c) && ip in s.cache
    ensures CanLose(c, ip, s, mac) <==> ip in s.nsRetryTimers || s.loose[ip] > 0
  {
    var a := Answered(s, ip, mac);
    if ip in s.nsRetryTimers || s.loose[ip] > 0 {
      var ss, steps := RemovalRun(c, ip, a);
    } else if CanLose(c, ip, s, mac) {
      var ss: seq<Ndp>, steps: seq<Step> :| Trace(c, ip, ss, steps) && ss[0] == a && ip !in ss[|steps|].cache;
      SafeRun(c, ip, ss, steps);
    }
  }

  /** So an answer inside a group of probes can be lost, and one between two groups exactly if a callback is loose. */
  lemma ProbeAnswers(c: NudConfig, ip: Ip, s: Ndp, mac: Mac)
    requires Sized(c) && (InGroup(s, c, ip) || Between(s, c, ip))
    ensures CanLose(c, ip, s, mac) <==> InGroup(s, c, ip) || s.loose[ip] > 0
  {
    AnswerSafeIff(c, ip, s, mac);
  }

  /**
    In every reachable state, if NUD_RETRY_ATTEMPTS is not 0: an answer can be lost exactly if its retry
    timer is recorded.  So one inside a group of probes can, and one between two groups cannot.
   */
  lemma ReachableAnswers(c: NudConfig, ip: Ip, ss: seq<Ndp>, es: seq<Event>, mac: Mac)
    requires Sized(c) && c.attempts > 0 && Run(c, ss, es) && ip in ss[|es|].cache
    ensures CanLose(c, ip, ss[|es|], mac) <==> ip in ss[|es|].nsRetryTimers
    ensures InGroup(ss[|es|], c, ip) ==> CanLose(c, ip, ss[|es|], mac)
    ensures Between(ss[|es|], c, ip) ==> !CanLose(c, ip, ss[|es|], mac)
  {
    RunInv(c, ss, es);
    assert NoStrays(ss[|es|], ip);
    AnswerSafeIff(c, ip, ss[|es|], mac);
  }

  /**
    With NUD_RETRY_ATTEMPTS at 0 there is no inside: probing is between groups at once, the recorded
    timer it found is no longer recorded, and an answer can be lost exactly if a callback was pending
    when probing began.
   */
  lemma ZeroAnswers(c: NudConfig, ip: Ip, s: Ndp, shut: bool, mac: Mac)
    requires Sized(c) && c.attempts == 0 && Idle(s, c, ip) && s.cache[ip].nudGroup <= c.retry
    ensures var t := StartNud(s, c, shut, ip);
            Between(t, c, ip) && (CanLose(c, ip, t, mac) <==> ip in s.nsRetryTimers || s.loose[ip] > 0)
  {
    AnswerSafeIff(c, ip, StartNud(s, c, shut, ip), mac);
  }

  // ---------------------------------------------------------------------
  // Two runs from an empty cache
  // ---------------------------------------------------------------------

  lemma FirstResolution(c: NudConfig, ip: Ip, p: Packet, s: Ndp)
    requires Sized(c) && c.retry > 0 && s == Resolve(Empty(), c, false, ip, p)
    ensures ip in s.cache && s.cache[ip] == Neighbor(0, ACTIVE, false, 1) && Attempt(s, ip) == 1
    ensures s.nsRetryTimers == {ip} && s.loose == multiset{}
  {
  }

  /**
    A first resolution with the default settings: packet, solicitation, answer, and three firings of the
    timer left running.
   */
  lemma AnsweredYetRemoved(ip: Ip, p: Packet, mac: Mac) returns (ss: seq<Ndp>, steps: seq<Step>)
    ensures var c := NudConfig(3, 3, 8);
            var s := Resolve(Empty(), c, false, ip, p);
            && ip in s.cache && Trace(c, ip, ss, steps) && ss[0] == Answered(s, ip, mac)
            && ip in ss[0].table && ss[0].table[ip] == mac
            && |steps| == 3 && Gone(ss[3], ip) && Callbacks(ss[3], ip) == 0
  {
    var c := NudConfig(3, 3, 8);
    var s := Resolve(Empty(), c, false, ip, p);
    FirstResolution(c, ip, p, s);
    var a := Answered(s, ip, mac);
    assert Doomed(a, ip) && FirstLoss(a, c, ip) == 3 && StrikesLeft(a, c, ip) == 3;
    ss, steps := RemovalRun(c, ip, a);
  }

  /** The first answer, the end of the reachable time, and a probe without attempts. */
  function ProbedAgain(c: NudConfig, ip: Ip, p: Packet, mac: Mac): Ndp {
    var s := Resolve(Empty(), c, false, ip, p);
    if ip !in s.cache then s else StartNud(Aged(Answered(s, ip, mac), ip), c, false, ip)
  }

  /**
    With NUD_RETRY_ATTEMPTS at 0: the neighbor answers a probe between two groups, when no retry timer is
    recorded, and is removed by the callback that the probe left without its record.
   */
  lemma AnsweredBetweenYetRemoved(ip: Ip, p: Packet, mac: Mac) returns (ss: seq<Ndp>, steps: seq<Step>)
    ensures var c := NudConfig(3, 0, 8);
            var s := ProbedAgain(c, ip, p, mac);
            && Between(s, c, ip) && ip !in s.nsRetryTimers && Trace(c, ip, ss, steps)
            && ss[0] == Answered(s, ip, mac) && |steps| == 4 && Gone(ss[4], ip)
  {
    var c := NudConfig(3, 0, 8);
    var r := Resolve(Empty(), c, false, ip, p);
    FirstResolution(c, ip, p, r);
    var s := ProbedAgain(c, ip, p, mac);
    var a := Answered(s, ip, mac);
    assert Doomed(a, ip) && Callbacks(a, ip) == 1 && FirstLoss(a, c, ip) == 4 && StrikesLeft(a, c, ip) == 4;
    ss, steps := RemovalRun(c, ip, a);
  }
}
