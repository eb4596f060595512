/**
  The timers behind the ARP cache, and when a static entry is lost (Arp.cpp:99-120, 149-184, 396-437).
  An entry records the id of its request timer and of its expiry timer.  `addStaticArpEntry` and
  `removeStaticArpEntry` drop the entry without cancelling them, and a request callback forgets the id
  recorded in the entry it finds; such callbacks still fire.
 */
module ArpTimers {
  import opened Collections
  import opened Arp

  /** `requests` and `expiries` count the callbacks that no entry records. */
  datatype Timed = Timed(s: State, requests: multiset<Ip>, expiries: multiset<Ip>)

  function One(b: bool, ip: Ip): multiset<Ip> { if b then multiset{ip} else multiset{} }

  predicate Asking(s: State, ip: Ip) { ip in s.cache && s.cache[ip].requestTimer != 0 }

  predicate Expiring(s: State, ip: Ip) { ip in s.cache && s.cache[ip].expireTimer != 0 }

  function StaticAdded(t: Timed, ip: Ip, mac: Mac): Timed {
    Timed(AddStatic(t.s, ip, mac), t.requests + One(Asking(t.s, ip), ip), t.expiries + One(Expiring(t.s, ip), ip))
  }

  /** A request or renewal callback.  Requests are sent only if `on`: the service runs and routing is enabled. */
  function RequestFires(t: Timed, c: Config, on: bool, recorded: bool, ip: Ip, timer: nat): Timed {
    var others := if recorded then t.requests else t.requests - multiset{ip} + One(Asking(t.s, ip), ip);
    t.(s := TimerFires(t.s, c, on, ip, timer), requests := others)
  }

  /** An expiry callback, which cancels what the entry it finds records. */
  function ExpiryFires(t: Timed, recorded: bool, ip: Ip): Timed {
    t.(s := Remove(t.s, ip), expiries := if recorded then t.expiries else t.expiries - multiset{ip})
  }

  // ---------------------------------------------------------------------
  // Runs of one address
  // ---------------------------------------------------------------------

  /**
    What else happens, packets for the address and replies that it ignores included, leaves its entry
    and timers alone.
   */
  ghost predicate SameAt(t: Timed, u: Timed, ip: Ip) {
    && (ip in u.s.cache <==> ip in t.s.cache) && (ip in t.s.cache ==> u.s.cache[ip] == t.s.cache[ip])
    && Lookup(u.s, ip) == Lookup(t.s, ip)
    && u.requests[ip] == t.requests[ip] && u.expiries[ip] == t.expiries[ip]
  }

  datatype Step = Asks(on: bool, recorded: bool, timer: nat) | Expires(recorded: bool) | Elsewhere

  ghost predicate Next(c: Config, ip: Ip, t: Timed, step: Step, u: Timed) {
    match step
    case Asks(on, recorded, timer) =>
      && (if recorded then Asking(t.s, ip) else t.requests[ip] > 0) && (on ==> t.s.running)
      && u == RequestFires(t, c, on, recorded, ip, timer)
    case Expires(recorded) =>
      (if recorded then Expiring(t.s, ip) else t.expiries[ip] > 0) && u == ExpiryFires(t, recorded, ip)
    case Elsewhere => SameAt(t, u, ip)
  }

  ghost function Moves(c: Config, ip: Ip): (Timed, Step, Timed) -> bool { (t, step, u) => Next(c, ip, t, step, u) }

  ghost predicate Trace(c: Config, ip: Ip, ts: seq<Timed>, steps: seq<Step>) { Chain(Moves(c, ip), ts, steps) }

  /** Probes of the address, and ends of its life time. */
  function Probes(steps: seq<Step>): nat {
    if steps == [] then 0
    else
      var last := steps[|steps| - 1];
      Probes(steps[..|steps| - 1]) + if last.Asks? && last.on then 1 else 0
  }

  predicate NeverExpires(steps: seq<Step>) {
    steps == [] || (NeverExpires(steps[..|steps| - 1]) && !steps[|steps| - 1].Expires?)
  }

  // ---------------------------------------------------------------------
  // A static entry
  // ---------------------------------------------------------------------

  /** The entry is there at its MAC, without a recorded expiry, after n probes. */
  ghost predicate Stands(t: Timed, ip: Ip, mac: Mac, n: nat) {
    && ip in t.s.cache && t.s.cache[ip].complete && t.s.cache[ip].mac == mac && t.s.cache[ip].expireTimer == 0
    && t.s.cache[ip].retries == n && Lookup(t.s, ip) == Some(mac)
  }

  ghost predicate Fallen(t: Timed, ip: Ip) { ip !in t.s.cache && Lookup(t.s, ip) == None }

  ghost predicate StandsOrFalls(c: Config, ip: Ip, mac: Mac, t: Timed, lives: bool, n: nat) {
    if lives && n <= c.probes then Stands(t, ip, mac, n) else Fallen(t, ip)
  }

  lemma StandsStep(c: Config, ip: Ip, mac: Mac, t: Timed, step: Step, u: Timed, n: nat)
    requires Configured(c) && Stands(t, ip, mac, n) && n <= c.probes && Next(c, ip, t, step, u)
    ensures if step.Expires? || (step.Asks? && step.on && n == c.probes) then Fallen(u, ip)
            else Stands(u, ip, mac, if step.Asks? && step.on then n + 1 else n)
  {
  }

  lemma FallenStep(c: Config, ip: Ip, t: Timed, step: Step, u: Timed)
    requires Fallen(t, ip) && Next(c, ip, t, step, u)
    ensures Fallen(u, ip)
  {
  }

  /**
    In every run in which nobody completes or removes it by hand, a static entry is there as long as no
    expiry callback has fired and at most PROBE_COUNT request callbacks have sent a probe, and no longer.
   */
  lemma {:induction false} StaticRun(c: Config, ip: Ip, mac: Mac, ts: seq<Timed>, steps: seq<Step>)
    requires Configured(c) && Trace(c, ip, ts, steps) && Stands(ts[0], ip, mac, 0)
    ensures StandsOrFalls(c, ip, mac, ts[|steps|], NeverExpires(steps), Probes(steps))
    decreases |steps|
  {
    if steps != [] {
      var n := |steps| - 1;
      StaticRun(c, ip, mac, ts[..n + 1], steps[..n]);
      var t, step, u := ts[n], steps[n], ts[n + 1];
      assert Moves(c, ip)(t, step, u);
      StandsOrFallsStep(c, ip, mac, t, step, u, NeverExpires(steps[..n]), Probes(steps[..n]));
    }
  }

  lemma StandsOrFallsStep(c: Config, ip: Ip, mac: Mac, t: Timed, step: Step, u: Timed, lives: bool, n: nat)
    requires Configured(c) && StandsOrFalls(c, ip, mac, t, lives, n) && Next(c, ip, t, step, u)
    ensures StandsOrFalls(c, ip, mac, u, lives && !step.Expires?, n + if step.Asks? && step.on then 1 else 0)
  {
    if lives && n <= c.probes { StandsStep(c, ip, mac, t, step, u, n); } else { FallenStep(c, ip, t, step, u); }
  }

  /** Callbacks for the address that can still fire. */
  predicate Pending(t: Timed, ip: Ip) {
    Asking(t.s, ip) || Expiring(t.s, ip) || t.requests[ip] > 0 || t.expiries[ip] > 0
  }

  lemma NoneFiresStep(c: Config, ip: Ip, t: Timed, step: Step, u: Timed)
    requires Next(c, ip, t, step, u) && !Pending(t, ip)
    ensures step.Elsewhere? && !Pending(u, ip)
  {
  }

  lemma {:induction false} NoneFires(c: Config, ip: Ip, ts: seq<Timed>, steps: seq<Step>)
    requires Trace(c, ip, ts, steps) && !Pending(ts[0], ip)
    ensures !Pending(ts[|steps|], ip) && NeverExpires(steps) && Probes(steps) == 0
    decreases |steps|
  {
    if steps != [] {
      var n := |steps| - 1;
      NoneFires(c, ip, ts[..n + 1], steps[..n]);
      assert Moves(c, ip)(ts[n], steps[n], ts[n + 1]);
      NoneFiresStep(c, ip, ts[n], steps[n], ts[n + 1]);
    }
  }

  /** A run of n further probes, each by the callback that the one before it has left. */
  lemma {:induction false} ProbeRun(c: Config, ip: Ip, mac: Mac, t: Timed, n: nat)
    returns (ts: seq<Timed>, steps: seq<Step>)
    requires Configured(c) && t.s.running && Stands(t, ip, mac, n) && n <= c.probes
    requires Asking(t.s, ip) || t.requests[ip] > 0
    ensures Trace(c, ip, ts, steps) && ts[0] == t && Fallen(ts[|steps|], ip)
    decreases c.probes - n
  {
    var step := Asks(true, Asking(t.s, ip), 1);
    var u := RequestFires(t, c, true, Asking(t.s, ip), ip, 1);
    StandsStep(c, ip, mac, t, step, u, n);
    if n < c.probes {
      ts, steps := ProbeRun(c, ip, mac, u, n + 1);
    } else {
      ts, steps := [u], [];
    }
    ChainCons(Moves(c, ip), t, step, ts, steps);
    ts, steps := [t] + ts, [step] + steps;
  }

  /** Some run in which nobody completes or removes it by hand loses the static entry. */
  ghost predicate CanLose(c: Config, ip: Ip, t: Timed, mac: Mac) {
    exists ts: seq<Timed>, steps: seq<Step> ::
      Trace(c, ip, ts, steps) && ts[0] == StaticAdded(t, ip, mac) && ip !in ts[|steps|].s.cache
  }

  /** A static entry is safe if and only if no callback for its address was pending when it was added. */
  lemma StaticSafeIff(c: Config, ip: Ip, t: Timed, mac: Mac)
    requires Configured(c)
    ensures CanLose(c, ip, t, mac) <==> Pending(t, ip)
  {
    var a := StaticAdded(t, ip, mac);
    assert Stands(a, ip, mac, 0);
    if Pending(t, ip) {
      var ts, steps := LosingRun(c, ip, mac, a);
    } else if CanLose(c, ip, t, mac) {
      var ts: seq<Timed>, steps: seq<Step> :| Trace(c, ip, ts, steps) && ts[0] == a && ip !in ts[|steps|].s.cache;
      NoneFires(c, ip, ts, steps);
      StaticRun(c, ip, mac, ts, steps);
    }
  }

  lemma LosingRun(c: Config, ip: Ip, mac: Mac, a: Timed) returns (ts: seq<Timed>, steps: seq<Step>)
    requires Configured(c) && Stands(a, ip, mac, 0) && (a.requests[ip] > 0 || a.expiries[ip] > 0)
    ensures Trace(c, ip, ts, steps) && ts[0] == a && ip !in ts[|steps|].s.cache
  {
    if a.expiries[ip] > 0 {
      ts, steps := [a, ExpiryFires(a, false, ip)], [Expires(false)];
    } else {
      var b := a.(s := a.s.(running := true));
      ts, steps := ProbeRun(c, ip, mac, b, 0);
      ChainCons(Moves(c, ip), a, Elsewhere, ts, steps);
      ts, steps := [a] + ts, [Elsewhere] + steps;
    }
  }
}
