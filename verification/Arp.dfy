/**
  The ARP cache of an interface and its data-plane table (Arp.cpp:70-184, 244-317, 364-437).
  Operations run one at a time on the interface's control queue; timer callbacks may come at any
  moment, also for timers that were cancelled or belong to an entry since replaced.  A timer id of 0
  means that the scheduler refused the timer.
 */
module Arp {
  import opened Collections

  type Ip = nat
  type Mac = nat
  type Packet = nat

  const Word: nat := 0x1_0000_0000
  const Broadcast: Mac := 0xFFFF_FFFF_FFFF

  datatype Config = Config(
    incomplete: bool, maxEntries: Option<nat>, queueLimit: nat, retry: nat, probes: nat, sticky: bool, gratuitous: bool)

  /** The limits are 32-bit and 8-bit numbers. */
  predicate Configured(c: Config) { c.retry < Word && c.probes < 256 }

  datatype Entry = Entry(queue: seq<Packet>, complete: bool, expireTimer: nat, requestTimer: nat, mac: Mac,
      retries: nat)

  function NewEntry(): Entry { Entry([], false, 0, 0, 0, 0) }

  /** Fresh: the entry was made or completed; GaveUp: it was removed for want of an answer. */
  datatype Event = Fresh(ip: Ip) | Request(ip: Ip) | GaveUp(ip: Ip, complete: bool) | Dispatch(packet: Packet, mac: Mac)

  datatype State = State(cache: map<Ip, Entry>, table: map<Ip, Mac>, order: seq<Ip>, incompletes: nat,
      running: bool, log: seq<Event>)

  // ---------------------------------------------------------------------
  // What each operation does
  // ---------------------------------------------------------------------

  function Without(order: seq<Ip>, ip: Ip): (r: seq<Ip>)
    ensures ip !in r && forall x :: x in order && x != ip ==> x in r
  {
    if order == [] then [] else (if order[0] == ip then [] else [order[0]]) + Without(order[1..], ip)
  }

  function Limit(c: Config, complete: bool): nat { if complete then c.probes else c.retry }

  function Remove(s: State, ip: Ip): State {
    s.(cache := s.cache - {ip}, table := s.table - {ip}, order := Without(s.order, ip))
  }

  function Put(s: State, ip: Ip, e: Entry): State { s.(cache := s.cache[ip := e]) }

  function Log(s: State, e: Event): State { s.(log := s.log + [e]) }

  function Schedule(s: State, c: Config, routing: bool, ip: Ip, timer: nat): State
    requires ip in s.cache
  {
    if !s.running || !routing then s
    else
      var e := s.cache[ip];
      var retries := (e.retries + 1) % Word;
      if retries > Limit(c, e.complete) then Log(Remove(s, ip), GaveUp(ip, e.complete))
      else Log(Put(s, ip, e.(retries := retries, requestTimer := timer)), Request(ip))
  }

  function Send(s: State, c: Config, routing: bool, ip: Ip, timer: nat): State
    requires ip in s.cache
  {
    if s.cache[ip].requestTimer != 0 then s else Schedule(s, c, routing, ip, timer)
  }

  /** The retry and the renewal callback. */
  function TimerFires(s: State, c: Config, routing: bool, ip: Ip, timer: nat): State {
    if ip !in s.cache then s
    else Schedule(Put(s, ip, s.cache[ip].(requestTimer := 0)), c, routing, ip, timer)
  }

  function Enqueue(e: Entry, c: Config, p: Packet): Entry {
    if |e.queue| < c.queueLimit then e.(queue := e.queue + [p]) else e
  }

  function Resolve(s: State, c: Config, routing: bool, ip: Ip, p: Packet, timer: nat): State {
    if !c.incomplete then s
    else if ip in s.cache then
      var e := s.cache[ip];
      if e.complete then Log(s, Dispatch(p, e.mac))
      else Send(Put(s, ip, Enqueue(e, c, p)), c, routing, ip, timer)
    else if c.maxEntries.Some? && s.incompletes >= c.maxEntries.value then s
    else Send(Admit(s, c, ip, p), c, routing, ip, timer)
  }

  /** A new, incomplete entry with its first packet. */
  function Admit(s: State, c: Config, ip: Ip, p: Packet): State {
    Log(Put(s, ip, Enqueue(NewEntry(), c, p)), Fresh(ip)).(order := s.order + [ip], incompletes := s.incompletes + 1)
  }

  function Dispatches(queue: seq<Packet>, mac: Mac): (r: seq<Event>)
    ensures |r| == |queue| && forall i :: 0 <= i < |r| ==> r[i] == Dispatch(queue[i], mac)
  {
    if queue == [] then [] else Dispatches(queue[..|queue| - 1], mac) + [Dispatch(queue[|queue| - 1], mac)]
  }

  lemma DispatchesStep(q: seq<Packet>, i: nat, mac: Mac)
    requires i < |q|
    ensures Dispatches(q[..i + 1], mac) == Dispatches(q[..i], mac) + [Dispatch(q[i], mac)]
  {
    assert q[..i + 1][..i] == q[..i];
  }

  function Complete(s: State, c: Config, ip: Ip, mac: Mac, renewTimer: nat, expireTimer: nat): State
    requires ip in s.cache
  {
    var e := s.cache[ip];
    if e.complete && c.sticky then s
    else
      var n := if !e.complete && s.incompletes != 0 then s.incompletes - 1 else s.incompletes;
      Completed(s, ip, Entry([], true, expireTimer, renewTimer, mac, 0), n, e.queue)
  }

  function Completed(s: State, ip: Ip, e: Entry, n: nat, queue: seq<Packet>): State {
    var s1 := Renewed(s, ip, e).(incompletes := n);
    s1.(log := s1.log + Dispatches(queue, e.mac))
  }

  /** A complete entry replaces whatever there was for ip. */
  function Renewed(s: State, ip: Ip, e: Entry): State {
    Log(Put(s, ip, e), Fresh(ip)).(table := s.table[ip := e.mac])
  }

  function Reply(s: State, c: Config, routing: bool, sender: Ip, target: Ip, mac: Mac, renewTimer: nat,
      expireTimer: nat): State {
    var garp := sender == target;
    if garp && (!c.gratuitous || !s.running || !routing || mac == Broadcast) then s
    else if sender in s.cache then Complete(s, c, sender, mac, renewTimer, expireTimer)
    else if garp then Complete(Put(s, sender, NewEntry()), c, sender, mac, renewTimer, expireTimer)
    else s
  }

  function AddStatic(s: State, ip: Ip, mac: Mac): State {
    Renewed(s, ip, Entry([], true, 0, 0, mac, 0)).(order := s.order + [ip])
  }

  function Clear(s: State): State { s.(cache := map[], table := map[], order := [], incompletes := 0) }

  datatype Op =
    | OpResolve(routing: bool, ip: Ip, packet: Packet, timer: nat)
    | OpReply(routing: bool, sender: Ip, target: Ip, mac: Mac, renewTimer: nat, expireTimer: nat)
    | OpAddStatic(ip: Ip, mac: Mac)
    | OpRemove(ip: Ip)                                   // removed by hand, or expired
    | OpTimer(routing: bool, ip: Ip, timer: nat)         // a retry or a renewal
    | OpClear
    | OpRunning(on: bool)

  function Apply(s: State, c: Config, op: Op): State {
    match op
    case OpResolve(routing, ip, p, timer) => Resolve(s, c, routing, ip, p, timer)
    case OpReply(routing, sender, target, mac, renew, expire) => Reply(s, c, routing, sender, target, mac, renew,
        expire)
    case OpAddStatic(ip, mac) => AddStatic(s, ip, mac)
    case OpRemove(ip) => Remove(s, ip)
    case OpTimer(routing, ip, timer) => TimerFires(s, c, routing, ip, timer)
    case OpClear => Clear(s)
    case OpRunning(on) => s.(running := on)
  }

  function Run(c: Config, ops: seq<Op>): State {
    if ops == [] then State(map[], map[], [], 0, false, [])
    else Apply(Run(c, ops[..|ops| - 1]), c, ops[|ops| - 1])
  }

  // ---------------------------------------------------------------------
  // Invariants
  // ---------------------------------------------------------------------

  /** The table is the COMPLETE part of the cache. */
  ghost predicate Agree(s: State) {
    forall ip :: if ip in s.cache && s.cache[ip].complete then ip in s.table && s.table[ip] == s.cache[ip].mac
        else ip !in s.table
  }

  predicate QueueOk(e: Entry, c: Config) { |e.queue| <= c.queueLimit && (e.complete ==> e.queue == []) }

  ghost predicate Queues(s: State, c: Config) { forall ip :: ip in s.cache ==> QueueOk(s.cache[ip], c) }

  /** Requests for ip since its entry was last made or completed. */
  function Since(log: seq<Event>, ip: Ip): nat {
    if log == [] then 0
    else
      var n := |log| - 1;
      if log[n] == Fresh(ip) then 0 else Since(log[..n], ip) + if log[n] == Request(ip) then 1 else 0
  }

  /** retries counts the requests, modulo 2^32, and below the largest limit exactly. */
  predicate CountOk(e: Entry, c: Config, sent: nat) {
    && e.retries == sent % Word
    && (Limit(c, e.complete) < Word - 1 ==> sent <= Limit(c, e.complete))
  }

  ghost predicate Counts(s: State, c: Config) {
    forall ip :: ip in s.cache ==> CountOk(s.cache[ip], c, Since(s.log, ip))
  }

  /** No entry was given up before, or after more than, the configured number of requests. */
  ghost predicate GaveUpOnTime(log: seq<Event>, c: Config) {
    forall i :: 0 <= i < |log| && log[i].GaveUp? ==> Since(log[..i], log[i].ip) == Limit(c, log[i].complete)
  }

  ghost predicate Inv(s: State, c: Config) { Agree(s) && Queues(s, c) && Counts(s, c) && GaveUpOnTime(s.log, c) }

  lemma SinceStep(log: seq<Event>, e: Event, ip: Ip)
    ensures Since(log + [e], ip) == if e == Fresh(ip) then 0 else Since(log, ip) + if e == Request(ip) then 1 else 0
  {
    assert (log + [e])[..|log|] == log;
  }

  lemma GaveUpStep(log: seq<Event>, e: Event, c: Config)
    requires GaveUpOnTime(log, c) && (e.GaveUp? ==> Since(log, e.ip) == Limit(c, e.complete))
    ensures GaveUpOnTime(log + [e], c)
  {
    var l := log + [e];
    forall i | 0 <= i < |l| && l[i].GaveUp? ensures Since(l[..i], l[i].ip) == Limit(c, l[i].complete) {
      assert l[..i] == log[..i];
      assert log[..|log|] == log;
    }
  }

  lemma {:induction false} SinceDispatches(log: seq<Event>, queue: seq<Packet>, mac: Mac, ip: Ip, c: Config)
    requires GaveUpOnTime(log, c)
    ensures Since(log + Dispatches(queue, mac), ip) == Since(log, ip)
    ensures GaveUpOnTime(log + Dispatches(queue, mac), c)
    decreases |queue|
  {
    if queue == [] {
      assert log + Dispatches(queue, mac) == log;
    } else {
      var q := queue[..|queue| - 1];
      var d := Dispatch(queue[|queue| - 1], mac);
      SinceDispatches(log, q, mac, ip, c);
      var l := log + Dispatches(q, mac);
      SinceStep(l, d, ip);
      GaveUpStep(l, d, c);
      assert log + Dispatches(queue, mac) == l + [d];
    }
  }

  // ---------------------------------------------------------------------
  // Every operation keeps them
  // ---------------------------------------------------------------------

  lemma RemoveInv(s: State, c: Config, ip: Ip)
    requires Inv(s, c)
    ensures Inv(Remove(s, ip), c)
  {
  }

  /** An entry may change its queue and timers. */
  lemma PutInv(s: State, c: Config, ip: Ip, e: Entry)
    requires Inv(s, c) && ip in s.cache && QueueOk(e, c)
    requires var o := s.cache[ip]; e.complete == o.complete && e.mac == o.mac && e.retries == o.retries
    ensures Inv(Put(s, ip, e), c)
  {
  }

  lemma RequestCounts(e: Entry, c: Config, sent: nat)
    requires Configured(c) && CountOk(e, c, sent)
    ensures var retries := (e.retries + 1) % Word;
            if retries > Limit(c, e.complete) then sent == Limit(c, e.complete)
                else CountOk(e.(retries := retries), c, sent + 1)
  {
    assert (sent % Word + 1) % Word == (sent + 1) % Word;
  }

  lemma LogInv(s: State, c: Config, e: Event)
    requires Inv(s, c) && e.Dispatch?
    ensures Inv(Log(s, e), c)
  {
    forall ip | ip in s.cache ensures Since(s.log + [e], ip) == Since(s.log, ip) { SinceStep(s.log, e, ip); }
    GaveUpStep(s.log, e, c);
  }

  lemma GiveUpInv(s: State, c: Config, ip: Ip, complete: bool)
    requires Inv(s, c) && Since(s.log, ip) == Limit(c, complete)
    ensures Inv(Log(Remove(s, ip), GaveUp(ip, complete)), c)
  {
    var e := GaveUp(ip, complete);
    RemoveInv(s, c, ip);
    forall x | x in s.cache ensures Since(s.log + [e], x) == Since(s.log, x) { SinceStep(s.log, e, x); }
    GaveUpStep(s.log, e, c);
  }

  lemma RequestInv(s: State, c: Config, ip: Ip, e: Entry)
    requires Inv(s, c) && ip in s.cache && QueueOk(e, c) && CountOk(e, c, Since(s.log, ip) + 1)
    requires e.complete == s.cache[ip].complete && e.mac == s.cache[ip].mac
    ensures Inv(Log(Put(s, ip, e), Request(ip)), c)
  {
    var t := Log(Put(s, ip, e), Request(ip));
    assert Agree(t) && Queues(t, c);
    RequestCountsAll(s, c, ip, e);
    GaveUpStep(s.log, Request(ip), c);
  }

  lemma RequestCountsAll(s: State, c: Config, ip: Ip, e: Entry)
    requires Counts(s, c) && CountOk(e, c, Since(s.log, ip) + 1)
    ensures Counts(Log(Put(s, ip, e), Request(ip)), c)
  {
    var t := Log(Put(s, ip, e), Request(ip));
    forall x | x in t.cache ensures CountOk(t.cache[x], c, Since(t.log, x)) {
      SinceStep(s.log, Request(ip), x);
      assert x != ip ==> CountOk(s.cache[x], c, Since(s.log, x));
    }
  }

  lemma GiveUpDue(s: State, c: Config, ip: Ip)
    requires Configured(c) && Inv(s, c) && ip in s.cache
    requires (s.cache[ip].retries + 1) % Word > Limit(c, s.cache[ip].complete)
    ensures Inv(Log(Remove(s, ip), GaveUp(ip, s.cache[ip].complete)), c)
  {
    RequestCounts(s.cache[ip], c, Since(s.log, ip));
    GiveUpInv(s, c, ip, s.cache[ip].complete);
  }

  lemma RequestDue(s: State, c: Config, ip: Ip, timer: nat)
    requires Configured(c) && Inv(s, c) && ip in s.cache
    requires (s.cache[ip].retries + 1) % Word <= Limit(c, s.cache[ip].complete)
    ensures var e := s.cache[ip];
            Inv(Log(Put(s, ip, e.(retries := (e.retries + 1) % Word, requestTimer := timer)), Request(ip)), c)
  {
    var e := s.cache[ip];
    RequestCounts(e, c, Since(s.log, ip));
    RequestInv(s, c, ip, e.(retries := (e.retries + 1) % Word, requestTimer := timer));
  }

  lemma ScheduleInv(s: State, c: Config, routing: bool, ip: Ip, timer: nat)
    requires Configured(c) && Inv(s, c) && ip in s.cache
    ensures Inv(Schedule(s, c, routing, ip, timer), c)
  {
    var e, t := s.cache[ip], Schedule(s, c, routing, ip, timer);
    if !s.running || !routing {
      assert t == s;
    } else if (e.retries + 1) % Word > Limit(c, e.complete) {
      GiveUpDue(s, c, ip);
      assert t == Log(Remove(s, ip), GaveUp(ip, e.complete));
    } else {
      RequestDue(s, c, ip, timer);
      assert t == Log(Put(s, ip, e.(retries := (e.retries + 1) % Word, requestTimer := timer)), Request(ip));
    }
  }

  lemma TimerInv(s: State, c: Config, routing: bool, ip: Ip, timer: nat)
    requires Configured(c) && Inv(s, c)
    ensures Inv(TimerFires(s, c, routing, ip, timer), c)
  {
    if ip in s.cache {
      var e := s.cache[ip].(requestTimer := 0);
      PutInv(s, c, ip, e);
      ScheduleInv(Put(s, ip, e), c, routing, ip, timer);
    }
  }

  /** A new or completed entry starts counting afresh. */
  lemma FreshInv(s: State, c: Config, ip: Ip, e: Entry)
    requires Inv(s, c) && QueueOk(e, c) && e.retries == 0
    ensures e.complete ==> Inv(Renewed(s, ip, e), c)
    ensures !e.complete && ip !in s.table ==> Inv(Log(Put(s, ip, e), Fresh(ip)), c)
  {
    FreshCounts(s.log, c, ip);
  }

  lemma FreshCounts(log: seq<Event>, c: Config, ip: Ip)
    requires GaveUpOnTime(log, c)
    ensures GaveUpOnTime(log + [Fresh(ip)], c)
    ensures forall x :: Since(log + [Fresh(ip)], x) == if x == ip then 0 else Since(log, x)
  {
    forall x ensures Since(log + [Fresh(ip)], x) == if x == ip then 0 else Since(log, x) {
      SinceStep(log, Fresh(ip), x);
    }
    GaveUpStep(log, Fresh(ip), c);
  }

  lemma OrderInv(s: State, c: Config, order: seq<Ip>, n: nat)
    requires Inv(s, c)
    ensures Inv(s.(order := order, incompletes := n), c)
  {
  }

  lemma SendInv(s: State, c: Config, routing: bool, ip: Ip, timer: nat)
    requires Configured(c) && Inv(s, c) && ip in s.cache
    ensures Inv(Send(s, c, routing, ip, timer), c)
  {
    ScheduleInv(s, c, routing, ip, timer);
  }

  lemma AdmitInv(s: State, c: Config, ip: Ip, p: Packet)
    requires Inv(s, c) && ip !in s.cache
    ensures Inv(Admit(s, c, ip, p), c)
  {
    var e := Enqueue(NewEntry(), c, p);
    FreshInv(s, c, ip, e);
    OrderInv(Log(Put(s, ip, e), Fresh(ip)), c, s.order + [ip], s.incompletes + 1);
  }

  lemma ResolveInv(s: State, c: Config, routing: bool, ip: Ip, p: Packet, timer: nat)
    requires Configured(c) && Inv(s, c)
    ensures Inv(Resolve(s, c, routing, ip, p, timer), c)
  {
    if ip !in s.cache {
      AdmitInv(s, c, ip, p);
      SendInv(Admit(s, c, ip, p), c, routing, ip, timer);
    } else if s.cache[ip].complete {
      LogInv(s, c, Dispatch(p, s.cache[ip].mac));
    } else {
      var e := Enqueue(s.cache[ip], c, p);
      PutInv(s, c, ip, e);
      SendInv(Put(s, ip, e), c, routing, ip, timer);
    }
  }

  lemma DispatchesInv(s: State, c: Config, queue: seq<Packet>, mac: Mac)
    requires Inv(s, c)
    ensures Inv(s.(log := s.log + Dispatches(queue, mac)), c)
  {
    forall ip ensures Since(s.log + Dispatches(queue, mac), ip) == Since(s.log, ip) {
      SinceDispatches(s.log, queue, mac, ip, c);
    }
    SinceDispatches(s.log, queue, mac, 0, c);
  }

  /** Completing the entry e of ip, which may be new. */
  lemma CompleteInv(s: State, c: Config, ip: Ip, e: Entry, mac: Mac, renewTimer: nat, expireTimer: nat)
    requires Inv(s, c) && e == (if ip in s.cache then s.cache[ip] else NewEntry())
    ensures Inv(Complete(Put(s, ip, e), c, ip, mac, renewTimer, expireTimer), c)
  {
    if e.complete && c.sticky {
      assert Put(s, ip, e) == s;
    } else {
      var e' := Entry([], true, expireTimer, renewTimer, mac, 0);
      var n := if !e.complete && s.incompletes != 0 then s.incompletes - 1 else s.incompletes;
      CompletedSame(s, ip, e, e', n);
      CompletedInv(s, c, ip, e', n, e.queue);
    }
  }

  lemma CompletedSame(s: State, ip: Ip, o: Entry, e: Entry, n: nat)
    ensures Completed(Put(s, ip, o), ip, e, n, o.queue) == Completed(s, ip, e, n, o.queue)
  {
    assert s.cache[ip := o][ip := e] == s.cache[ip := e];
  }

  lemma CompletedInv(s: State, c: Config, ip: Ip, e: Entry, n: nat, queue: seq<Packet>)
    requires Inv(s, c) && e.complete && QueueOk(e, c) && e.retries == 0
    ensures Inv(Completed(s, ip, e, n, queue), c)
  {
    FreshInv(s, c, ip, e);
    OrderInv(Renewed(s, ip, e), c, s.order, n);
    DispatchesInv(Renewed(s, ip, e).(incompletes := n), c, queue, e.mac);
  }

  lemma ReplyInv(
      s: State, c: Config, routing: bool, sender: Ip, target: Ip, mac: Mac, renewTimer: nat,
      expireTimer: nat)
    requires Configured(c) && Inv(s, c)
    ensures Inv(Reply(s, c, routing, sender, target, mac, renewTimer, expireTimer), c)
  {
    if sender in s.cache {
      assert Put(s, sender, s.cache[sender]) == s;
      CompleteInv(s, c, sender, s.cache[sender], mac, renewTimer, expireTimer);
    } else {
      CompleteInv(s, c, sender, NewEntry(), mac, renewTimer, expireTimer);
    }
  }

  lemma StepInv(s: State, c: Config, op: Op)
    requires Configured(c) && Inv(s, c)
    ensures Inv(Apply(s, c, op), c)
  {
    match op
    case OpResolve(routing, ip, p, timer) => ResolveInv(s, c, routing, ip, p, timer);
    case OpReply(routing, sender, target, mac, renew, expire) => ReplyInv(s, c, routing, sender, target, mac, renew,
        expire);
    case OpAddStatic(ip, mac) =>
      var e := Entry([], true, 0, 0, mac, 0);
      FreshInv(s, c, ip, e);
      OrderInv(Renewed(s, ip, e), c, s.order + [ip], s.incompletes);
    case OpRemove(ip) => RemoveInv(s, c, ip);
    case OpTimer(routing, ip, timer) => TimerInv(s, c, routing, ip, timer);
    case OpClear =>
    case OpRunning(on) =>
  }

  /**
    In every run the table is the COMPLETE part of the cache, queues stay within bounds, and entries
    are given up on time.
   */
  lemma {:induction false} RunInv(c: Config, ops: seq<Op>)
    requires Configured(c)
    ensures Inv(Run(c, ops), c)
  {
    if ops != [] {
      RunInv(c, ops[..|ops| - 1]);
      StepInv(Run(c, ops[..|ops| - 1]), c, ops[|ops| - 1]);
    }
  }

  /** What the data plane looks up is what the control plane holds as COMPLETE. */
  lemma LookupAgrees(c: Config, ops: seq<Op>, ip: Ip)
    requires Configured(c)
    ensures var s := Run(c, ops);
            && (ip in s.table <==> ip in s.cache && s.cache[ip].complete)
            && (ip in s.table ==> s.table[ip] == s.cache[ip].mac && s.cache[ip].queue == [])
            && (ip in s.cache ==> |s.cache[ip].queue| <= c.queueLimit)
  {
    RunInv(c, ops);
  }

  // ---------------------------------------------------------------------
  // An entry that is never answered
  // ---------------------------------------------------------------------

  /** The retry timer of ip fires again and again. */
  function Fires(s: State, c: Config, ip: Ip, timers: seq<nat>): State {
    if timers == [] then s
    else TimerFires(Fires(s, c, ip, timers[..|timers| - 1]), c, true, ip, timers[|timers| - 1])
  }

  function Requests(ip: Ip, n: nat): seq<Event> { if n == 0 then [] else Requests(ip, n - 1) + [Request(ip)] }

  lemma NextFiring(s: State, c: Config, ip: Ip, timer: nat)
    requires Configured(c) && s.running && ip in s.cache && !s.cache[ip].complete && s.cache[ip].retries < c.retry
    ensures var s' := TimerFires(s, c, true, ip, timer);
            && s'.running && ip in s'.cache && !s'.cache[ip].complete && s'.cache[ip].retries == s.cache[ip].retries + 1
            && s'.log == s.log + [Request(ip)]
  {
  }

  /** Up to the limit every firing sends one request. */
  lemma {:induction false} UnansweredRequests(s: State, c: Config, ip: Ip, timers: seq<nat>)
    requires Configured(c) && s.running && ip in s.cache && !s.cache[ip].complete
    requires s.cache[ip].retries + |timers| <= c.retry
    ensures var s' := Fires(s, c, ip, timers);
            && s'.running && ip in s'.cache && !s'.cache[ip].complete &&
               s'.cache[ip].retries == s.cache[ip].retries + |timers|
            && s'.log == s.log + Requests(ip, |timers|)
    decreases |timers|
  {
    if timers == [] {
      assert s.log + [] == s.log;
    } else {
      var n := |timers| - 1;
      UnansweredRequests(s, c, ip, timers[..n]);
      NextFiring(Fires(s, c, ip, timers[..n]), c, ip, timers[n]);
      assert s.log + Requests(ip, n + 1) == s.log + Requests(ip, n) + [Request(ip)];
    }
  }

  /** A new entry is given up by the firing after the configured number of requests. */
  lemma UnansweredGivesUp(s: State, c: Config, ip: Ip, timers: seq<nat>)
    requires Configured(c) && s.running && ip in s.cache && !s.cache[ip].complete
    requires c.retry < Word - 1 && s.cache[ip].retries + |timers| == c.retry + 1 && timers != []
    ensures var s' := Fires(s, c, ip, timers);
            && ip !in s'.cache && ip !in s'.table && ip !in s'.order
            && s'.log == s.log + Requests(ip, |timers| - 1) + [GaveUp(ip, false)]
  {
    var n := |timers| - 1;
    UnansweredRequests(s, c, ip, timers[..n]);
    LastFiring(Fires(s, c, ip, timers[..n]), c, ip, timers[n]);
  }

  lemma LastFiring(s: State, c: Config, ip: Ip, timer: nat)
    requires s.running && ip in s.cache && !s.cache[ip].complete && s.cache[ip].retries == c.retry < Word - 1
    ensures var s' := TimerFires(s, c, true, ip, timer);
            ip !in s'.cache && ip !in s'.table && ip !in s'.order && s'.log == s.log + [GaveUp(ip, false)]
  {
  }

  /** With the largest limit the counter wraps before it can exceed it: the entry is never given up. */
  lemma {:induction false} UnansweredForever(s: State, c: Config, ip: Ip, timers: seq<nat>)
    requires s.running && ip in s.cache && !s.cache[ip].complete && c.retry == Word - 1
    ensures var s' := Fires(s, c, ip, timers); s'.running && ip in s'.cache && !s'.cache[ip].complete
    ensures Fires(s, c, ip, timers).log == s.log + Requests(ip, |timers|)
    decreases |timers|
  {
    if timers != [] {
      UnansweredForever(s, c, ip, timers[..|timers| - 1]);
      assert s.log + Requests(ip, |timers|) == s.log + Requests(ip, |timers| - 1) + [Request(ip)];
    } else {
      assert s.log + [] == s.log;
    }
  }

  // ---------------------------------------------------------------------
  // Effects a caller sees
  // ---------------------------------------------------------------------

  /** What the data plane finds. */
  function Lookup(s: State, ip: Ip): Option<Mac> { if ip in s.table then Some(s.table[ip]) else None }

  /** Entry, lookup and request count of every other address stay the same. */
  ghost predicate OnlyTouches(s: State, t: State, ip: Ip) {
    forall x :: x != ip ==>
      && (x in t.cache <==> x in s.cache) && (x in s.cache ==> t.cache[x] == s.cache[x])
      && Lookup(t, x) == Lookup(s, x) && Since(t.log, x) == Since(s.log, x)
  }

  lemma RemoveSays(s: State, ip: Ip)
    ensures var t := Remove(s, ip); OnlyTouches(s, t, ip) && ip !in t.cache && Lookup(t, ip) == None && ip !in t.order
  {
  }

  /** One more request, or given up after exactly the configured number. */
  ghost predicate Asked(s: State, t: State, c: Config, ip: Ip)
    requires ip in s.cache
  {
    if ip in t.cache then Since(t.log, ip) == Since(s.log, ip) + 1 && Lookup(t, ip) == Lookup(s, ip)
    else Since(s.log, ip) == Limit(c, s.cache[ip].complete) && Lookup(t, ip) == None && ip !in t.order
  }

  lemma RequestSays(s: State, c: Config, ip: Ip, e: Entry)
    requires ip in s.cache
    ensures var t := Log(Put(s, ip, e), Request(ip)); OnlyTouches(s, t, ip) && Asked(s, t, c, ip)
  {
    forall x ensures Since(s.log + [Request(ip)], x) == Since(s.log, x) + if x == ip then 1 else 0 {
      SinceStep(s.log, Request(ip), x);
    }
  }

  lemma GiveUpSays(s: State, c: Config, ip: Ip, complete: bool)
    requires ip in s.cache && complete == s.cache[ip].complete && Since(s.log, ip) == Limit(c, complete)
    ensures var t := Log(Remove(s, ip), GaveUp(ip, complete)); OnlyTouches(s, t, ip) && Asked(s, t, c, ip)
  {
    var e := GaveUp(ip, complete);
    forall x ensures Since(s.log + [e], x) == Since(s.log, x) { SinceStep(s.log, e, x); }
    RemoveSays(s, ip);
  }

  lemma ScheduleSays(s: State, c: Config, routing: bool, ip: Ip, timer: nat)
    requires Configured(c) && ip in s.cache && CountOk(s.cache[ip], c, Since(s.log, ip))
    ensures OnlyTouches(s, Schedule(s, c, routing, ip, timer), ip)
    ensures if s.running && routing then Asked(s, Schedule(s, c, routing, ip, timer), c, ip)
            else Schedule(s, c, routing, ip, timer) == s
  {
    var e, t := s.cache[ip], Schedule(s, c, routing, ip, timer);
    var retries := (e.retries + 1) % Word;
    assert retries > Limit(c, e.complete) ==>
        Since(s.log, ip) == Limit(c, e.complete) by { RequestCounts(e, c, Since(s.log, ip)); }
    if s.running && routing {
      var up, on := Log(Remove(s, ip), GaveUp(ip, e.complete)),
          Log(Put(s, ip, e.(retries := retries, requestTimer := timer)), Request(ip));
      assert t == if retries > Limit(c, e.complete) then up else on;
      if retries > Limit(c, e.complete) { GiveUpSays(s, c, ip, e.complete); }
      RequestSays(s, c, ip, e.(retries := retries, requestTimer := timer));
    }
  }

  lemma TimerSays(s: State, c: Config, routing: bool, ip: Ip, timer: nat)
    requires Configured(c) && Inv(s, c)
    ensures var t := TimerFires(s, c, routing, ip, timer);
            OnlyTouches(s, t, ip) && (ip in s.cache && s.running && routing ==> Asked(s, t, c, ip)) &&
                (ip !in s.cache ==> t == s)
  {
    if ip in s.cache {
      var e := s.cache[ip].(requestTimer := 0);
      PutInv(s, c, ip, e);
      ScheduleSays(Put(s, ip, e), c, routing, ip, timer);
    }
  }

  lemma FreshSays(s: State, ip: Ip, e: Entry)
    ensures OnlyTouches(s, Renewed(s, ip, e), ip) && Lookup(Renewed(s, ip, e), ip) == Some(e.mac)
    ensures OnlyTouches(s, Log(Put(s, ip, e), Fresh(ip)), ip)
  {
    forall x ensures Since(s.log + [Fresh(ip)], x) == if x == ip then 0 else Since(s.log, x) {
      SinceStep(s.log, Fresh(ip), x);
    }
  }

  lemma AddStaticSays(s: State, c: Config, ip: Ip, mac: Mac)
    requires Inv(s, c)
    ensures var t := AddStatic(s, ip, mac); Inv(t, c) && OnlyTouches(s, t, ip) && Lookup(t, ip) == Some(mac)
  {
    var e := Entry([], true, 0, 0, mac, 0);
    FreshInv(s, c, ip, e);
    FreshSays(s, ip, e);
    OrderInv(Renewed(s, ip, e), c, s.order + [ip], s.incompletes);
  }

  lemma CompletedSays(s: State, c: Config, ip: Ip, e: Entry, n: nat, queue: seq<Packet>)
    requires GaveUpOnTime(s.log, c)
    ensures var t := Completed(s, ip, e, n, queue); OnlyTouches(s, t, ip) && Lookup(t, ip) == Some(e.mac)
  {
    FreshSays(s, ip, e);
    FreshCounts(s.log, c, ip);
    var l := s.log + [Fresh(ip)];
    forall x ensures Since(l + Dispatches(queue, e.mac), x) == Since(l, x) { SinceDispatches(l, queue, e.mac, x, c); }
  }

  /** Whether a reply changes what is known of its sender. */
  predicate Accepts(s: State, c: Config, routing: bool, sender: Ip, target: Ip, mac: Mac) {
    && (sender == target ==> c.gratuitous && s.running && routing && mac != Broadcast)
    && (if sender in s.cache then !(s.cache[sender].complete && c.sticky) else sender == target)
  }

  lemma ReplySays(
      s: State, c: Config, routing: bool, sender: Ip, target: Ip, mac: Mac, renewTimer: nat,
      expireTimer: nat)
    requires Inv(s, c)
    ensures var t := Reply(s, c, routing, sender, target, mac, renewTimer, expireTimer);
            && OnlyTouches(s, t, sender)
            && (if Accepts(s, c, routing, sender, target, mac) then Lookup(t, sender) == Some(mac) else t == s)
  {
    if Accepts(s, c, routing, sender, target, mac) {
      var o := if sender in s.cache then s.cache[sender] else NewEntry();
      var e := Entry([], true, expireTimer, renewTimer, mac, 0);
      var n := if !o.complete && s.incompletes != 0 then s.incompletes - 1 else s.incompletes;
      assert sender in s.cache ==> Put(s, sender, o) == s;
      CompletedSame(s, sender, o, e, n);
      CompletedSays(s, c, sender, e, n, o.queue);
    }
  }

  lemma CompleteSays(s: State, c: Config, ip: Ip, mac: Mac, renewTimer: nat, expireTimer: nat)
    requires Inv(s, c) && ip in s.cache
    ensures var t := Complete(s, c, ip, mac, renewTimer, expireTimer); Inv(t, c) && OnlyTouches(s, t, ip)
    ensures !(s.cache[ip].complete && c.sticky) ==>
              Lookup(Complete(s, c, ip, mac, renewTimer, expireTimer), ip) == Some(mac)
  {
    var o, e := s.cache[ip], Entry([], true, expireTimer, renewTimer, mac, 0);
    if !(o.complete && c.sticky) {
      var n := if !o.complete && s.incompletes != 0 then s.incompletes - 1 else s.incompletes;
      CompletedInv(s, c, ip, e, n, o.queue);
      CompletedSays(s, c, ip, e, n, o.queue);
    }
  }

  lemma ResolveSays(s: State, c: Config, routing: bool, ip: Ip, p: Packet, timer: nat)
    requires Configured(c) && Inv(s, c)
    ensures var t := Resolve(s, c, routing, ip, p, timer); OnlyTouches(s, t, ip) && Lookup(t, ip) == Lookup(s, ip)
  {
    if ip !in s.cache {
      AdmitInv(s, c, ip, p);
      AdmitSays(s, c, ip, p);
      SendSays(s, Admit(s, c, ip, p), c, routing, ip, timer);
    } else if s.cache[ip].complete {
      var e := Dispatch(p, s.cache[ip].mac);
      forall x ensures Since(s.log + [e], x) == Since(s.log, x) { SinceStep(s.log, e, x); }
    } else {
      var e := Enqueue(s.cache[ip], c, p);
      PutInv(s, c, ip, e);
      SendSays(s, Put(s, ip, e), c, routing, ip, timer);
    }
  }

  lemma AdmitSays(s: State, c: Config, ip: Ip, p: Packet)
    ensures OnlyTouches(s, Admit(s, c, ip, p), ip) && Lookup(Admit(s, c, ip, p), ip) == Lookup(s, ip)
  {
    FreshSays(s, ip, Enqueue(NewEntry(), c, p));
  }

  lemma SendSays(s: State, s1: State, c: Config, routing: bool, ip: Ip, timer: nat)
    requires Configured(c) && Inv(s1, c) && ip in s1.cache && !s1.cache[ip].complete
    requires OnlyTouches(s, s1, ip) && Lookup(s1, ip) == Lookup(s, ip)
    ensures var t := Send(s1, c, routing, ip, timer); OnlyTouches(s, t, ip) && Lookup(t, ip) == Lookup(s, ip)
  {
    ScheduleSays(s1, c, routing, ip, timer);
  }

  // ---------------------------------------------------------------------
  // The object
  // ---------------------------------------------------------------------

  class ArpCache {
    const cfg: Config
    var arpCache: map<Ip, Entry>
    var arpTable: map<Ip, Mac>
    var insertionOrder: seq<Ip>
    var incompletes: nat
    var running: bool
    ghost var log: seq<Event>

    ghost function Now(): State
      reads this
    {
      State(arpCache, arpTable, insertionOrder, incompletes, running, log)
    }

    /** The table is the COMPLETE part of the cache, queues keep their bounds, and requests are counted. */
    ghost predicate Valid()
      reads this
    {
      Configured(cfg) && Inv(Now(), cfg)
    }

    constructor (c: Config)
      requires Configured(c)
      ensures Valid() && cfg == c && Now() == Run(c, [])
    {
      cfg := c;
      arpCache, arpTable, insertionOrder, incompletes, running, log := map[], map[], [], 0, false, [];
    }

    /** The lock-free lookup of the data plane finds exactly the COMPLETE entries. */
    method GetMac(ip: Ip) returns (mac: Option<Mac>)
      requires Valid()
      ensures mac == Lookup(Now(), ip) == if ip in arpCache && arpCache[ip].complete then Some(arpCache[ip].mac)
                                         else None
    {
      mac := if ip in arpTable then Some(arpTable[ip]) else None;
    }

    /** The service is started or shut down. */
    method SetRunning(on: bool)
      requires Valid()
      modifies this
      ensures Valid() && running == on && forall ip :: Lookup(Now(), ip) == Lookup(old(Now()), ip)
      ensures Now() == Apply(old(Now()), cfg, OpRunning(on))
    {
      running := on;
    }

    method ClearAll()
      requires Valid()
      modifies this
      ensures Valid() && Now() == Clear(old(Now()))
      ensures forall ip :: ip !in arpCache && Lookup(Now(), ip) == None
    {
      arpCache, arpTable, insertionOrder, incompletes := map[], map[], [], 0;
    }

    method AddStaticArpEntry(ip: Ip, mac: Mac)
      requires Valid()
      modifies this
      ensures Valid() && OnlyTouches(old(Now()), Now(), ip) && Now() == AddStatic(old(Now()), ip, mac)
      ensures Lookup(Now(), ip) == Some(mac) && arpCache[ip].queue == []
    {
      AddStaticSays(Now(), cfg, ip, mac);
      arpCache := arpCache[ip := Entry([], true, 0, 0, mac, 0)];
      arpTable := arpTable[ip := mac];
      insertionOrder := insertionOrder + [ip];
      log := log + [Fresh(ip)];
    }

    method RemoveStaticArpEntry(ip: Ip)
      requires Valid()
      modifies this
      ensures Valid() && OnlyTouches(old(Now()), Now(), ip) && Now() == Remove(old(Now()), ip)
      ensures ip !in arpCache && Lookup(Now(), ip) == None && ip !in insertionOrder
    {
      RemoveInv(Now(), cfg, ip);
      RemoveSays(Now(), ip);
      arpTable := arpTable - {ip};
      arpCache := arpCache - {ip};
      insertionOrder := Without(insertionOrder, ip);
    }

    method RemoveArpEntry(ip: Ip)
      requires Valid()
      modifies this
      ensures Valid() && OnlyTouches(old(Now()), Now(), ip) && Now() == Remove(old(Now()), ip)
      ensures ip !in arpCache && Lookup(Now(), ip) == None && ip !in insertionOrder
    {
      RemoveInv(Now(), cfg, ip);
      RemoveSays(Now(), ip);
      Erase(ip);
    }

    method Erase(ip: Ip)
      modifies this
      ensures Now() == Remove(old(Now()), ip)
    {
      if ip in arpCache { arpCache := arpCache - {ip}; }
      assert arpCache == old(arpCache) - {ip};
      arpTable := arpTable - {ip};
      insertionOrder := Without(insertionOrder, ip);
    }

    method ScheduleRequest(routing: bool, ip: Ip, timer: nat)
      requires Valid() && ip in arpCache
      modifies this
      ensures Valid() && OnlyTouches(old(Now()), Now(), ip) && Now() == Schedule(old(Now()), cfg, routing, ip, timer)
      ensures old(running) && routing ==> Asked(old(Now()), Now(), cfg, ip)
    {
      ScheduleInv(Now(), cfg, routing, ip, timer);
      ScheduleSays(Now(), cfg, routing, ip, timer);
      TakeRequest(routing, ip, timer);
    }

    /** The body of scheduleRequest. */
    method TakeRequest(routing: bool, ip: Ip, timer: nat)
      requires ip in arpCache
      modifies this
      ensures Now() == Schedule(old(Now()), cfg, routing, ip, timer)
    {
      if !running || !routing { return; }
      var maxRetries := if !arpCache[ip].complete then cfg.retry else cfg.probes;
      var entry := arpCache[ip];
      entry := entry.(retries := (entry.retries + 1) % Word);
      arpCache := arpCache[ip := entry];
      if entry.retries > maxRetries {
        Erase(ip);
        assert arpCache == old(arpCache) - {ip};
        log := log + [GaveUp(ip, entry.complete)];
        return;
      }
      log := log + [Request(ip)];
      arpCache := arpCache[ip := entry.(requestTimer := timer)];
      assert arpCache == old(arpCache)[ip := entry.(requestTimer := timer)];
    }

    method SendRequest(routing: bool, ip: Ip, timer: nat)
      requires ip in arpCache
      modifies this
      ensures Now() == Send(old(Now()), cfg, routing, ip, timer)
    {
      if arpCache[ip].requestTimer != 0 { return; }
      TakeRequest(routing, ip, timer);
    }

    /** The callback of the request timer: one more request, or the entry is given up on time. */
    method OnRetry(routing: bool, ip: Ip, timer: nat)
      requires Valid()
      modifies this
      ensures Valid() && OnlyTouches(old(Now()), Now(), ip) && Now() == TimerFires(old(Now()), cfg, routing, ip, timer)
      ensures ip in old(arpCache) && old(running) && routing ==> Asked(old(Now()), Now(), cfg, ip)
      ensures ip !in old(arpCache) ==> Now() == old(Now())
    {
      TimerInv(Now(), cfg, routing, ip, timer);
      TimerSays(Now(), cfg, routing, ip, timer);
      if ip in arpCache {
        arpCache := arpCache[ip := arpCache[ip].(requestTimer := 0)];
        TakeRequest(routing, ip, timer);
      }
    }

    /** The callback of the renewal timer does the same. */
    method RenewArpEntry(routing: bool, ip: Ip, timer: nat)
      requires Valid()
      modifies this
      ensures Valid() && OnlyTouches(old(Now()), Now(), ip) && Now() == TimerFires(old(Now()), cfg, routing, ip, timer)
      ensures ip in old(arpCache) && old(running) && routing ==> Asked(old(Now()), Now(), cfg, ip)
      ensures ip !in old(arpCache) ==> Now() == old(Now())
    {
      TimerInv(Now(), cfg, routing, ip, timer);
      TimerSays(Now(), cfg, routing, ip, timer);
      if ip in arpCache {
        arpCache := arpCache[ip := arpCache[ip].(requestTimer := 0)];
        SendRequest(routing, ip, timer);
      }
    }

    /** Resolving never changes what the data plane finds. */
    method ResolveAndSend(routing: bool, ip: Ip, packet: Packet, timer: nat)
      requires Valid()
      modifies this
      ensures Valid() && OnlyTouches(old(Now()), Now(), ip)
      ensures Now() == Resolve(old(Now()), cfg, routing, ip, packet, timer)
      ensures Lookup(Now(), ip) == Lookup(old(Now()), ip)
    {
      ResolveInv(Now(), cfg, routing, ip, packet, timer);
      ResolveSays(Now(), cfg, routing, ip, packet, timer);
      Resolving(routing, ip, packet, timer);
    }

    /** The body of resolveAndSend. */
    method Resolving(routing: bool, ip: Ip, packet: Packet, timer: nat)
      modifies this
      ensures Now() == Resolve(old(Now()), cfg, routing, ip, packet, timer)
    {
      if !cfg.incomplete { return; }
      var cached := ip in arpCache;
      if !cached {
        if cfg.maxEntries.Some? && incompletes >= cfg.maxEntries.value { return; }
        insertionOrder := insertionOrder + [ip];
        arpCache := arpCache[ip := NewEntry()];
        log := log + [Fresh(ip)];
      }
      var cache := arpCache[ip];
      if cache.complete {
        log := log + [Dispatch(packet, cache.mac)];
        return;
      }
      if |cache.queue| < cfg.queueLimit { cache := cache.(queue := cache.queue + [packet]); }
      arpCache := arpCache[ip := cache];
      assert arpCache == old(arpCache)[ip := cache];
      if !cached { incompletes := incompletes + 1; }
      assert Now() == if cached then Put(old(Now()), ip, cache) else Admit(old(Now()), cfg, ip, packet);
      SendRequest(routing, ip, timer);
    }

    /** Sends the waiting packets in the order they came. */
    method ProcessQueuedPackets(ip: Ip, mac: Mac)
      requires ip in arpCache
      modifies this
      ensures arpCache == old(arpCache)[ip := old(arpCache[ip]).(queue := [])]
      ensures log == old(log) + Dispatches(old(arpCache[ip].queue), mac)
      ensures arpTable == old(arpTable) && insertionOrder == old(insertionOrder)
      ensures incompletes == old(incompletes) && running == old(running)
    {
      var packets := arpCache[ip].queue;
      ghost var i, q := 0, packets;
      assert log + Dispatches(packets[..0], mac) == log;
      while packets != []
        invariant 0 <= i <= |q| && packets == q[i..]
        invariant log == old(log) + Dispatches(q[..i], mac)
        invariant arpCache == old(arpCache)[ip := old(arpCache[ip]).(queue := packets)]
        invariant arpTable == old(arpTable) && insertionOrder == old(insertionOrder)
        invariant incompletes == old(incompletes) && running == old(running)
        decreases |packets|
      {
        log := log + [Dispatch(packets[0], mac)];
        DispatchesStep(q, i, mac);
        packets := packets[1..];
        arpCache := arpCache[ip := arpCache[ip].(queue := packets)];
        i := i + 1;
      }
      assert q[..i] == q;
    }

    /** Completion makes the address resolvable at the MAC and sends what waited for it, unless the entry is sticky. */
    method CompleteArpEntry(ip: Ip, mac: Mac, renewTimer: nat, expireTimer: nat)
      requires Valid() && ip in arpCache
      modifies this
      ensures Valid() && OnlyTouches(old(Now()), Now(), ip)
      ensures Now() == Complete(old(Now()), cfg, ip, mac, renewTimer, expireTimer)
      ensures if old(arpCache[ip].complete) && cfg.sticky then Now() == old(Now())
              else && Lookup(Now(), ip) == Some(mac) && arpCache[ip].queue == []
                   && log == old(log) + [Fresh(ip)] + Dispatches(old(arpCache[ip].queue), mac)
    {
      CompleteSays(Now(), cfg, ip, mac, renewTimer, expireTimer);
      Completing(ip, mac, renewTimer, expireTimer);
    }

    /** The body of completeArpEntry. */
    method Completing(ip: Ip, mac: Mac, renewTimer: nat, expireTimer: nat)
      requires ip in arpCache
      modifies this
      ensures Now() == Complete(old(Now()), cfg, ip, mac, renewTimer, expireTimer)
    {
      var cache := arpCache[ip];
      if cache.complete && cfg.sticky { return; }
      if !cache.complete && incompletes != 0 { incompletes := incompletes - 1; }
      arpCache := arpCache[ip := Entry(cache.queue, true, expireTimer, renewTimer, mac, 0)];
      arpTable := arpTable[ip := mac];
      log := log + [Fresh(ip)];
      ProcessQueuedPackets(ip, mac);
      assert arpCache == old(arpCache)[ip := Entry([], true, expireTimer, renewTimer, mac, 0)];
    }

    /** An accepted reply makes its sender resolvable at that MAC; any other reply changes nothing. */
    method ReceiveReply(routing: bool, sender: Ip, target: Ip, mac: Mac, renewTimer: nat, expireTimer: nat)
      requires Valid()
      modifies this
      ensures Valid() && OnlyTouches(old(Now()), Now(), sender)
      ensures Now() == Reply(old(Now()), cfg, routing, sender, target, mac, renewTimer, expireTimer)
      ensures if Accepts(old(Now()), cfg, routing, sender, target, mac) then Lookup(Now(), sender) == Some(mac)
              else Now() == old(Now())
    {
      ReplyInv(Now(), cfg, routing, sender, target, mac, renewTimer, expireTimer);
      ReplySays(Now(), cfg, routing, sender, target, mac, renewTimer, expireTimer);
      Replying(routing, sender, target, mac, renewTimer, expireTimer);
    }

    /** The body of receiveReply. */
    method Replying(routing: bool, sender: Ip, target: Ip, mac: Mac, renewTimer: nat, expireTimer: nat)
      modifies this
      ensures Now() == Reply(old(Now()), cfg, routing, sender, target, mac, renewTimer, expireTimer)
    {
      var garp := sender == target;
      if garp && (!cfg.gratuitous || !running || !routing || mac == Broadcast) { return; }
      if sender in arpCache {
        if arpCache[sender].complete && cfg.sticky { return; }
        Completing(sender, mac, renewTimer, expireTimer);
      } else if garp {
        arpCache := arpCache[sender := NewEntry()];
        Completing(sender, mac, renewTimer, expireTimer);
      }
    }
  }
}
