/**
  What becomes of the packets for an address (Arp.cpp:122-160, 244-317, 364-377): sent at once to its MAC,
  dropped for want of room, or kept in order for the reply that completes its entry.
 */
module ArpPackets {
  import opened Collections
  import opened Arp

  predicate Resolved(s: State, ip: Ip) { ip in s.cache && s.cache[ip].complete }

  predicate Unresolved(s: State, ip: Ip) { ip in s.cache && !s.cache[ip].complete }

  /** A packet for a resolved address goes out at once, to the MAC that the data plane finds. */
  lemma ResolvedSends(s: State, c: Config, routing: bool, ip: Ip, p: Packet, timer: nat)
    requires Inv(s, c) && c.incomplete && Resolved(s, ip)
    ensures var t := Resolve(s, c, routing, ip, p, timer);
            && Lookup(s, ip) == Some(s.cache[ip].mac) && t.cache == s.cache && t.order == s.order
            && t.log == s.log + [Dispatch(p, s.cache[ip].mac)]
  {
  }

  /** A request is sent for the entry unless its timer runs or the service does not; at the limit it is given up. */
  ghost predicate RequestMade(s: State, t: State, c: Config, routing: bool, ip: Ip, e: Entry) {
    if e.requestTimer != 0 || !s.running || !routing then ip in t.cache && t.log == s.log
    else if ip in t.cache then t.log == s.log + [Request(ip)] && t.cache[ip].retries == (e.retries + 1) % Word
    else t.log == s.log + [GaveUp(ip, false)] && (e.retries + 1) % Word > c.retry
  }

  /** A packet for an unresolved one is the last of its queue, if there is room. */
  lemma UnresolvedQueues(s: State, c: Config, routing: bool, ip: Ip, p: Packet, timer: nat)
    requires c.incomplete && Unresolved(s, ip)
    ensures var t := Resolve(s, c, routing, ip, p, timer);
            && (ip in t.cache ==>
               !t.cache[ip].complete && t.cache[ip].queue == Appended(s.cache[ip].queue, p, c.queueLimit))
            && RequestMade(s, t, c, routing, ip, s.cache[ip])
  {
  }

  /** One for an unknown address makes an entry, unless there are too many unresolved ones. */
  lemma UnknownEnters(s: State, c: Config, routing: bool, ip: Ip, p: Packet, timer: nat)
    requires c.incomplete && ip !in s.cache
    ensures var t := Resolve(s, c, routing, ip, p, timer);
            if c.maxEntries.Some? && s.incompletes >= c.maxEntries.value then t == s
            else && (ip in t.cache ==>
                       && !t.cache[ip].complete && t.cache[ip].queue == Appended([], p, c.queueLimit)
                       && t.order == s.order + [ip])
                 && t.incompletes == s.incompletes + 1
                 && RequestMade(Log(s, Fresh(ip)), t, c, routing, ip, NewEntry())
  {
  }

  /** With IP_ARP_INCOMPLETE off packets are dropped. */
  lemma OffDrops(s: State, c: Config, routing: bool, ip: Ip, p: Packet, timer: nat)
    requires !c.incomplete
    ensures Resolve(s, c, routing, ip, p, timer) == s
  {
  }

  // ---------------------------------------------------------------------
  // Whole runs
  // ---------------------------------------------------------------------

  /** The state after further operations. */
  function Then(s: State, c: Config, ops: seq<Op>): State {
    if ops == [] then s else Apply(Then(s, c, ops[..|ops| - 1]), c, ops[|ops| - 1])
  }

  /** The packets that the operations hand over for ip, behind w, as far as there is room. */
  function Handed(w: seq<Packet>, c: Config, ops: seq<Op>, ip: Ip): seq<Packet> {
    if ops == [] then w
    else
      var sofar, op := Handed(w, c, ops[..|ops| - 1], ip), ops[|ops| - 1];
      if op.OpResolve? && op.ip == ip && c.incomplete then Appended(sofar, op.packet, c.queueLimit) else sofar
  }

  lemma HeldStep(s: State, c: Config, op: Op, ip: Ip)
    requires Unresolved(s, ip) && Unresolved(Apply(s, c, op), ip)
    ensures Apply(s, c, op).cache[ip].queue ==
            if op.OpResolve? && op.ip == ip && c.incomplete
            then Appended(s.cache[ip].queue, op.packet, c.queueLimit) else s.cache[ip].queue
  {
  }

  /** While the address stays unresolved, its queue is what was handed over, in order. */
  lemma {:induction false} HeldRun(s: State, c: Config, ops: seq<Op>, ip: Ip)
    requires forall n :: 0 <= n <= |ops| ==> Unresolved(Then(s, c, ops[..n]), ip)
    ensures ops[..0] == [] && Unresolved(s, ip)
    ensures Unresolved(Then(s, c, ops), ip) && Then(s, c, ops).cache[ip].queue == Handed(s.cache[ip].queue, c, ops, ip)
    decreases |ops|
  {
    assert ops[..0] == [] && ops[..|ops|] == ops;
    assert Unresolved(Then(s, c, ops[..0]), ip) && Unresolved(Then(s, c, ops[..|ops|]), ip);
    if ops != [] {
      var n := |ops| - 1;
      forall m | 0 <= m <= n ensures Unresolved(Then(s, c, ops[..n][..m]), ip) { assert ops[..n][..m] == ops[..m]; }
      HeldRun(s, c, ops[..n], ip);
      HeldStep(Then(s, c, ops[..n]), c, ops[n], ip);
    }
  }

  /** Completing an unresolved entry sends its queue in order. */
  lemma CompleteSends(s: State, c: Config, ip: Ip, mac: Mac, renewTimer: nat, expireTimer: nat)
    requires Unresolved(s, ip)
    ensures var t := Complete(s, c, ip, mac, renewTimer, expireTimer);
            && t.log == s.log + [Fresh(ip)] + Dispatches(s.cache[ip].queue, mac)
            && Resolved(t, ip) && t.cache[ip].queue == [] && Lookup(t, ip) == Some(mac)
  {
  }

  /** The first packet makes the entry. */
  lemma FirstPacket(s: State, c: Config, ops: seq<Op>, ip: Ip)
    requires ops != [] && ops[0].OpResolve? && ops[0].ip == ip && c.incomplete && ip !in s.cache
    requires Unresolved(Then(s, c, ops[..1]), ip)
    ensures Then(s, c, ops[..1]).cache[ip].queue == Handed([], c, ops[..1], ip)
  {
    assert ops[..1][..0] == [] && ops[..1][0] == ops[0];
    assert Then(s, c, ops[..1]) == Apply(s, c, ops[0]);
    UnknownEnters(s, c, ops[0].routing, ip, ops[0].packet, ops[0].timer);
    assert Handed([], c, ops[..1], ip) == Appended([], ops[0].packet, c.queueLimit);
  }

  lemma QueueHolds(s: State, c: Config, ops: seq<Op>, ip: Ip)
    requires ops != [] && ops[0].OpResolve? && ops[0].ip == ip && c.incomplete && ip !in s.cache
    requires forall n :: 1 <= n <= |ops| ==> Unresolved(Then(s, c, ops[..n]), ip)
    ensures Unresolved(Then(s, c, ops), ip) && Then(s, c, ops).cache[ip].queue == Handed([], c, ops, ip)
  {
    var s1, rest := Then(s, c, ops[..1]), ops[1..];
    FirstPacket(s, c, ops, ip);
    forall n | 0 <= n <= |rest| ensures Unresolved(Then(s1, c, rest[..n]), ip) {
      ThenFirst(s, c, ops[..n + 1]);
      assert ops[..n + 1][..1] == ops[..1] && ops[..n + 1][1..] == rest[..n];
    }
    HeldRun(s1, c, rest, ip);
    ThenFirst(s, c, ops);
    HandedFirst([], c, ops, ip);
  }

  /**
    From the packet that finds the address unknown until the reply that completes its entry, whatever else
    happens: the reply sends every packet handed over since that found room, each once and in order, to
    the MAC it brings, and nothing waits any more.
   */
  lemma ReplySendsAll(s: State, c: Config, ops: seq<Op>, ip: Ip, mac: Mac, renewTimer: nat, expireTimer: nat)
    requires ops != [] && ops[0].OpResolve? && ops[0].ip == ip && c.incomplete && ip !in s.cache
    requires forall n :: 1 <= n <= |ops| ==> Unresolved(Then(s, c, ops[..n]), ip)
    ensures Unresolved(Then(s, c, ops), ip)
    ensures var u, t := Then(s, c, ops), Complete(Then(s, c, ops), c, ip, mac, renewTimer, expireTimer);
            && t.log == u.log + [Fresh(ip)] + Dispatches(Handed([], c, ops, ip), mac)
            && t.cache[ip].queue == [] && Lookup(t, ip) == Some(mac)
  {
    QueueHolds(s, c, ops, ip);
    CompleteSends(Then(s, c, ops), c, ip, mac, renewTimer, expireTimer);
  }

  lemma {:induction false} ThenFirst(s: State, c: Config, ops: seq<Op>)
    requires ops != []
    ensures Then(s, c, ops) == Then(Then(s, c, ops[..1]), c, ops[1..])
    decreases |ops|
  {
    if |ops| > 1 {
      var front := ops[..|ops| - 1];
      ThenFirst(s, c, front);
      assert front[..1] == ops[..1] && front[1..] == ops[1..][..|ops| - 2];
    } else {
      assert ops[..1] == ops;
    }
  }

  lemma {:induction false} HandedFirst(w: seq<Packet>, c: Config, ops: seq<Op>, ip: Ip)
    requires ops != []
    ensures Handed(w, c, ops, ip) == Handed(Handed(w, c, ops[..1], ip), c, ops[1..], ip)
    decreases |ops|
  {
    if |ops| > 1 {
      var front := ops[..|ops| - 1];
      HandedFirst(w, c, front, ip);
      assert front[..1] == ops[..1] && front[1..] == ops[1..][..|ops| - 2];
    } else {
      assert ops[..1] == ops;
    }
  }
}
