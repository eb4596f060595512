/** The object: its fields updated in place, each handler proved against its function on the state. */
module NudCache {
  import opened Collections
  import opened Nud
  import opened NudProbing
  import opened NudAnswers
  import opened NudPackets
  import Arp

  class NeighborCache {
    const cfg: NudConfig
    var ndpCache: map<Ip, Neighbor>
    var ndpTable: map<Ip, Mac>
    var insertionOrder: seq<Ip>
    var pendingPackets: map<Ip, seq<Packet>>
    var nsRetryCount: map<Ip, nat>
    var nsRetryTimers: set<Ip>
    // Callbacks the object has lost track of, and what was sent.
    ghost var loose: multiset<Ip>
    ghost var late: multiset<Ip>
    ghost var log: seq<Ip>
    ghost var out: seq<Arp.Event>

    ghost function Now(): Ndp
      reads this
    {
      Ndp(ndpCache, ndpTable, insertionOrder, pendingPackets, nsRetryCount, nsRetryTimers, loose, late, log, out)
    }

    ghost predicate Valid()
      reads this
    {
      Sized(cfg) && NdpInv(Now(), cfg)
    }

    constructor (c: NudConfig)
      requires Sized(c)
      ensures Valid() && cfg == c && Now() == Empty()
    {
      cfg := c;
      ndpCache, ndpTable, insertionOrder, pendingPackets := map[], map[], [], map[];
      nsRetryCount, nsRetryTimers, loose, late, log, out := map[], {}, multiset{}, multiset{}, [], [];
    }

    /** The lock-free lookup finds exactly the resolved neighbors. */
    method GetMac(ip: Ip) returns (mac: Option<Mac>)
      requires Valid()
      ensures mac == if ip in ndpCache && ndpCache[ip].state != ACTIVE then Some(ndpCache[ip].mac) else None
    {
      mac := if ip in ndpTable then Some(ndpTable[ip]) else None;
    }

    // -------------------------------------------------------------------
    // Entries and packets
    // -------------------------------------------------------------------

    method RemoveEntry(ip: Ip)
      requires Valid()
      modifies this
      ensures Valid() && OnlyTouches(old(Now()), Now(), ip) && Now() == RemoveNeighbor(old(Now()), ip)
      ensures ip !in ndpCache && ip !in ndpTable && (ip in old(ndpCache) ==> Lost(Now(), ip))
    {
      RemoveKeeps(Now(), ip);
      assert TidyAt(Now(), cfg, ip);
      TidyElsewhere(Now(), RemoveNeighbor(Now(), ip), cfg, ip);
      Erase(ip);
    }

    method Erase(ip: Ip)
      modifies this
      ensures Now() == RemoveNeighbor(old(Now()), ip)
    {
      if ip !in ndpCache { return; }
      ndpCache := ndpCache - {ip};
      ndpTable := ndpTable - {ip};
      insertionOrder := Arp.Without(insertionOrder, ip);
      pendingPackets := pendingPackets - {ip};
    }

    /**
      A packet for a neighbor.  A REACHABLE one is sent it at once.  For any other it is the last of what
      waits, if there is room: an unknown one is entered and solicited, a STALE one is probed.
     */
    method ResolveAndSend(shut: bool, ip: Ip, p: Packet)
      requires Valid()
      modifies this
      ensures Valid() && OnlyTouches(old(Now()), Now(), ip) && Now() == SendPacket(old(Now()), cfg, shut, ip, p)
      ensures old(Known(Now(), ip)) ==>
                && out == old(out) + Arp.Dispatches([p], old(ndpCache[ip].mac))
                && ndpCache == old(ndpCache) && log == old(log)
      ensures !old(Known(Now(), ip)) ==> out == old(out) && HeldBack(old(Now()), Now(), cfg, ip, p)
      ensures old(Stale(Now(), ip)) ==> ProbeBegun(old(Now()), Now(), cfg, shut, ip)
      ensures ip !in old(ndpCache) ==> Entered(old(Now()), Now(), cfg, shut, ip)
      ensures ip in old(ndpCache) && (old(ndpCache[ip].state) == ACTIVE || old(RunningNud(Now(), ip))) ==>
                ndpCache == old(ndpCache) && log == old(log)
      ensures ip in ndpTable ==> ip in old(ndpTable) && ndpTable[ip] == old(ndpTable[ip])
    {
      SendPacketKeeps(Now(), cfg, shut, ip, p);
      SendPacketSays(Now(), cfg, shut, ip, p);
      Dispatch(shut, ip, p);
    }

    method Dispatch(shut: bool, ip: Ip, p: Packet)
      modifies this
      ensures Now() == SendPacket(old(Now()), cfg, shut, ip, p)
    {
      if ip in ndpCache {
        match ndpCache[ip].state {
          case REACHABLE =>
            out := out + Arp.Dispatches([p], ndpCache[ip].mac);
            return;
          case STALE | DELAY => StartProbing(shut, ip);
          case _ =>
        }
      } else {
        ndpCache := ndpCache[ip := Neighbor(0, ACTIVE, false, 1)];
        insertionOrder := insertionOrder + [ip];
        BeginAttempts(shut, ip);
      }
      var queue := if ip in pendingPackets then pendingPackets[ip] else [];
      if |queue| < cfg.queueLimit { queue := queue + [p]; }
      pendingPackets := pendingPackets[ip := queue];
    }

    /** An advertisement from a known neighbor: the table has its MAC and nothing waits for it any more. */
    method CompleteNdpEntry(ip: Ip, mac: Mac)
      requires Valid() && ip in ndpCache
      modifies this
      ensures Valid() && OnlyTouches(old(Now()), Now(), ip) && Now() == Answered(old(Now()), ip, mac)
      ensures ip in ndpTable && ndpTable[ip] == mac && ip !in pendingPackets
      ensures Doomed(Now(), ip) <==> old(Callbacks(Now(), ip)) > 0
    {
      AnsweredKeeps(Now(), cfg, ip, mac);
      var e := ndpCache[ip];
      ndpCache := ndpCache[ip := e.(mac := mac, state := REACHABLE, retryTimer := false)];
      ndpTable := ndpTable[ip := mac];
      ProcessQueuedPackets(ip, mac);
    }

    /** Sends the waiting packets in the order they came. */
    method ProcessQueuedPackets(ip: Ip, mac: Mac)
      modifies this`pendingPackets, this`out
      ensures pendingPackets == old(pendingPackets) - {ip}
      ensures out == old(out) + Arp.Dispatches(old(Waiting(Now(), ip)), mac)
    {
      if ip !in pendingPackets {
        assert out + Arp.Dispatches([], mac) == out;
        return;
      }
      var queue := pendingPackets[ip];
      ghost var i, q := 0, queue;
      assert out + Arp.Dispatches(q[..0], mac) == out;
      while queue != []
        invariant 0 <= i <= |q| && queue == q[i..] && out == old(out) + Arp.Dispatches(q[..i], mac)
        invariant pendingPackets == old(pendingPackets)
        decreases |queue|
      {
        out := out + [Arp.Dispatch(queue[0], mac)];
        Arp.DispatchesStep(q, i, mac);
        queue, i := queue[1..], i + 1;
      }
      assert q[..i] == q;
      pendingPackets := pendingPackets - {ip};
    }

    // -------------------------------------------------------------------
    // Solicitations
    // -------------------------------------------------------------------

    /**
      Afterwards a retry timer runs, or the final wait does, or the neighbor is gone.  No caller schedules
      over a recorded timer that this attempt would not replace.
     */
    method ScheduleNeighborSolicitation(shut: bool, ip: Ip)
      requires Valid() && Fit(Now(), cfg, ip)
      modifies this
      ensures Valid() && OnlyTouches(old(Now()), Now(), ip) && Now() == ScheduleNs(old(Now()), cfg, shut, ip)
      ensures Resting(Now(), ip) && (ip in old(ndpCache) && ip !in ndpCache ==> Lost(Now(), ip))
    {
      ThenKeeps(Now(), Now(), cfg, shut, ip);
      ScheduleRests(Now(), cfg, shut, ip);
      TakeAttempt(shut, ip);
    }

    method TakeAttempt(shut: bool, ip: Ip)
      modifies this
      ensures Now() == ScheduleNs(old(Now()), cfg, shut, ip)
    {
      var attempt := if ip in nsRetryCount then nsRetryCount[ip] else 0;
      var runningNud := ip in ndpCache && (ndpCache[ip].state == PROBE || ndpCache[ip].state == UNREACHABLE);
      if attempt >= (if runningNud then cfg.attempts else cfg.retry) {
        GiveUp(ip, runningNud);
        return;
      }
      if !shut { log := log + [ip]; }
      nsRetryCount := nsRetryCount[ip := (attempt + 1) % 256];
      nsRetryTimers := nsRetryTimers + {ip};
    }

    method GiveUp(ip: Ip, runningNud: bool)
      requires runningNud <==> RunningNud(Now(), ip)
      modifies this
      ensures Now() == Exhausted(old(Now()), cfg, ip)
    {
      if runningNud && ndpCache[ip].nudGroup <= cfg.retry {
        if ndpCache[ip].retryTimer { late := late + multiset{ip}; }
        ndpCache := ndpCache[ip := ndpCache[ip].(state := UNREACHABLE, retryTimer := true)];
      } else {
        Erase(ip);
      }
      nsRetryCount := nsRetryCount - {ip};
      DropKey(ip);
    }

    /** Erases the recorded id; the timer it names still fires. */
    method DropKey(ip: Ip)
      modifies this
      ensures Now() == Unkey(old(Now()), ip)
    {
      if ip in nsRetryTimers { loose := loose + multiset{ip}; }
      nsRetryTimers := nsRetryTimers - {ip};
    }

    method SendNeighborSolicitation(shut: bool, ip: Ip)
      requires Valid() && (ip in ndpCache ==> !ndpCache[ip].retryTimer)
      modifies this
      ensures Valid() && OnlyTouches(old(Now()), Now(), ip) && Now() == SendNs(old(Now()), cfg, shut, ip)
      ensures ip in old(nsRetryTimers) ==> log == old(log)
      ensures Resting(Now(), ip)
    {
      assert TidyAt(Now(), cfg, ip);
      SendKeeps(Now(), Now(), cfg, shut, ip);
      BeginAttempts(shut, ip);
    }

    method BeginAttempts(shut: bool, ip: Ip)
      modifies this
      ensures Now() == SendNs(old(Now()), cfg, shut, ip)
    {
      if ip in nsRetryTimers { return; }
      nsRetryCount := nsRetryCount[ip := 0];
      TakeAttempt(shut, ip);
    }

    // -------------------------------------------------------------------
    // Probing
    // -------------------------------------------------------------------

    /**
      startNud on a resolved neighbor: it is in a group, or at once between groups or gone.  The recorded
      retry timer is replaced, or left without its record if there is no attempt to make.
     */
    method Begin(shut: bool, ip: Ip)
      requires Valid() && Resolved(Now(), ip)
      modifies this
      ensures Valid() && OnlyTouches(old(Now()), Now(), ip) && Now() == StartNud(old(Now()), cfg, shut, ip)
      ensures InGroup(Now(), cfg, ip) || Between(Now(), cfg, ip) || Lost(Now(), ip)
      ensures old(Unencumbered(Now(), cfg, ip)) ==> Probing(Now(), cfg, ip)
      ensures ProbeBegun(old(Now()), Now(), cfg, shut, ip)
      ensures cfg.attempts == 0 ==> log == old(log) && Callbacks(Now(), ip) == loose[ip] == old(Callbacks(Now(), ip))
    {
      StartNudKeeps(Now(), cfg, shut, ip);
      StartSays(Now(), cfg, shut, ip);
      StartProbing(shut, ip);
    }

    method StartProbing(shut: bool, ip: Ip)
      requires ip in ndpCache
      modifies this
      ensures Now() == StartNud(old(Now()), cfg, shut, ip)
    {
      ndpCache := ndpCache[ip := ndpCache[ip].(state := PROBE)];
      nsRetryCount := nsRetryCount[ip := 0];
      TakeAttempt(shut, ip);
    }

    /** The reachable time ends: a new probe if the cache is refreshed, otherwise the neighbor is STALE. */
    method OnReachableTimeout(shut: bool, refresh: bool, ip: Ip)
      requires Valid() && (ip in ndpCache ==> ndpCache[ip].state == REACHABLE)
      modifies this
      ensures Valid() && OnlyTouches(old(Now()), Now(), ip)
      ensures ip !in old(ndpCache) ==> Now() == old(Now())
      ensures ip in old(ndpCache) ==>
                Now() == if refresh then StartNud(old(Now()), cfg, shut, ip) else Aged(old(Now()), ip)
      ensures ip in old(ndpCache) && !refresh ==>
                && ndpCache == old(ndpCache)[ip := old(ndpCache[ip]).(state := STALE)]
                && ndpTable == old(ndpTable) && nsRetryTimers == old(nsRetryTimers) && log == old(log)
      ensures ip in old(ndpCache) && refresh ==> ProbeBegun(old(Now()), Now(), cfg, shut, ip)
    {
      if ip !in ndpCache { return; }
      if refresh {
        Begin(shut, ip);
      } else {
        AgedKeeps(Now(), cfg, ip);
        ndpCache := ndpCache[ip := ndpCache[ip].(state := STALE)];
      }
    }

    /** The refresh period ends: a REACHABLE neighbor is probed. */
    method RefreshNeighborEntry(shut: bool, ip: Ip)
      requires Valid()
      modifies this
      ensures Valid() && OnlyTouches(old(Now()), Now(), ip)
      ensures Now() == if ip in old(ndpCache) && old(ndpCache[ip].state) == REACHABLE
                       then StartNud(old(Now()), cfg, shut, ip) else old(Now())
      ensures ip in old(ndpCache) && old(ndpCache[ip].state) == REACHABLE ==>
                ProbeBegun(old(Now()), Now(), cfg, shut, ip)
    {
      if ip in ndpCache && ndpCache[ip].state == REACHABLE { Begin(shut, ip); }
    }

    /** The callback of a retry timer; `keyed` tells whether its id is the recorded one. */
    method OnRetryTimer(shut: bool, ip: Ip, ghost keyed: bool)
      requires Valid() && (if keyed then ip in nsRetryTimers else loose[ip] > 0)
      modifies this
      ensures Valid() && OnlyTouches(old(Now()), Now(), ip)
      ensures Now() == if keyed then NsTimer(old(Now()), cfg, shut, ip) else StrayTimer(old(Now()), cfg, shut, ip)
      ensures keyed && old(InGroup(Now(), cfg, ip) && NoStrays(Now(), ip)) ==>
                Probing(Now(), cfg, ip) && TimersLeft(Now(), cfg, ip) == old(TimersLeft(Now(), cfg, ip)) - 1
      ensures old(Settled(Now(), ip)) ==> Struck(cfg, ip, old(Now()), Now())
    {
      ghost var s := Now();
      if keyed { NsTimerKeeps(s, cfg, shut, ip); } else { StrayTimerKeeps(s, cfg, shut, ip); }
      if keyed && InGroup(s, cfg, ip) && NoStrays(s, ip) { RetryKeeps(cfg, ip, s, shut); }
      if Settled(s, ip) {
        if keyed { RetryStrikes(cfg, ip, s, shut); } else { StrayStrikes(cfg, ip, s, shut); }
      }
      Fire(shut, ip, keyed);
    }

    method Fire(shut: bool, ip: Ip, ghost keyed: bool)
      modifies this
      ensures Now() == if keyed then NsTimer(old(Now()), cfg, shut, ip) else StrayTimer(old(Now()), cfg, shut, ip)
    {
      if !keyed {
        loose := loose - multiset{ip};
        if ip in nsRetryTimers { loose := loose + multiset{ip}; }
      }
      nsRetryTimers := nsRetryTimers - {ip};
      TakeAttempt(shut, ip);
    }

    /** The callback of a final wait; `recorded` tells whether its id is in the entry. */
    method OnFinalWait(shut: bool, ip: Ip, ghost recorded: bool)
      requires Valid() && (if recorded then ip in ndpCache && ndpCache[ip].retryTimer else late[ip] > 0)
      modifies this
      ensures Valid() && OnlyTouches(old(Now()), Now(), ip)
      ensures Now() == if recorded then RetryNud(old(Now()), cfg, shut, ip) else LateWait(old(Now()), cfg, shut, ip)
      ensures recorded && cfg.retry <= 254 && old(Between(Now(), cfg, ip) && NoStrays(Now(), ip)) ==>
                Probing(Now(), cfg, ip) && TimersLeft(Now(), cfg, ip) == old(TimersLeft(Now(), cfg, ip)) - 1
    {
      ghost var s := Now();
      if recorded { WaitKeepsInv(s, cfg, shut, ip); } else { LateKeepsInv(s, cfg, shut, ip); }
      if recorded && cfg.retry <= 254 && Between(s, cfg, ip) && NoStrays(s, ip) { WaitKeeps(cfg, ip, s, shut); }
      if !recorded { late := Overtaken(Now(), ip).late; }
      Retry(shut, ip);
    }

    method Retry(shut: bool, ip: Ip)
      modifies this
      ensures Now() == RetryNud(old(Now()), cfg, shut, ip)
    {
      if ip !in ndpCache || ndpCache[ip].state != UNREACHABLE { return; }
      var e := ndpCache[ip];
      ndpCache := ndpCache[ip := e.(retryTimer := false, nudGroup := (e.nudGroup + 1) % 256)];
      nsRetryCount := nsRetryCount[ip := 0];
      assert Now() == NextGroup(old(Now()), ip);
      BeginAttempts(shut, ip);
    }
  }

  lemma SendPacketSays(s: Ndp, c: NudConfig, shut: bool, ip: Ip, p: Packet)
    requires Sized(c) && NdpInv(s, c)
    ensures var t := SendPacket(s, c, shut, ip, p);
            && (Known(s, ip) ==> t.cache == s.cache && t.log == s.log)
            && (!Known(s, ip) ==> t.out == s.out && HeldBack(s, t, c, ip, p))
            && (Stale(s, ip) ==> ProbeBegun(s, t, c, shut, ip))
            && (ip !in s.cache ==> Entered(s, t, c, shut, ip))
            && (ip in s.cache && (s.cache[ip].state == ACTIVE || RunningNud(s, ip)) ==>
               t.cache == s.cache && t.log == s.log)
            && (ip in t.table ==> ip in s.table && t.table[ip] == s.table[ip])
  {
    if !Known(s, ip) { PacketWaits(s, c, shut, ip, p); }
    if ip !in s.cache {
      UnknownIsSolicited(s, c, shut, ip, p);
      ScheduleSays(ResetCount(Enter(s, ip), ip), c, shut, ip);
    } else if Stale(s, ip) {
      StaleIsProbed(s, c, shut, ip, p);
      ScheduleSays(Probed(s, ip), c, shut, ip);
    }
  }

  lemma ScheduleSays(s: Ndp, c: NudConfig, shut: bool, ip: Ip)
    ensures var t := ScheduleNs(s, c, shut, ip);
            t.out == s.out && (ip in t.table ==> ip in s.table && t.table[ip] == s.table[ip])
  {
  }

  lemma StartSays(s: Ndp, c: NudConfig, shut: bool, ip: Ip)
    requires Sized(c) && NdpInv(s, c) && Resolved(s, ip)
    ensures var t := StartNud(s, c, shut, ip);
            && (InGroup(t, c, ip) || Between(t, c, ip) || Lost(t, ip))
            && (Unencumbered(s, c, ip) ==> Probing(t, c, ip))
            && ProbeBegun(s, t, c, shut, ip)
            && (c.attempts == 0 ==> t.log == s.log && Callbacks(t, ip) == t.loose[ip] == Callbacks(s, ip))
  {
    assert TidyAt(s, c, ip);
    StartSolicits(s, c, shut, ip);
    if Unencumbered(s, c, ip) { StartKeeps(c, ip, s, shut); }
    if c.attempts == 0 { ZeroStart(c, ip, s, shut); }
  }
}
