/**
  Runs of the whole callback machinery: posts through a ProcessQueueRef, delayed slots,
  fired tokens travelling through the process queue, and the release of a ref
  (ControlScheduler.h:71-130, 530-663, 843-870; ControlScheduler.cpp:378-579).

  Steps are coarse: each delayed-slot operation is one step.  A job is a task object that
  holds a callback or a fired-slot token: first a temporary of the posting call, then queued,
  then running.  Calls through a ref do not overlap its release, so the alive check
  and the increment of pending are one step.
 */
module TimerRuns {
  import Arith
  import opened Collections
  import opened Handles
  import opened DelayedSlots

  datatype Task =
    | Direct(cb: nat, owner: Owner)     // posted callback; owner's token travels with it
    | Token(i: nat, gen: nat)           // FiredDelayedToken for slot i

  datatype Stage = Temp | Queued | Running

  datatype Job = Job(task: Task, stage: Stage)

  datatype Ref = Ref(alive: bool, pending: int, released: bool)

  /** `started`, `cancelled` and `owners` (indexed by callback) are history. */
  datatype State = State(
    t: Table, jobs: map<nat, Job>, refs: map<nat, Ref>, nextJob: nat,
    started: seq<nat>, cancelled: set<nat>, owners: seq<Owner>)

  datatype Event =
    | NewRef(r: nat)
    | Post(owner: Owner)                      // enters post/postOwned with a fresh callback
    | Accept(j: nat) | Reject(j: nat)         // the ring took the task, or not
    | Schedule(owner: Owner, timer: bool)     // timer: the time manager accepted
    | Cancel(handle: nat)
    | Fire(i: nat, gen: nat, accepted: bool)  // a timer event, stale or not
    | Begin(j: nat) | End(j: nat) | Discard(j: nat)
    | BeginRelease(r: nat) | EndRelease(r: nat)

  predicate Live(s: State, owner: Owner) {
    owner.NoOwner? || (owner.r in s.refs && s.refs[owner.r].alive)
  }

  function Add(refs: map<nat, Ref>, owner: Owner, n: int): map<nat, Ref> {
    if owner.OwnedBy? && owner.r in refs
    then refs[owner.r := refs[owner.r].(pending := refs[owner.r].pending + n)]
    else refs
  }

  /** The callback and owner a job stands for. */
  predicate HasCallback(s: State, task: Task) {
    task.Direct? || InUse(s.t, task.i, task.gen)
  }

  function Callback(s: State, task: Task): nat
    requires HasCallback(s, task)
  {
    if task.Direct? then task.cb else s.t.slots[task.i].phase.cb
  }

  function OwnerOf(s: State, task: Task): Owner
    requires HasCallback(s, task)
  {
    if task.Direct? then task.owner else s.t.slots[task.i].phase.owner
  }

  predicate Enabled(s: State, e: Event) {
    && TableOk(s.t)
    && match e
       case NewRef(r) => r !in s.refs
       case Post(owner) => Live(s, owner)
       case Accept(j) => j in s.jobs && s.jobs[j].stage == Temp
       case Reject(j) => j in s.jobs && s.jobs[j].stage == Temp
       case Schedule(owner, _) => Live(s, owner) && s.t.free != []
       case Cancel(h) => CanCancel(s.t, h)
       case Fire(i, gen, _) => CanFire(s.t, i, gen)
       case Begin(j) => j in s.jobs && s.jobs[j].stage == Queued
       case End(j) => j in s.jobs && s.jobs[j].stage == Running
       case Discard(j) => j in s.jobs && s.jobs[j].stage == Queued
       case BeginRelease(r) => r in s.refs
       case EndRelease(r) => r in s.refs && !s.refs[r].alive && s.refs[r].pending == 0
  }

  /** Destroying a job destroys what it holds: its callback's token, or the slot its token names. */
  function Destroy(s: State, j: nat): State
    requires TableOk(s.t) && j in s.jobs
  {
    var task := s.jobs[j].task;
    var s1 := s.(jobs := s.jobs - {j});
    if task.Direct? then s1.(refs := Add(s.refs, task.owner, -1))
    else if InUse(s.t, task.i, task.gen) then
      s1.(t := Finish(s.t, task.i, task.gen), refs := Add(s.refs, s.t.slots[task.i].phase.owner, -1))
    else s1
  }

  function Apply(s: State, e: Event): State
    requires Enabled(s, e)
  {
    match e
    case NewRef(r) => s.(refs := s.refs[r := Ref(true, 0, false)])
    case Post(owner) =>
      s.(refs := Add(s.refs, owner, 1), owners := s.owners + [owner], nextJob := s.nextJob + 1,
         jobs := s.jobs[s.nextJob := Job(Direct(|s.owners|, owner), Temp)])
    case Accept(j) => s.(jobs := s.jobs[j := s.jobs[j].(stage := Queued)])
    case Reject(j) => Destroy(s, j)
    case Schedule(owner, timer) =>
      var armed := s.(t := Arm(s.t, |s.owners|, owner), refs := Add(s.refs, owner, 1), owners := s.owners + [owner]);
      if timer then armed
      else armed.(t := Free(armed.t, s.t.free[0]), refs := Add(armed.refs, owner, -1))
    case Cancel(h) =>
      var i := UnpackIndex(s.t.w, s.t.bits, h);
      s.(t := Free(s.t, i), refs := Add(s.refs, s.t.slots[i].phase.owner, -1),
         cancelled := s.cancelled + {s.t.slots[i].phase.cb})
    case Fire(i, gen, accepted) =>
      if accepted then
        s.(t := DelayedSlots.Fire(s.t, i, gen), nextJob := s.nextJob + 1,
           jobs := s.jobs[s.nextJob := Job(Token(i, gen), Queued)])
      else
        // the rejected task's token discards the slot, then onTimerFired discards it again
        s.(t := Finish(Finish(DelayedSlots.Fire(s.t, i, gen), i, gen), i, gen),
            refs := Add(s.refs, s.t.slots[i].phase.owner, -1))
    case Begin(j) =>
      var task := s.jobs[j].task;
      s.(jobs := s.jobs[j := s.jobs[j].(stage := Running)],
         started := if HasCallback(s, task) && Live(s, OwnerOf(s, task)) then s.started + [Callback(s, task)]
             else s.started)
    case End(j) => Destroy(s, j)
    case Discard(j) => Destroy(s, j)
    case BeginRelease(r) => s.(refs := s.refs[r := s.refs[r].(alive := false)])
    case EndRelease(r) => s.(refs := s.refs[r := s.refs[r].(released := true)])
  }

  function Init(w: nat, bits: nat, max: nat): State {
    State(Table(w, bits, seq(max, i => Slot(1, Vacant)), seq(max, i => i)), map[], map[], 0, [], {}, [])
  }

  // ---------------------------------------------------------------------
  // Invariant 1: slots and tokens
  // ---------------------------------------------------------------------

  predicate IsToken(s: State, j: nat, i: nat) {
    j in s.jobs && s.jobs[j].task.Token? && s.jobs[j].task.i == i
  }

  predicate TokenAt(s: State, j: nat)
    requires j in s.jobs
  {
    s.jobs[j].task.Token? ==>
      && s.jobs[j].task.i < |s.t.slots|
      && s.t.slots[s.jobs[j].task.i].phase.Fired?
      && s.t.slots[s.jobs[j].task.i].gen == s.jobs[j].task.gen
      && s.jobs[j].stage != Temp
  }

  /** Every token names a fired slot, every fired slot has exactly one token. */
  ghost predicate SlotsOk(s: State) {
    && TableOk(s.t)
    && (forall j :: j in s.jobs ==> j < s.nextJob && TokenAt(s, j))
    && (forall j, k, i :: IsToken(s, j, i) && IsToken(s, k, i) ==> j == k)
    && (forall i :: 0 <= i < |s.t.slots| && s.t.slots[i].phase.Fired? ==> exists j :: IsToken(s, j, i))
  }

  lemma ArmedAt(s: State, e: Event) returns (i: nat)
    requires TableOk(s.t) && Enabled(s, e) && (e.Cancel? || e.Fire?)
    ensures i < |s.t.slots| && s.t.slots[i].phase.Armed?
    ensures e.Fire? ==> i == e.i
    ensures e.Cancel? ==> i == UnpackIndex(s.t.w, s.t.bits, e.handle)
  {
    i := if e.Fire? then e.i else UnpackIndex(s.t.w, s.t.bits, e.handle);
  }

  /** Discarding the same fired token twice frees the slot once. */
  lemma DiscardTwice(t: Table, i: nat, gen: nat)
    requires TableOk(t) && CanFire(t, i, gen)
    ensures TableOk(DelayedSlots.Fire(t, i, gen))
    ensures Finish(Finish(DelayedSlots.Fire(t, i, gen), i, gen), i, gen) == Free(DelayedSlots.Fire(t, i, gen), i) ==
            Free(t, i)
    ensures TableOk(Free(t, i))
  {
    TouchKeeps(t, i, Slot(gen, Fired(t.slots[i].phase.cb, t.slots[i].phase.owner)));
    FreeKeeps(t, i);
  }

  /** Steps that leave jobs and fired slots alone. */
  lemma SlotsSameJobs(s: State, s': State)
    requires SlotsOk(s) && TableOk(s'.t) && s'.jobs == s.jobs && s'.nextJob == s.nextJob && |s'.t.slots| == |s.t.slots|
    requires forall i ::
               0 <= i < |s.t.slots| ==>
                   s'.t.slots[i] == s.t.slots[i] || (!s.t.slots[i].phase.Fired? && !s'.t.slots[i].phase.Fired?)
    ensures SlotsOk(s')
  {
    forall j | j in s'.jobs ensures TokenAt(s', j) { assert TokenAt(s, j); }
    forall j, k, i | IsToken(s', j, i) && IsToken(s', k, i) ensures j == k {
      assert IsToken(s, j, i) && IsToken(s, k, i);
    }
    forall i | 0 <= i < |s'.t.slots| && s'.t.slots[i].phase.Fired? ensures exists j :: IsToken(s', j, i) {
      var j :| IsToken(s, j, i);
      assert IsToken(s', j, i);
    }
  }

  lemma SlotsScheduleStep(s: State, e: Event)
    requires SlotsOk(s) && Enabled(s, e) && e.Schedule?
    ensures SlotsOk(Apply(s, e))
  {
    var s' := Apply(s, e);
    var i := s.t.free[0];
    assert s.t.slots[i].phase.Vacant?;
    ArmKeeps(s.t, |s.owners|, e.owner);
    if !e.timer { FreeKeeps(Arm(s.t, |s.owners|, e.owner), i); }
    SlotsSameJobs(s, s');
  }

  /** Freeing an armed slot (cancel, or a fire whose post is rejected). */
  lemma SlotsFreeArmed(s: State, i: nat, s': State)
    requires SlotsOk(s) && i < |s.t.slots| && s.t.slots[i].phase.Armed?
    requires s'.t == Free(s.t, i) && s'.jobs == s.jobs && s'.nextJob == s.nextJob
    ensures SlotsOk(s')
  {
    FreeKeeps(s.t, i);
    SlotsSameJobs(s, s');
  }

  lemma SlotsFireStep(s: State, e: Event)
    requires SlotsOk(s) && Enabled(s, e) && e.Fire? && e.accepted
    ensures SlotsOk(Apply(s, e))
  {
    var s' := Apply(s, e);
    TouchKeeps(s.t, e.i, Slot(e.gen, Fired(s.t.slots[e.i].phase.cb, s.t.slots[e.i].phase.owner)));
    forall j | j in s'.jobs ensures j < s'.nextJob && TokenAt(s', j) { assert j != s.nextJob ==> TokenAt(s, j); }
    forall j, k, i | IsToken(s', j, i) && IsToken(s', k, i) ensures j == k {
      if i != e.i { assert IsToken(s, j, i) && IsToken(s, k, i); }
      else {
        assert j in s.jobs ==> TokenAt(s, j);
        assert k in s.jobs ==> TokenAt(s, k);
      }
    }
    assert IsToken(s', s.nextJob, e.i);
    forall k | 0 <= k < |s'.t.slots| && s'.t.slots[k].phase.Fired? ensures exists j :: IsToken(s', j, k) {
      if k != e.i {
        var j :| IsToken(s, j, k);
        assert IsToken(s', j, k);
      }
    }
  }

  /** A token's end always finds its slot: it frees the slot, and only it does. */
  lemma SlotsDestroy(s: State, j: nat)
    requires SlotsOk(s) && j in s.jobs
    ensures s.jobs[j].task.Token? ==> InUse(s.t, s.jobs[j].task.i, s.jobs[j].task.gen)
    ensures SlotsOk(Destroy(s, j))
  {
    var s' := Destroy(s, j);
    assert TokenAt(s, j);
    var task := s.jobs[j].task;
    if task.Token? { FreeKeeps(s.t, task.i); assert IsToken(s, j, task.i); }
    forall k | k in s'.jobs ensures TokenAt(s', k) {
      assert TokenAt(s, k);
      assert task.Token? && IsToken(s, k, task.i) ==> k == j;
    }
    forall k, l, i | IsToken(s', k, i) && IsToken(s', l, i) ensures k == l {
      assert IsToken(s, k, i) && IsToken(s, l, i);
    }
    forall i | 0 <= i < |s'.t.slots| && s'.t.slots[i].phase.Fired? ensures exists k :: IsToken(s', k, i) {
      var k :| IsToken(s, k, i);
      assert IsToken(s', k, i);
    }
  }

  /** Steps that leave the table alone and only restage or add direct jobs. */
  lemma SlotsSameTable(s: State, s': State)
    requires SlotsOk(s) && s'.t == s.t && s'.nextJob >= s.nextJob
    requires forall j :: j in s.jobs ==> j in s'.jobs && s'.jobs[j].task == s.jobs[j].task
    requires forall j :: j in s'.jobs && j !in s.jobs ==> s'.jobs[j].task.Direct? && j < s'.nextJob
    requires forall j :: j in s'.jobs && s'.jobs[j].task.Token? ==> s'.jobs[j].stage != Temp
    ensures SlotsOk(s')
  {
    forall j | j in s'.jobs ensures j < s'.nextJob && TokenAt(s', j) { assert j in s.jobs ==> TokenAt(s, j); }
    forall j, k, i | IsToken(s', j, i) && IsToken(s', k, i) ensures j == k {
      assert IsToken(s, j, i) && IsToken(s, k, i);
    }
    forall i | 0 <= i < |s'.t.slots| && s'.t.slots[i].phase.Fired? ensures exists j :: IsToken(s', j, i) {
      var j :| IsToken(s, j, i);
      assert IsToken(s', j, i);
    }
  }

  lemma SlotsStep(s: State, e: Event)
    requires SlotsOk(s) && Enabled(s, e)
    ensures SlotsOk(Apply(s, e))
  {
    forall j | j in s.jobs ensures s.jobs[j].task.Token? ==> s.jobs[j].stage != Temp { assert TokenAt(s, j); }
    match e {
      case Schedule(_, _) => SlotsScheduleStep(s, e);
      case Cancel(_) =>
        var i := ArmedAt(s, e);
        SlotsFreeArmed(s, i, Apply(s, e));
      case Fire(i, gen, accepted) =>
        if accepted { SlotsFireStep(s, e); } else {
          DiscardTwice(s.t, i, gen);
          SlotsFreeArmed(s, i, Apply(s, e));
        }
      case Reject(j) => SlotsDestroy(s, j);
      case End(j) => SlotsDestroy(s, j);
      case Discard(j) => SlotsDestroy(s, j);
      case _ => SlotsSameTable(s, Apply(s, e));
    }
  }

  // ---------------------------------------------------------------------
  // Invariant 2: pending counts live tokens
  // ---------------------------------------------------------------------

  function OwnJobs(s: State, r: nat): set<nat> {
    set j | j in s.jobs && s.jobs[j].task.Direct? && s.jobs[j].task.owner == OwnedBy(r)
  }

  function OwnSlots(t: Table, r: nat): set<nat> {
    set i | i in Below(|t.slots|) && !t.slots[i].phase.Vacant? && t.slots[i].phase.owner == OwnedBy(r)
  }

  /** One token per job or slot that holds a callback of r. */
  function LiveTokens(s: State, r: nat): nat { |OwnJobs(s, r)| + |OwnSlots(s.t, r)| }

  ghost predicate CountOk(s: State) {
    && (forall r :: r in s.refs ==> s.refs[r].pending == LiveTokens(s, r))
    && (forall r :: r !in s.refs ==> LiveTokens(s, r) == 0)
    && (forall r :: r in s.refs && s.refs[r].released ==> !s.refs[r].alive && s.refs[r].pending == 0)
  }

  lemma SetGrows(a: set<nat>, b: set<nat>, x: nat)
    requires x !in a && b == a + {x}
    ensures |b| == |a| + 1
  {
  }

  lemma OwnSlotsSet(t: Table, t': Table, i: nat, r: nat)
    requires i < |t.slots| && |t'.slots| == |t.slots|
    requires forall k :: 0 <= k < |t.slots| && k != i ==> t'.slots[k] == t.slots[k]
    ensures var was := !t.slots[i].phase.Vacant? && t.slots[i].phase.owner == OwnedBy(r);
            var isNow := !t'.slots[i].phase.Vacant? && t'.slots[i].phase.owner == OwnedBy(r);
            |OwnSlots(t', r)| == |OwnSlots(t, r)| + (if isNow then 1 else 0) - (if was then 1 else 0)
  {
    var a, b := OwnSlots(t, r), OwnSlots(t', r);
    assert forall k: nat :: k != i ==> (k in a <==> k in b);
    SetsDiffer(a, b, i);
  }

  lemma SetsDiffer(a: set<nat>, b: set<nat>, i: nat)
    requires forall k: nat :: k != i ==> (k in a <==> k in b)
    ensures |b| == |a| + (if i in b then 1 else 0) - (if i in a then 1 else 0)
  {
    assert a - {i} == b - {i};
    assert i !in a ==> a - {i} == a;
    assert i !in b ==> b - {i} == b;
  }

  lemma OwnJobsAdd(s: State, s': State, j: nat, r: nat)
    requires j !in s.jobs && j in s'.jobs && s.jobs == s'.jobs - {j}
    ensures |OwnJobs(s', r)| ==
            |OwnJobs(s, r)| + (if s'.jobs[j].task.Direct? && s'.jobs[j].task.owner == OwnedBy(r) then 1 else 0)
  {
    forall k | k in s.jobs ensures k in s'.jobs && s'.jobs[k] == s.jobs[k] { }
    if s'.jobs[j].task.Direct? && s'.jobs[j].task.owner == OwnedBy(r) {
      SetGrows(OwnJobs(s, r), OwnJobs(s', r), j);
    } else {
      assert OwnJobs(s', r) == OwnJobs(s, r);
    }
  }

  lemma OwnJobsSame(s: State, s': State, r: nat)
    requires s.jobs.Keys == s'.jobs.Keys && forall j :: j in s.jobs ==> s'.jobs[j].task == s.jobs[j].task
    ensures OwnJobs(s', r) == OwnJobs(s, r)
  {
  }

  /** The number of tokens of r that `owner` accounts for. */
  function Tick(owner: Owner, r: nat): nat { if owner == OwnedBy(r) then 1 else 0 }

  /** A step that changes pending through Add and the number of live tokens by the same amount. */
  lemma CountAdd(s: State, s': State, owner: Owner, n: int)
    requires CountOk(s) && s'.refs == Add(s.refs, owner, n)
    requires forall r :: LiveTokens(s', r) == LiveTokens(s, r) + n * Tick(owner, r)
    requires n > 0 ==> Live(s, owner)
    requires n == 1 || n == -1
    ensures CountOk(s')
  {
    forall r | r in s'.refs ensures s'.refs[r].pending == LiveTokens(s', r) {
      assert Tick(owner, r) == 0 || owner == OwnedBy(r);
    }
    if owner.OwnedBy? && n == -1 {
      var r := owner.r;
      assert LiveTokens(s', r) == LiveTokens(s, r) + n * Tick(owner, r);
    }
  }

  lemma CountDestroy(s: State, j: nat)
    requires SlotsOk(s) && CountOk(s) && j in s.jobs
    ensures CountOk(Destroy(s, j))
  {
    SlotsDestroy(s, j);
    var s' := Destroy(s, j);
    var task := s.jobs[j].task;
    var owner := OwnerOf(s, task);
    forall r ensures LiveTokens(s', r) == LiveTokens(s, r) - Tick(owner, r) {
      OwnJobsAdd(s', s, j, r);
      if task.Token? { OwnSlotsSet(s.t, s'.t, task.i, r); }
    }
    CountAdd(s, s', owner, -1);
  }

  lemma CountFreeSlot(s: State, i: nat, s': State)
    requires SlotsOk(s) && CountOk(s) && i < |s.t.slots| && !s.t.slots[i].phase.Vacant?
    requires s'.t == Free(s.t, i) && s'.jobs == s.jobs && s'.refs == Add(s.refs, s.t.slots[i].phase.owner, -1)
    ensures CountOk(s')
  {
    forall r ensures LiveTokens(s', r) == LiveTokens(s, r) - Tick(s.t.slots[i].phase.owner, r) {
      OwnSlotsSet(s.t, s'.t, i, r);
      OwnJobsSame(s, s', r);
    }
    CountAdd(s, s', s.t.slots[i].phase.owner, -1);
  }

  lemma CountSchedule(s: State, e: Event)
    requires SlotsOk(s) && CountOk(s) && Enabled(s, e) && e.Schedule?
    ensures CountOk(Apply(s, e))
  {
    var i := s.t.free[0];
    assert s.t.slots[i].phase.Vacant?;
    var armed := s.(t := Arm(s.t, |s.owners|, e.owner), refs := Add(s.refs, e.owner, 1),
        owners := s.owners + [e.owner]);
    forall r ensures LiveTokens(armed, r) == LiveTokens(s, r) + Tick(e.owner, r) {
      OwnSlotsSet(s.t, armed.t, i, r);
      OwnJobsSame(s, armed, r);
    }
    CountAdd(s, armed, e.owner, 1);
    if !e.timer {
      SlotsScheduleStep(s, Schedule(e.owner, true));
      CountFreeSlot(armed, i, Apply(s, e));
    }
  }

  lemma CountSame(s: State, s': State)
    requires CountOk(s)
    requires forall r :: LiveTokens(s', r) == LiveTokens(s, r)
    requires s.refs.Keys <= s'.refs.Keys
    requires forall r :: r in s'.refs ==> s'.refs[r].pending == (if r in s.refs then s.refs[r].pending else 0)
    requires forall r :: r in s'.refs && s'.refs[r].released ==> !s'.refs[r].alive && s'.refs[r].pending == 0
    ensures CountOk(s')
  {
  }

  lemma CountPost(s: State, e: Event)
    requires SlotsOk(s) && CountOk(s) && Enabled(s, e) && e.Post?
    ensures CountOk(Apply(s, e))
  {
    var s' := Apply(s, e);
    forall r ensures LiveTokens(s', r) == LiveTokens(s, r) + Tick(e.owner, r) { OwnJobsAdd(s, s', s.nextJob, r); }
    CountAdd(s, s', e.owner, 1);
  }

  lemma CountFire(s: State, e: Event)
    requires SlotsOk(s) && CountOk(s) && Enabled(s, e) && e.Fire? && e.accepted
    ensures CountOk(Apply(s, e))
  {
    var s' := Apply(s, e);
    forall r ensures LiveTokens(s', r) == LiveTokens(s, r) {
      OwnJobsAdd(s, s', s.nextJob, r);
      OwnSlotsSet(s.t, s'.t, e.i, r);
    }
    CountSame(s, s');
  }

  lemma CountStep(s: State, e: Event)
    requires SlotsOk(s) && CountOk(s) && Enabled(s, e)
    ensures CountOk(Apply(s, e))
  {
    var s' := Apply(s, e);
    match e {
      case Post(_) => CountPost(s, e);
      case Schedule(_, _) => CountSchedule(s, e);
      case Cancel(_) =>
        var i := ArmedAt(s, e);
        CountFreeSlot(s, i, s');
      case Fire(i, gen, accepted) =>
        if accepted { CountFire(s, e); } else {
          DiscardTwice(s.t, i, gen);
          CountFreeSlot(s, i, s');
        }
      case Reject(j) => CountDestroy(s, j);
      case End(j) => CountDestroy(s, j);
      case Discard(j) => CountDestroy(s, j);
      case _ =>
        forall r ensures LiveTokens(s', r) == LiveTokens(s, r) { OwnJobsSame(s, s', r); }
        CountSame(s, s');
    }
  }

  // ---------------------------------------------------------------------
  // Invariant 3: callbacks
  // ---------------------------------------------------------------------

  predicate JobHas(s: State, j: nat, cb: nat) { j in s.jobs && s.jobs[j].task.Direct? && s.jobs[j].task.cb == cb }

  predicate SlotHas(s: State, i: nat, cb: nat) {
    i < |s.t.slots| && !s.t.slots[i].phase.Vacant? && s.t.slots[i].phase.cb == cb
  }

  /** A callback lives in at most one place, which knows its owner. */
  ghost predicate PlacesOk(s: State) {
    && (forall j: nat, cb: nat :: JobHas(s, j, cb) ==> cb < |s.owners| && s.owners[cb] == s.jobs[j].task.owner)
    && (forall i: nat, cb: nat :: SlotHas(s, i, cb) ==> cb < |s.owners| && s.owners[cb] == s.t.slots[i].phase.owner)
    && (forall j: nat, k: nat, cb: nat :: JobHas(s, j, cb) && JobHas(s, k, cb) ==> j == k)
    && (forall i: nat, k: nat, cb: nat :: SlotHas(s, i, cb) && SlotHas(s, k, cb) ==> i == k)
    && (forall j: nat, i: nat, cb: nat :: JobHas(s, j, cb) ==> !SlotHas(s, i, cb))
  }

  /** A started callback that still exists is inside a running job; a cancelled one exists nowhere and never started. */
  ghost predicate StartedOk(s: State) {
    && Distinct(s.started)
    && (forall cb: nat :: cb in s.started ==> cb < |s.owners|)
    && (forall j: nat, cb: nat :: JobHas(s, j, cb) && cb in s.started ==> s.jobs[j].stage == Running)
    && (forall i: nat, cb: nat :: SlotHas(s, i, cb) && cb in s.started ==> s.t.slots[i].phase.Fired?)
    && (forall j: nat, i: nat, cb: nat :: SlotHas(s, i, cb) && cb in s.started && IsToken(s, j, i) ==>
       s.jobs[j].stage == Running)
    && (forall cb: nat :: cb in s.cancelled ==> cb < |s.owners| && cb !in s.started)
    && (forall i: nat, cb: nat :: SlotHas(s, i, cb) ==> cb !in s.cancelled)
    && (forall j: nat, cb: nat :: JobHas(s, j, cb) ==> cb !in s.cancelled)
  }

  ghost predicate CallbacksOk(s: State) { PlacesOk(s) && StartedOk(s) }

  /** A step that only removes places, without starting anything. */
  lemma CallbacksShrink(s: State, s': State)
    requires CallbacksOk(s)
    requires s'.started == s.started && s'.cancelled == s.cancelled && s'.owners == s.owners
    requires forall j: nat, cb: nat :: JobHas(s', j, cb) ==> JobHas(s, j, cb) && s'.jobs[j] == s.jobs[j]
    requires forall i: nat, cb: nat :: SlotHas(s', i, cb) ==> SlotHas(s, i, cb) && s'.t.slots[i] == s.t.slots[i]
    requires forall j: nat, i: nat :: IsToken(s', j, i) ==> IsToken(s, j, i) && s'.jobs[j] == s.jobs[j]
    ensures CallbacksOk(s')
  {
  }

  lemma CallbacksDestroy(s: State, j: nat)
    requires SlotsOk(s) && CallbacksOk(s) && j in s.jobs
    ensures CallbacksOk(Destroy(s, j))
  {
    SlotsDestroy(s, j);
    CallbacksShrink(s, Destroy(s, j));
  }

  /** A fresh callback in a new place. */
  lemma CallbacksPost(s: State, e: Event)
    requires SlotsOk(s) && CallbacksOk(s) && Enabled(s, e) && e.Post?
    ensures CallbacksOk(Apply(s, e))
  {
    var s' := Apply(s, e);
    var cb := |s.owners|;
    forall j: nat, c: nat | JobHas(s', j, c) ensures JobHas(s, j, c) || (j == s.nextJob && c == cb) { }
    forall j: nat, i: nat | IsToken(s', j, i) ensures IsToken(s, j, i) { }
    forall i: nat, c: nat | SlotHas(s', i, c) ensures SlotHas(s, i, c) { }
  }

  lemma CallbacksSchedule(s: State, e: Event)
    requires SlotsOk(s) && CallbacksOk(s) && Enabled(s, e) && e.Schedule?
    ensures CallbacksOk(Apply(s, e))
  {
    var s' := Apply(s, e);
    var cb, i0 := |s.owners|, s.t.free[0];
    assert s.t.slots[i0].phase.Vacant?;
    forall j: nat, c: nat | JobHas(s', j, c) ensures JobHas(s, j, c) { }
    forall j: nat, i: nat | IsToken(s', j, i) ensures IsToken(s, j, i) && i != i0 { assert TokenAt(s, j); }
    forall i: nat, c: nat | SlotHas(s', i, c) ensures SlotHas(s, i, c) || (i == i0 && c == cb) { }
  }

  lemma CallbacksCancel(s: State, e: Event)
    requires SlotsOk(s) && CallbacksOk(s) && Enabled(s, e) && e.Cancel?
    ensures CallbacksOk(Apply(s, e))
  {
    var s' := Apply(s, e);
    var i0 := ArmedAt(s, e);
    assert SlotHas(s, i0, s.t.slots[i0].phase.cb);
    forall j: nat, c: nat | JobHas(s', j, c) ensures JobHas(s, j, c) { }
    forall i: nat, c: nat | SlotHas(s', i, c) ensures SlotHas(s, i, c) && i != i0 { }
    forall j: nat, i: nat | IsToken(s', j, i) ensures IsToken(s, j, i) { }
  }

  lemma CallbacksFire(s: State, e: Event)
    requires SlotsOk(s) && CallbacksOk(s) && Enabled(s, e) && e.Fire?
    ensures CallbacksOk(Apply(s, e))
  {
    var s' := Apply(s, e);
    assert SlotHas(s, e.i, s.t.slots[e.i].phase.cb);
    if !e.accepted {
      DiscardTwice(s.t, e.i, e.gen);
      CallbacksShrink(s, s');
    } else {
      forall j: nat, c: nat | JobHas(s', j, c) ensures JobHas(s, j, c) && s'.jobs[j] == s.jobs[j] { }
      forall i: nat, c: nat | SlotHas(s', i, c) ensures SlotHas(s, i, c) { }
      forall j: nat, i: nat | IsToken(s', j, i)
        ensures j == s.nextJob || (IsToken(s, j, i) && s'.jobs[j] == s.jobs[j])
      {
      }
    }
  }

  /** The callback of a queued job has not been started. */
  lemma QueuedNotStarted(s: State, j: nat)
    requires SlotsOk(s) && CallbacksOk(s) && j in s.jobs && s.jobs[j].stage != Running
    ensures HasCallback(s, s.jobs[j].task) && Callback(s, s.jobs[j].task) !in s.started
    ensures Callback(s, s.jobs[j].task) < |s.owners| && Callback(s, s.jobs[j].task) !in s.cancelled
    ensures s.owners[Callback(s, s.jobs[j].task)] == OwnerOf(s, s.jobs[j].task)
  {
    assert TokenAt(s, j);
    var task := s.jobs[j].task;
    if task.Direct? { assert JobHas(s, j, task.cb); }
    else { assert IsToken(s, j, task.i) && SlotHas(s, task.i, s.t.slots[task.i].phase.cb); }
  }

  lemma CallbacksBegin(s: State, e: Event)
    requires SlotsOk(s) && CallbacksOk(s) && Enabled(s, e) && e.Begin?
    ensures CallbacksOk(Apply(s, e))
  {
    var s' := Apply(s, e);
    QueuedNotStarted(s, e.j);
    var task := s.jobs[e.j].task;
    var cb := Callback(s, task);
    assert s'.started == s.started || s'.started == s.started + [cb];
    assert TokenAt(s, e.j);
    if task.Direct? { assert JobHas(s, e.j, cb); }
    else { assert SlotHas(s, task.i, cb) && IsToken(s, e.j, task.i); }
    forall j: nat, c: nat | JobHas(s', j, c) ensures JobHas(s, j, c) { }
    forall i: nat, c: nat | SlotHas(s', i, c) ensures SlotHas(s, i, c) { }
    forall j: nat, i: nat | IsToken(s', j, i) ensures IsToken(s, j, i) { }
  }

  lemma CallbacksStep(s: State, e: Event)
    requires SlotsOk(s) && CallbacksOk(s) && Enabled(s, e)
    ensures CallbacksOk(Apply(s, e))
  {
    match e {
      case Post(_) => CallbacksPost(s, e);
      case Schedule(_, _) => CallbacksSchedule(s, e);
      case Cancel(_) => CallbacksCancel(s, e);
      case Fire(_, _, _) => CallbacksFire(s, e);
      case Begin(_) => CallbacksBegin(s, e);
      case Reject(j) => CallbacksDestroy(s, j);
      case End(j) => CallbacksDestroy(s, j);
      case Discard(j) => CallbacksDestroy(s, j);
      case Accept(j) => CallbacksAccept(s, j);
      case _ => CallbacksShrink(s, Apply(s, e));
    }
  }

  lemma CallbacksAccept(s: State, j: nat)
    requires SlotsOk(s) && CallbacksOk(s) && Enabled(s, Accept(j))
    ensures CallbacksOk(Apply(s, Accept(j)))
  {
    var s' := Apply(s, Accept(j));
    assert TokenAt(s, j);
    forall k: nat, c: nat | JobHas(s', k, c) ensures JobHas(s, k, c) { }
    forall i: nat, c: nat | SlotHas(s', i, c) ensures SlotHas(s, i, c) { }
    forall k: nat, i: nat | IsToken(s', k, i) ensures IsToken(s, k, i) && s'.jobs[k] == s.jobs[k] { }
  }

  // ---------------------------------------------------------------------
  // Runs
  // ---------------------------------------------------------------------

  ghost predicate Inv(s: State) { SlotsOk(s) && CountOk(s) && CallbacksOk(s) }

  predicate CanRun(s: State, trace: seq<Event>)
    decreases |trace|
  {
    trace == [] || (Enabled(s, trace[0]) && CanRun(Apply(s, trace[0]), trace[1..]))
  }

  function RunAll(s: State, trace: seq<Event>): State
    requires CanRun(s, trace)
    decreases |trace|
  {
    if trace == [] then s else RunAll(Apply(s, trace[0]), trace[1..])
  }

  lemma StepInv(s: State, e: Event)
    requires Inv(s) && Enabled(s, e)
    ensures Inv(Apply(s, e))
  {
    SlotsStep(s, e);
    CountStep(s, e);
    CallbacksStep(s, e);
  }

  lemma {:induction false} RunInv(s: State, trace: seq<Event>)
    requires Inv(s) && CanRun(s, trace)
    ensures Inv(RunAll(s, trace))
    decreases |trace|
  {
    if trace != [] {
      StepInv(s, trace[0]);
      RunInv(Apply(s, trace[0]), trace[1..]);
    }
  }

  predicate Capacity(w: nat, bits: nat, max: nat) { bits < w && max <= Arith.Pow2(bits) }

  lemma InitInv(w: nat, bits: nat, max: nat)
    requires Capacity(w, bits, max)
    ensures Inv(Init(w, bits, max))
  {
    var s := Init(w, bits, max);
    GenerationMaskIs(w, bits);
    forall i | 0 <= i < max ensures i in s.t.free { assert s.t.free[i] == i; }
    forall r: nat ensures LiveTokens(s, r) == 0 { assert OwnJobs(s, r) == {} && OwnSlots(s.t, r) == {}; }
  }

  /**
    Conservation over every run: free and in-use slots number the maximum, an armed or vacant
    slot has no token, and a fired slot has exactly one.
   */
  lemma SlotCensus(w: nat, bits: nat, max: nat, trace: seq<Event>, i: nat)
    requires Capacity(w, bits, max) && CanRun(Init(w, bits, max), trace)
    requires i < |RunAll(Init(w, bits, max), trace).t.slots|
    ensures var s := RunAll(Init(w, bits, max), trace);
            && |s.t.free| + |UsedSlots(s.t)| == |s.t.slots|
            && Distinct(s.t.free) && (i in s.t.free <==> s.t.slots[i].phase.Vacant?)
            && (s.t.slots[i].phase.Fired? <==> exists j :: IsToken(s, j, i))
            && (forall j, k :: IsToken(s, j, i) && IsToken(s, k, i) ==> j == k)
  {
    InitInv(w, bits, max);
    RunInv(Init(w, bits, max), trace);
    var s := RunAll(Init(w, bits, max), trace);
    Conservation(s.t);
    forall j | IsToken(s, j, i) ensures s.t.slots[i].phase.Fired? { assert TokenAt(s, j); }
  }

  /** In every run each callback starts at most once, and one whose cancel succeeded never starts, before or after. */
  lemma AtMostOnceAndCancelIsFinal(w: nat, bits: nat, max: nat, trace: seq<Event>, cb: nat)
    requires Capacity(w, bits, max) && CanRun(Init(w, bits, max), trace)
    ensures var s := RunAll(Init(w, bits, max), trace);
            && multiset(s.started)[cb] <= 1
            && (cb in s.cancelled ==> cb !in s.started)
  {
    InitInv(w, bits, max);
    RunInv(Init(w, bits, max), trace);
    DistinctCount(RunAll(Init(w, bits, max), trace).started, cb);
  }

  lemma {:induction false} DistinctCount(q: seq<nat>, x: nat)
    requires Distinct(q)
    ensures multiset(q)[x] <= 1
  {
    if q != [] {
      DistinctCount(q[1..], x);
      assert q == [q[0]] + q[1..];
      assert q[0] !in q[1..];
    }
  }

  /** The end of a token's job, run or discarded, frees exactly its slot and moves it to the next generation. */
  lemma TokenEndFreesSlot(s: State, e: Event)
    requires Inv(s) && Enabled(s, e) && (e.End? || e.Discard?) && s.jobs[e.j].task.Token?
    ensures Apply(s, e).t == Free(s.t, s.jobs[e.j].task.i)
  {
    SlotsDestroy(s, e.j);
  }

  /** Nothing but the end of its token's job changes a fired slot. */
  lemma FiredSlotWaitsForToken(s: State, e: Event, i: nat)
    requires Inv(s) && Enabled(s, e) && i < |s.t.slots| && s.t.slots[i].phase.Fired?
    requires (e.End? || e.Discard?) ==> !IsToken(s, e.j, i)
    ensures i < |Apply(s, e).t.slots| && Apply(s, e).t.slots[i] == s.t.slots[i]
  {
    match e {
      case Schedule(_, _) => assert s.t.slots[s.t.free[0]].phase.Vacant?;
      case Reject(j) => assert TokenAt(s, j);
      case _ =>
    }
  }

  /** `pending` is the number of live tokens, in every run. */
  lemma PendingCountsTokens(w: nat, bits: nat, max: nat, trace: seq<Event>, r: nat)
    requires Capacity(w, bits, max) && CanRun(Init(w, bits, max), trace)
    requires r in RunAll(Init(w, bits, max), trace).refs
    ensures var s := RunAll(Init(w, bits, max), trace); s.refs[r].pending == LiveTokens(s, r)
  {
    InitInv(w, bits, max);
    RunInv(Init(w, bits, max), trace);
  }

  predicate Released(s: State, r: nat) { r in s.refs && s.refs[r].released }

  /** No job or slot, whatever its stage, holds a callback of r. */
  predicate NothingOf(s: State, r: nat) {
    && (forall j :: j in s.jobs && s.jobs[j].task.Direct? ==> s.jobs[j].task.owner != OwnedBy(r))
    && (forall i :: 0 <= i < |s.t.slots| && !s.t.slots[i].phase.Vacant? ==> s.t.slots[i].phase.owner != OwnedBy(r))
  }

  lemma ReleasedNothing(s: State, r: nat)
    requires Inv(s) && Released(s, r)
    ensures NothingOf(s, r)
  {
    assert |OwnJobs(s, r)| == 0 && |OwnSlots(s.t, r)| == 0;
    assert OwnJobs(s, r) == {} && OwnSlots(s.t, r) == {};
    forall j | j in s.jobs && s.jobs[j].task.Direct? ensures s.jobs[j].task.owner != OwnedBy(r) {
      assert j !in OwnJobs(s, r);
    }
    forall i | 0 <= i < |s.t.slots| && !s.t.slots[i].phase.Vacant? ensures s.t.slots[i].phase.owner != OwnedBy(r) {
      assert i !in OwnSlots(s.t, r);
    }
  }

  lemma ReleasedStays(s: State, e: Event, r: nat)
    requires Enabled(s, e) && Released(s, r)
    ensures Released(Apply(s, e), r)
  {
  }

  lemma OwnersGrow(s: State, e: Event)
    requires Enabled(s, e)
    ensures |s.owners| <= |Apply(s, e).owners| && Apply(s, e).owners[..|s.owners|] == s.owners
  {
  }

  /** Only Begin starts a callback, and never one of a released ref. */
  lemma StartsNoneOf(s: State, e: Event, r: nat)
    requires Inv(s) && Enabled(s, e) && Released(s, r)
    ensures Apply(s, e).started == s.started ||
            (|Apply(s, e).started| == |s.started| + 1 && Apply(s, e).started[..|s.started|] == s.started
             && var cb := Apply(s, e).started[|s.started|];
                cb < |s.owners| && s.owners[cb] != OwnedBy(r))
  {
    if e.Begin? { QueuedNotStarted(s, e.j); }
  }

  /**
    Ref lifetime.  Once release has returned for r, in every continuation no job or slot holds a
    callback of r (so none is queued, armed or running), and no callback of r starts.
   */
  lemma {:induction false} ReleaseIsFinal(s: State, trace: seq<Event>, r: nat)
    requires Inv(s) && CanRun(s, trace) && Released(s, r)
    ensures NothingOf(RunAll(s, trace), r)
    ensures StartedOthers(s, RunAll(s, trace), r)
    decreases |trace|
  {
    if trace == [] {
      ReleasedNothing(s, r);
    } else {
      var s1 := Apply(s, trace[0]);
      StepInv(s, trace[0]);
      ReleasedStays(s, trace[0], r);
      OwnersGrow(s, trace[0]);
      StartsNoneOf(s, trace[0], r);
      ReleaseIsFinal(s1, trace[1..], r);
      StartedPrefix(s1, trace[1..]);
      LaterStarts(s, s1, RunAll(s, trace), r);
    }
  }

  /** Callbacks that started between s and s' belong to refs other than r. */
  predicate StartedOthers(s: State, s': State, r: nat) {
    && |s.started| <= |s'.started| && |s.owners| <= |s'.owners| && s'.owners[..|s.owners|] == s.owners
    && forall n :: |s.started| <= n < |s'.started| ==>
       s'.started[n] < |s'.owners| && s'.owners[s'.started[n]] != OwnedBy(r)
  }

  lemma LaterStarts(s: State, s1: State, s': State, r: nat)
    requires StartedOthers(s, s1, r) && StartedOthers(s1, s', r) && s'.started[..|s1.started|] == s1.started
    ensures StartedOthers(s, s', r)
  {
    assert s'.owners[..|s.owners|] == s'.owners[..|s1.owners|][..|s.owners|];
    forall n | |s.started| <= n < |s'.started|
      ensures s'.started[n] < |s'.owners| && s'.owners[s'.started[n]] != OwnedBy(r)
    {
      if n < |s1.started| {
        assert s'.started[n] == s'.started[..|s1.started|][n] == s1.started[n];
        assert s'.owners[s1.started[n]] == s'.owners[..|s1.owners|][s1.started[n]] == s1.owners[s1.started[n]];
      }
    }
  }

  lemma {:induction false} StartedPrefix(s: State, trace: seq<Event>)
    requires CanRun(s, trace)
    ensures |s.started| <= |RunAll(s, trace).started| && RunAll(s, trace).started[..|s.started|] == s.started
    decreases |trace|
  {
    if trace != [] {
      var s1 := Apply(s, trace[0]);
      assert s1.started == s.started || s1.started[..|s.started|] == s.started;
      StartedPrefix(s1, trace[1..]);
      var s' := RunAll(s, trace);
      assert s'.started[..|s.started|] == s'.started[..|s1.started|][..|s.started|];
    }
  }

  // ---------------------------------------------------------------------
  // Handles name callbacks
  // ---------------------------------------------------------------------

  /** The event frees slot i. */
  predicate FreesSlot(s: State, e: Event, i: nat)
    requires Enabled(s, e) && i < |s.t.slots| && |Apply(s, e).t.slots| == |s.t.slots|
  {
    || (e.Schedule? && !e.timer && i == s.t.free[0])
    || (!s.t.slots[i].phase.Vacant? && Apply(s, e).t.slots[i].phase.Vacant?)
  }

  lemma TableShape(s: State, e: Event)
    requires Enabled(s, e)
    ensures var t := Apply(s, e).t; t.w == s.t.w && t.bits == s.t.bits && |t.slots| == |s.t.slots|
  {
  }

  /** An event moves a slot to its next generation exactly by freeing it; otherwise a slot in use keeps its callback. */
  lemma SlotStep(s: State, e: Event, i: nat)
    requires Inv(s) && Enabled(s, e) && i < |s.t.slots|
    ensures |Apply(s, e).t.slots| == |s.t.slots|
    ensures var a, b := s.t.slots[i], Apply(s, e).t.slots[i];
            if FreesSlot(s, e, i) then b.gen == NextGeneration(s.t.w, s.t.bits, a.gen)
            else b.gen == a.gen && (!a.phase.Vacant? ==> !b.phase.Vacant? && b.phase.cb == a.phase.cb)
  {
    TableShape(s, e);
    match e {
      case Schedule(_, _) => assert s.t.slots[s.t.free[0]].phase.Vacant?;
      case Reject(j) => assert TokenAt(s, j);
      case End(j) => assert TokenAt(s, j);
      case Discard(j) => assert TokenAt(s, j);
      case _ =>
    }
  }

  /** How often slot i is freed in a run. */
  function Frees(s: State, trace: seq<Event>, i: nat): nat
    requires CanRun(s, trace)
    decreases |trace|
  {
    if trace == [] then 0
    else
      var s1 := Apply(s, trace[0]);
      (if i < |s.t.slots| == |s1.t.slots| && FreesSlot(s, trace[0], i) then 1 else 0) + Frees(s1, trace[1..], i)
  }

  lemma {:induction false} FreedLater(w: nat, bits: nat, gen: nat, n: nat)
    requires bits < w
    ensures Freed(w, bits, gen, n + 1) == Freed(w, bits, NextGeneration(w, bits, gen), n)
  {
    if n > 0 { FreedLater(w, bits, gen, n - 1); }
  }

  lemma {:induction false} SlotRun(s: State, trace: seq<Event>, i: nat)
    requires Inv(s) && CanRun(s, trace) && i < |s.t.slots|
    ensures var t := RunAll(s, trace).t; t.w == s.t.w && t.bits == s.t.bits && |t.slots| == |s.t.slots|
    ensures RunAll(s, trace).t.slots[i].gen == Freed(s.t.w, s.t.bits, s.t.slots[i].gen, Frees(s, trace, i))
    ensures var a, b := s.t.slots[i].phase, RunAll(s, trace).t.slots[i].phase;
            Frees(s, trace, i) == 0 && !a.Vacant? ==> !b.Vacant? && b.cb == a.cb
    decreases |trace|
  {
    if trace != [] {
      var s1 := Apply(s, trace[0]);
      TableShape(s, trace[0]);
      SlotStep(s, trace[0], i);
      StepInv(s, trace[0]);
      SlotRun(s1, trace[1..], i);
      if FreesSlot(s, trace[0], i) { FreedLater(s.t.w, s.t.bits, s.t.slots[i].gen, Frees(s1, trace[1..], i)); }
    }
  }

  /**
    schedule arms callback |s.owners| in slot i and returns h.  As long as the slot has been freed fewer
    than mask times since, cancel(h) succeeds exactly while that callback is armed there, and then it is
    that callback, and no other, that is cancelled.
   */
  lemma CancelStopsItsCallback(s: State, owner: Owner, trace: seq<Event>, i: nat, h: nat)
    requires Inv(s) && Enabled(s, Schedule(owner, true)) && i == s.t.free[0]
    requires h == Pack(s.t.w, s.t.bits, i, s.t.slots[i].gen)
    requires var s1 := Apply(s, Schedule(owner, true));
             CanRun(s1, trace) && Frees(s1, trace, i) < GenerationMask(s.t.w, s.t.bits)
    ensures var s2 := RunAll(Apply(s, Schedule(owner, true)), trace);
            && |s2.t.slots| == |s.t.slots|
            && (Enabled(s2, Cancel(h)) <==>
               Frees(Apply(s, Schedule(owner, true)), trace, i) == 0 && s2.t.slots[i].phase.Armed?)
            && (Enabled(s2, Cancel(h)) ==>
                  s2.t.slots[i].phase.cb == |s.owners| && Apply(s2, Cancel(h)).cancelled == s2.cancelled + {|s.owners|})
  {
    var s1 := Apply(s, Schedule(owner, true));
    var gen, n := s.t.slots[i].gen, Frees(s1, trace, i);
    StepInv(s, Schedule(owner, true));
    assert s1.t.slots[i] == Slot(gen, Armed(|s.owners|, owner));
    RunInv(s1, trace);
    SlotRun(s1, trace, i);
    HandleMatches(RunAll(s1, trace), i, gen, n, |s.owners|);
  }

  /**
    A slot freed n < mask times since it had generation gen, and not at all still holding callback cb,
    seen through its old handle.
   */
  lemma HandleMatches(s: State, i: nat, gen: nat, n: nat, cb: nat)
    requires TableOk(s.t) && i < |s.t.slots| && ValidGeneration(s.t.w, s.t.bits, gen)
    requires n < GenerationMask(s.t.w, s.t.bits)
    requires s.t.slots[i].gen == Freed(s.t.w, s.t.bits, gen, n)
    requires n == 0 ==> !s.t.slots[i].phase.Vacant? && s.t.slots[i].phase.cb == cb
    ensures var h := Pack(s.t.w, s.t.bits, i, gen);
            && (Enabled(s, Cancel(h)) <==> n == 0 && s.t.slots[i].phase.Armed?)
            && (Enabled(s, Cancel(h)) ==>
               s.t.slots[i].phase.cb == cb && Apply(s, Cancel(h)).cancelled == s.cancelled + {cb})
  {
    PackRoundTrip(s.t.w, s.t.bits, i, gen);
    FewFrees(s.t.w, s.t.bits, i, gen, n);
  }

  lemma {:induction false} CancelledGrows(s: State, trace: seq<Event>)
    requires CanRun(s, trace)
    ensures s.cancelled <= RunAll(s, trace).cancelled
    decreases |trace|
  {
    if trace != [] { CancelledGrows(Apply(s, trace[0]), trace[1..]); }
  }

  /**
    From schedule to the end of any run: once cancel of the returned handle has succeeded, its
    callback has not started and never will.
   */
  lemma CancelledNeverRuns(s: State, owner: Owner, trace: seq<Event>, i: nat, h: nat, after: seq<Event>)
    requires Inv(s) && Enabled(s, Schedule(owner, true)) && i == s.t.free[0]
    requires h == Pack(s.t.w, s.t.bits, i, s.t.slots[i].gen)
    requires var s1 := Apply(s, Schedule(owner, true));
             CanRun(s1, trace) && Frees(s1, trace, i) < GenerationMask(s.t.w, s.t.bits)
    requires var s2 := RunAll(Apply(s, Schedule(owner, true)), trace);
             Enabled(s2, Cancel(h)) && CanRun(Apply(s2, Cancel(h)), after)
    ensures |s.owners| !in RunAll(Apply(RunAll(Apply(s, Schedule(owner, true)), trace), Cancel(h)), after).started
  {
    var s1 := Apply(s, Schedule(owner, true));
    var s2 := RunAll(s1, trace);
    var s3 := Apply(s2, Cancel(h));
    CancelStopsItsCallback(s, owner, trace, i, h);
    StepInv(s, Schedule(owner, true));
    RunInv(s1, trace);
    StepInv(s2, Cancel(h));
    RunInv(s3, after);
    CancelledGrows(s3, after);
    assert |s.owners| in RunAll(s3, after).cancelled;
  }

  /** Fewer than mask frees bring a generation back only if there were none. */
  lemma FewFrees(w: nat, bits: nat, i: nat, gen: nat, n: nat)
    requires bits < w && i < Arith.Pow2(bits) && ValidGeneration(w, bits, gen) && n < GenerationMask(w, bits)
    ensures Freed(w, bits, gen, n) == gen <==> n == 0
  {
    StaleHandleMatches(w, bits, i, gen, n);
    FreedIs(w, bits, gen, n);
    if Freed(w, bits, gen, n) == gen { assert Arith.Mod(n, GenerationMask(w, bits)) == n; }
  }
}
