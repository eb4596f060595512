/**
  Where every callback goes (ControlScheduler.h:552-663; ControlScheduler.cpp:378-560): posted or
  scheduled, it waits in one place until it is started, cancelled or dropped, and nothing else becomes of it.
 */
module TimerCallbacks {
  import Arith
  import opened Collections
  import opened DelayedSlots
  import opened TimerRuns

  /** A job holds the callback and has not begun. */
  predicate JobWaits(s: State, j: nat, cb: nat) { JobHas(s, j, cb) && s.jobs[j].stage != Running }

  /** A slot holds it, armed or with a token that has not begun. */
  ghost predicate SlotWaits(s: State, i: nat, cb: nat) {
    SlotHas(s, i, cb) && forall j :: IsToken(s, j, i) ==> s.jobs[j].stage != Running
  }

  ghost predicate Waiting(s: State, cb: nat) {
    (exists j: nat :: JobWaits(s, j, cb)) || (exists i: nat :: SlotWaits(s, i, cb))
  }

  /**
    The callbacks an event drops: its task was refused by a ring, discarded from one or begun after its
    ref was closed, or the time manager refused the timer.
   */
  function Drops(s: State, e: Event): set<nat>
    requires Enabled(s, e)
  {
    match e
    case Reject(j) => if HasCallback(s, s.jobs[j].task) then {Callback(s, s.jobs[j].task)} else {}
    case Discard(j) => if HasCallback(s, s.jobs[j].task) then {Callback(s, s.jobs[j].task)} else {}
    case Begin(j) =>
      var task := s.jobs[j].task;
      if HasCallback(s, task) && !Live(s, OwnerOf(s, task)) then {Callback(s, task)} else {}
    case Schedule(_, timer) => if timer then {} else {|s.owners|}
    case Fire(i, _, accepted) => if accepted then {} else {s.t.slots[i].phase.cb}
    case _ => {}
  }

  function Dropped(s: State, trace: seq<Event>): set<nat>
    requires CanRun(s, trace)
    decreases |trace|
  {
    if trace == [] then {} else Drops(s, trace[0]) + Dropped(Apply(s, trace[0]), trace[1..])
  }

  // ---------------------------------------------------------------------
  // One step
  // ---------------------------------------------------------------------

  /** A dropped callback is neither started nor cancelled, and if it is anywhere, in a running job. */
  ghost predicate GoneOk(s: State, gone: set<nat>) {
    && (forall cb :: cb in gone ==> cb < |s.owners| && cb !in s.started && cb !in s.cancelled)
    && (forall j: nat, cb: nat :: JobHas(s, j, cb) && cb in gone ==> s.jobs[j].stage == Running)
    && (forall i: nat, cb: nat :: SlotHas(s, i, cb) && cb in gone ==> s.t.slots[i].phase.Fired?)
    && (forall j: nat, i: nat, cb: nat :: SlotHas(s, i, cb) && cb in gone && IsToken(s, j, i) ==>
       s.jobs[j].stage == Running)
  }

  /** Every callback is accounted for. */
  ghost predicate AllOk(s: State, gone: set<nat>) {
    forall cb: nat :: cb < |s.owners| ==> Waiting(s, cb) || cb in s.started || cb in s.cancelled || cb in gone
  }

  lemma WaitingIsNew(s: State, gone: set<nat>, cb: nat)
    requires Inv(s) && GoneOk(s, gone) && Waiting(s, cb)
    ensures cb !in s.started && cb !in s.cancelled && cb !in gone
  {
    if j: nat :| JobWaits(s, j, cb) {
      assert JobHas(s, j, cb);
    } else {
      var i: nat :| SlotWaits(s, i, cb);
      assert SlotHas(s, i, cb);
      if s.t.slots[i].phase.Fired? { var j :| IsToken(s, j, i); }
    }
  }

  /** A waiting callback is still waiting, or started, cancelled or dropped by the step. */
  lemma WaitingStep(s: State, e: Event, cb: nat)
    requires Inv(s) && Enabled(s, e) && Waiting(s, cb)
    ensures var s' := Apply(s, e); Waiting(s', cb) || cb in s'.started || cb in s'.cancelled || cb in Drops(s, e)
  {
    if j: nat :| JobWaits(s, j, cb) {
      JobWaitsStep(s, e, j, cb);
    } else {
      var i: nat :| SlotWaits(s, i, cb);
      SlotWaitsStep(s, e, i, cb);
    }
  }

  lemma JobWaitsStep(s: State, e: Event, j: nat, cb: nat)
    requires Inv(s) && Enabled(s, e) && JobWaits(s, j, cb)
    ensures var s' := Apply(s, e); JobWaits(s', j, cb) || cb in s'.started || cb in Drops(s, e)
  {
    assert TokenAt(s, j) && j < s.nextJob;
  }

  lemma SlotWaitsStep(s: State, e: Event, i: nat, cb: nat)
    requires Inv(s) && Enabled(s, e) && SlotWaits(s, i, cb)
    ensures var s' := Apply(s, e);
            SlotWaits(s', i, cb) || cb in s'.started || cb in s'.cancelled || cb in Drops(s, e)
  {
    var s' := Apply(s, e);
    match e {
      case Schedule(_, _) => SlotWaitsSchedule(s, e, i, cb);
      case Cancel(_) => var k := ArmedAt(s, e);
      case Fire(k, gen, accepted) => SlotWaitsFire(s, e, i, cb);
      case Begin(j) => SlotWaitsBegin(s, j, i, cb);
      case Reject(j) => SlotWaitsDestroy(s, j, i, cb);
      case Discard(j) => SlotWaitsDestroy(s, j, i, cb);
      case End(j) => SlotWaitsDestroy(s, j, i, cb);
      case _ => assert forall j :: IsToken(s', j, i) ==> IsToken(s, j, i);
    }
  }

  lemma SlotWaitsSchedule(s: State, e: Event, i: nat, cb: nat)
    requires Inv(s) && Enabled(s, e) && e.Schedule? && SlotWaits(s, i, cb)
    ensures SlotWaits(Apply(s, e), i, cb)
  {
    assert s.t.slots[s.t.free[0]].phase.Vacant?;
    assert forall j :: IsToken(Apply(s, e), j, i) ==> IsToken(s, j, i);
  }

  lemma SlotWaitsFire(s: State, e: Event, i: nat, cb: nat)
    requires Inv(s) && Enabled(s, e) && e.Fire? && SlotWaits(s, i, cb)
    ensures SlotWaits(Apply(s, e), i, cb) || cb in Drops(s, e)
  {
    var s' := Apply(s, e);
    if !e.accepted { DiscardTwice(s.t, e.i, e.gen); }
    forall j | IsToken(s', j, i) ensures s'.jobs[j].stage != Running { assert j in s.jobs ==> IsToken(s, j, i); }
  }

  lemma SlotWaitsBegin(s: State, j: nat, i: nat, cb: nat)
    requires Inv(s) && Enabled(s, Begin(j)) && SlotWaits(s, i, cb)
    ensures var s' := Apply(s, Begin(j)); SlotWaits(s', i, cb) || cb in s'.started || cb in Drops(s, Begin(j))
  {
    var s' := Apply(s, Begin(j));
    assert TokenAt(s, j);
    if !IsToken(s, j, i) {
      forall k | IsToken(s', k, i) ensures s'.jobs[k].stage != Running { assert IsToken(s, k, i); }
    }
  }

  lemma SlotWaitsDestroy(s: State, j: nat, i: nat, cb: nat)
    requires Inv(s) && j in s.jobs && SlotWaits(s, i, cb)
    ensures SlotWaits(Destroy(s, j), i, cb) || (IsToken(s, j, i) && Callback(s, s.jobs[j].task) == cb)
    ensures IsToken(s, j, i) ==> s.jobs[j].stage == Queued && HasCallback(s, s.jobs[j].task)
  {
    SlotsDestroy(s, j);
    assert TokenAt(s, j);
    forall k | IsToken(Destroy(s, j), k, i) ensures s.jobs[k].stage != Running { assert IsToken(s, k, i); }
  }

  lemma AllStep(s: State, e: Event, gone: set<nat>)
    requires Inv(s) && Enabled(s, e) && AllOk(s, gone)
    ensures AllOk(Apply(s, e), gone + Drops(s, e))
  {
    var s' := Apply(s, e);
    forall cb: nat | cb < |s'.owners|
      ensures Waiting(s', cb) || cb in s'.started || cb in s'.cancelled || cb in gone + Drops(s, e)
    {
      if cb < |s.owners| {
        if Waiting(s, cb) { WaitingStep(s, e, cb); }
      } else {
        NewWaits(s, e);
      }
    }
  }

  /** A new callback waits in its job or slot, unless the timer was refused. */
  lemma NewWaits(s: State, e: Event)
    requires Inv(s) && Enabled(s, e) && |Apply(s, e).owners| > |s.owners|
    ensures |Apply(s, e).owners| == |s.owners| + 1
    ensures Waiting(Apply(s, e), |s.owners|) || |s.owners| in Drops(s, e)
  {
    var s' := Apply(s, e);
    if e.Post? {
      assert JobWaits(s', s.nextJob, |s.owners|);
    } else if e.timer {
      var i := s.t.free[0];
      assert s.t.slots[i].phase.Vacant?;
      assert forall j :: j in s.jobs ==> TokenAt(s, j);
      assert SlotWaits(s', i, |s.owners|);
    }
  }

  /** What an event drops was waiting, or is new. */
  lemma DropsWaiting(s: State, e: Event, cb: nat)
    requires Inv(s) && Enabled(s, e) && cb in Drops(s, e)
    ensures if e.Schedule? then cb == |s.owners| else Waiting(s, cb) && cb < |s.owners|
  {
    match e {
      case Fire(i, _, _) =>
        assert SlotHas(s, i, cb);
        assert forall j :: j in s.jobs ==> TokenAt(s, j);
        assert SlotWaits(s, i, cb);
      case Reject(j) => JobPlace(s, j);
      case Discard(j) => JobPlace(s, j);
      case Begin(j) => JobPlace(s, j);
      case _ =>
    }
  }

  lemma JobPlace(s: State, j: nat)
    requires Inv(s) && j in s.jobs && s.jobs[j].stage != Running
    ensures HasCallback(s, s.jobs[j].task) && Waiting(s, Callback(s, s.jobs[j].task))
    ensures Callback(s, s.jobs[j].task) < |s.owners|
  {
    QueuedNotStarted(s, j);
    assert TokenAt(s, j);
    var task := s.jobs[j].task;
    var cb := Callback(s, task);
    if task.Direct? {
      assert JobWaits(s, j, cb);
    } else {
      assert IsToken(s, j, task.i);
      assert SlotWaits(s, task.i, cb);
    }
  }

  lemma GoneDestroy(s: State, j: nat, gone: set<nat>)
    requires Inv(s) && j in s.jobs && GoneOk(s, gone)
    ensures GoneOk(Destroy(s, j), gone)
  {
    var s' := Destroy(s, j);
    SlotsDestroy(s, j);
    forall k: nat, c: nat | JobHas(s', k, c) ensures JobHas(s, k, c) && s'.jobs[k] == s.jobs[k] { }
    forall i: nat, c: nat | SlotHas(s', i, c) ensures SlotHas(s, i, c) && s'.t.slots[i] == s.t.slots[i] { }
    forall k: nat, i: nat | IsToken(s', k, i) ensures IsToken(s, k, i) && s'.jobs[k] == s.jobs[k] { }
  }

  lemma GoneSchedule(s: State, e: Event, gone: set<nat>)
    requires Inv(s) && Enabled(s, e) && e.Schedule? && GoneOk(s, gone)
    ensures GoneOk(Apply(s, e), gone)
  {
    var s', i0 := Apply(s, e), s.t.free[0];
    assert s.t.slots[i0].phase.Vacant?;
    forall j: nat, c: nat | JobHas(s', j, c) ensures JobHas(s, j, c) { }
    forall j: nat, i: nat | IsToken(s', j, i) ensures IsToken(s, j, i) && i != i0 { assert TokenAt(s, j); }
    forall i: nat, c: nat | SlotHas(s', i, c) ensures SlotHas(s, i, c) || (i == i0 && c == |s.owners|) { }
  }

  lemma GoneFire(s: State, e: Event, gone: set<nat>)
    requires Inv(s) && Enabled(s, e) && e.Fire? && GoneOk(s, gone)
    ensures GoneOk(Apply(s, e), gone)
  {
    var s' := Apply(s, e);
    assert SlotHas(s, e.i, s.t.slots[e.i].phase.cb);
    if !e.accepted { DiscardTwice(s.t, e.i, e.gen); }
    forall j: nat, c: nat | JobHas(s', j, c) ensures JobHas(s, j, c) && s'.jobs[j] == s.jobs[j] { }
    forall i: nat, c: nat | SlotHas(s', i, c) && c in gone ensures SlotHas(s, i, c) && i != e.i { }
    forall j: nat, i: nat | IsToken(s', j, i) && i != e.i ensures IsToken(s, j, i) && s'.jobs[j] == s.jobs[j] { }
  }

  lemma GoneCancel(s: State, e: Event, gone: set<nat>)
    requires Inv(s) && Enabled(s, e) && e.Cancel? && GoneOk(s, gone)
    ensures GoneOk(Apply(s, e), gone)
  {
    var s' := Apply(s, e);
    var i0 := ArmedAt(s, e);
    assert SlotHas(s, i0, s.t.slots[i0].phase.cb);
    forall j: nat, c: nat | JobHas(s', j, c) ensures JobHas(s, j, c) { }
    forall i: nat, c: nat | SlotHas(s', i, c) ensures SlotHas(s, i, c) && i != i0 { }
    forall j: nat, i: nat | IsToken(s', j, i) ensures IsToken(s, j, i) { }
  }

  /** Beginning, accepting and posting leave gone callbacks where they are. */
  lemma GoneOther(s: State, e: Event, gone: set<nat>)
    requires Inv(s) && Enabled(s, e) && GoneOk(s, gone)
    requires !e.Schedule? && !e.Fire? && !e.Cancel? && !e.Reject? && !e.Discard? && !e.End?
    ensures GoneOk(Apply(s, e), gone)
  {
    var s' := Apply(s, e);
    if e.Begin? {
      JobPlace(s, e.j);
      WaitingIsNew(s, gone, Callback(s, s.jobs[e.j].task));
    }
    forall j: nat, c: nat | JobHas(s', j, c) && c in gone
      ensures JobHas(s, j, c) && (s'.jobs[j].stage == Running || s'.jobs[j] == s.jobs[j])
    {
      assert e.Post? && j == s.nextJob ==> c == |s.owners|;
    }
    forall i: nat, c: nat | SlotHas(s', i, c) ensures SlotHas(s, i, c) { }
    forall j: nat, i: nat | IsToken(s', j, i)
      ensures IsToken(s, j, i) && (s'.jobs[j].stage == Running || s'.jobs[j] == s.jobs[j])
    {
      assert TokenAt(s, j);
    }
  }

  lemma GoneStep(s: State, e: Event, gone: set<nat>)
    requires Inv(s) && Enabled(s, e) && GoneOk(s, gone)
    ensures GoneOk(Apply(s, e), gone)
  {
    match e {
      case Schedule(_, _) => GoneSchedule(s, e, gone);
      case Fire(_, _, _) => GoneFire(s, e, gone);
      case Cancel(_) => GoneCancel(s, e, gone);
      case Reject(j) => GoneDestroy(s, j, gone);
      case Discard(j) => GoneDestroy(s, j, gone);
      case End(j) => GoneDestroy(s, j, gone);
      case _ => GoneOther(s, e, gone);
    }
  }

  /** What an event drops is gone after it. */
  lemma DropsGone(s: State, e: Event)
    requires Inv(s) && Enabled(s, e)
    ensures GoneOk(Apply(s, e), Drops(s, e))
  {
    match e {
      case Schedule(_, timer) => if !timer { DropsSchedule(s, e); }
      case Fire(_, _, accepted) => if !accepted { DropsFire(s, e); }
      case Reject(j) => DropsDestroy(s, j);
      case Discard(j) => DropsDestroy(s, j);
      case Begin(j) => DropsBegin(s, j);
      case _ =>
    }
  }

  lemma DropsDestroy(s: State, j: nat)
    requires Inv(s) && j in s.jobs && s.jobs[j].stage != Running
    ensures HasCallback(s, s.jobs[j].task) && GoneOk(Destroy(s, j), {Callback(s, s.jobs[j].task)})
  {
    JobPlace(s, j);
    var s', task := Destroy(s, j), s.jobs[j].task;
    var cb := Callback(s, task);
    WaitingIsNew(s, {}, cb);
    SlotsDestroy(s, j);
    if task.Direct? { assert JobHas(s, j, cb); } else { assert SlotHas(s, task.i, cb); }
    forall k: nat, c: nat | JobHas(s', k, c) ensures JobHas(s, k, c) && k != j { }
    forall i: nat, c: nat | SlotHas(s', i, c) ensures SlotHas(s, i, c) && !(task.Token? && i == task.i) { }
  }

  lemma DropsBegin(s: State, j: nat)
    requires Inv(s) && Enabled(s, Begin(j))
    ensures GoneOk(Apply(s, Begin(j)), Drops(s, Begin(j)))
  {
    JobPlace(s, j);
    var s', task := Apply(s, Begin(j)), s.jobs[j].task;
    var cb := Callback(s, task);
    WaitingIsNew(s, {}, cb);
    assert TokenAt(s, j);
    if task.Direct? { assert JobHas(s, j, cb); } else { assert SlotHas(s, task.i, cb) && IsToken(s, j, task.i); }
    forall k: nat, c: nat | JobHas(s', k, c) ensures JobHas(s, k, c) { }
    forall i: nat, c: nat | SlotHas(s', i, c) ensures SlotHas(s, i, c) { }
    forall k: nat, i: nat | IsToken(s', k, i) ensures IsToken(s, k, i) { }
  }

  lemma DropsSchedule(s: State, e: Event)
    requires Inv(s) && Enabled(s, e) && e.Schedule? && !e.timer
    ensures GoneOk(Apply(s, e), {|s.owners|})
  {
    var s', i0 := Apply(s, e), s.t.free[0];
    assert s.t.slots[i0].phase.Vacant?;
    forall j: nat, c: nat | JobHas(s', j, c) ensures JobHas(s, j, c) { }
    forall i: nat, c: nat | SlotHas(s', i, c) ensures SlotHas(s, i, c) { }
  }

  lemma DropsFire(s: State, e: Event)
    requires Inv(s) && Enabled(s, e) && e.Fire? && !e.accepted
    ensures GoneOk(Apply(s, e), {s.t.slots[e.i].phase.cb})
  {
    var s', cb := Apply(s, e), s.t.slots[e.i].phase.cb;
    DropsWaiting(s, e, cb);
    WaitingIsNew(s, {}, cb);
    DiscardTwice(s.t, e.i, e.gen);
    assert SlotHas(s, e.i, cb);
    forall j: nat, c: nat | JobHas(s', j, c) ensures JobHas(s, j, c) { }
    forall i: nat, c: nat | SlotHas(s', i, c) ensures SlotHas(s, i, c) && i != e.i { }
  }

  // ---------------------------------------------------------------------
  // Whole runs
  // ---------------------------------------------------------------------

  lemma {:induction false} FatesRun(s: State, trace: seq<Event>, gone: set<nat>)
    requires Inv(s) && CanRun(s, trace) && AllOk(s, gone) && GoneOk(s, gone)
    ensures Inv(RunAll(s, trace))
    ensures AllOk(RunAll(s, trace), gone + Dropped(s, trace)) && GoneOk(RunAll(s, trace), gone + Dropped(s, trace))
    decreases |trace|
  {
    if trace == [] {
      assert gone + Dropped(s, trace) == gone;
    } else {
      var s', gone' := Apply(s, trace[0]), gone + Drops(s, trace[0]);
      StepInv(s, trace[0]);
      AllStep(s, trace[0], gone);
      GoneStep(s, trace[0], gone);
      DropsGone(s, trace[0]);
      FatesRun(s', trace[1..], gone');
      assert gone' + Dropped(s', trace[1..]) == gone + Dropped(s, trace);
    }
  }

  function One(b: bool): nat { if b then 1 else 0 }

  /**
    In every run each callback ever posted or scheduled has exactly one fate so far: it waits in a job or
    slot, or it was started, or cancelled, or dropped; and started means started once.
   */
  lemma OneFate(w: nat, bits: nat, max: nat, trace: seq<Event>, cb: nat)
    requires Capacity(w, bits, max) && CanRun(Init(w, bits, max), trace)
    requires cb < |RunAll(Init(w, bits, max), trace).owners|
    ensures var s := RunAll(Init(w, bits, max), trace);
            && (if Waiting(s, cb) then 1 else 0) + multiset(s.started)[cb] + One(cb in s.cancelled)
               + One(cb in Dropped(Init(w, bits, max), trace)) == 1
  {
    var s0 := Init(w, bits, max);
    InitInv(w, bits, max);
    FatesRun(s0, trace, {});
    var s, gone := RunAll(s0, trace), Dropped(s0, trace);
    assert {} + gone == gone;
    if Waiting(s, cb) { WaitingIsNew(s, gone, cb); }
    DistinctCount(s.started, cb);
  }

  /** Nobody cancels, refuses, discards or closes anything. */
  predicate Undisturbed(trace: seq<Event>) {
    forall i :: 0 <= i < |trace| ==>
      match trace[i]
      case Cancel(_) => false
      case Reject(_) => false
      case Discard(_) => false
      case BeginRelease(_) => false
      case Schedule(_, timer) => timer
      case Fire(_, _, accepted) => accepted
      case _ => true
  }

  ghost predicate OwnersLive(s: State) { forall cb: nat :: cb < |s.owners| ==> Live(s, s.owners[cb]) }

  lemma {:induction false} NothingDropped(s: State, trace: seq<Event>)
    requires Inv(s) && CanRun(s, trace) && Undisturbed(trace) && OwnersLive(s)
    ensures Dropped(s, trace) == {} && RunAll(s, trace).cancelled == s.cancelled
    decreases |trace|
  {
    if trace != [] {
      var e := trace[0];
      StepInv(s, e);
      if e.Begin? { QueuedNotStarted(s, e.j); }
      LiveStep(s, e);
      assert Undisturbed(trace[1..]) by { assert forall i :: 0 <= i < |trace[1..]| ==> trace[1..][i] == trace[i + 1]; }
      NothingDropped(Apply(s, e), trace[1..]);
    }
  }

  lemma LiveStep(s: State, e: Event)
    requires Enabled(s, e) && OwnersLive(s) && !e.BeginRelease?
    ensures OwnersLive(Apply(s, e))
  {
    var s' := Apply(s, e);
    forall cb: nat | cb < |s'.owners| ensures Live(s', s'.owners[cb]) {
      if cb < |s.owners| { assert Live(s, s.owners[cb]); }
    }
  }

  /** So in such a run every callback that no longer waits was started, once. */
  lemma UndisturbedRunsAll(w: nat, bits: nat, max: nat, trace: seq<Event>, cb: nat)
    requires Capacity(w, bits, max) && CanRun(Init(w, bits, max), trace) && Undisturbed(trace)
    requires cb < |RunAll(Init(w, bits, max), trace).owners|
    ensures var s := RunAll(Init(w, bits, max), trace); !Waiting(s, cb) ==> multiset(s.started)[cb] == 1
  {
    InitInv(w, bits, max);
    NothingDropped(Init(w, bits, max), trace);
    OneFate(w, bits, max, trace, cb);
  }

  // ---------------------------------------------------------------------
  // A waiting callback can be started
  // ---------------------------------------------------------------------

  lemma BeginStarts(s: State, j: nat)
    requires Inv(s) && j in s.jobs && s.jobs[j].stage == Queued
    ensures HasCallback(s, s.jobs[j].task)
    ensures Live(s, OwnerOf(s, s.jobs[j].task)) ==> Callback(s, s.jobs[j].task) in Apply(s, Begin(j)).started
  {
    QueuedNotStarted(s, j);
  }

  /** What is left of its way: its job is accepted and begun, or its timer fires and its token is begun. */
  lemma CanStart(s: State, cb: nat) returns (trace: seq<Event>)
    requires Inv(s) && Waiting(s, cb) && cb < |s.owners| && Live(s, s.owners[cb])
    ensures |trace| <= 2 && CanRun(s, trace) && cb in RunAll(s, trace).started
  {
    if j: nat :| JobWaits(s, j, cb) {
      assert JobHas(s, j, cb);
      trace := JobStarts(s, j);
    } else {
      var i: nat :| SlotWaits(s, i, cb);
      assert SlotHas(s, i, cb);
      trace := SlotStarts(s, i, cb);
    }
  }

  lemma OneStep(s: State, e: Event)
    requires Enabled(s, e)
    ensures CanRun(s, [e]) && RunAll(s, [e]) == Apply(s, e)
  {
    var rest: seq<Event> := [];
    assert [e][1..] == rest && CanRun(Apply(s, e), rest) && RunAll(Apply(s, e), rest) == Apply(s, e);
  }

  lemma TwoSteps(s: State, a: Event, b: Event)
    requires Enabled(s, a) && Enabled(Apply(s, a), b)
    ensures CanRun(s, [a, b]) && RunAll(s, [a, b]) == Apply(Apply(s, a), b)
  {
    OneStep(Apply(s, a), b);
    assert [a, b][1..] == [b] && [a, b][0] == a;
  }

  lemma JobStarts(s: State, j: nat) returns (trace: seq<Event>)
    requires Inv(s) && j in s.jobs && s.jobs[j].stage != Running && s.jobs[j].task.Direct?
    requires Live(s, s.jobs[j].task.owner)
    ensures |trace| <= 2 && CanRun(s, trace) && s.jobs[j].task.cb in RunAll(s, trace).started
  {
    if s.jobs[j].stage == Temp {
      StepInv(s, Accept(j));
      BeginStarts(Apply(s, Accept(j)), j);
      TwoSteps(s, Accept(j), Begin(j));
      trace := [Accept(j), Begin(j)];
    } else {
      BeginStarts(s, j);
      OneStep(s, Begin(j));
      trace := [Begin(j)];
    }
  }

  lemma SlotStarts(s: State, i: nat, cb: nat) returns (trace: seq<Event>)
    requires Inv(s) && SlotWaits(s, i, cb) && cb < |s.owners| && Live(s, s.owners[cb])
    ensures |trace| <= 2 && CanRun(s, trace) && cb in RunAll(s, trace).started
  {
    if s.t.slots[i].phase.Armed? {
      var fire, j := Fire(i, s.t.slots[i].gen, true), s.nextJob;
      assert SlotHas(s, i, cb);
      StepInv(s, fire);
      var s' := Apply(s, fire);
      assert s'.jobs[j].task == Token(i, fire.gen) && s'.t.slots[i].phase.cb == cb;
      assert s'.t.slots[i].phase.owner == s.owners[cb] && Live(s', s.owners[cb]);
      BeginStarts(s', j);
      TwoSteps(s, fire, Begin(j));
      trace := [fire, Begin(j)];
    } else {
      assert SlotHas(s, i, cb);
      var j :| IsToken(s, j, i);
      assert TokenAt(s, j);
      assert s.t.slots[i].phase.owner == s.owners[cb] && s.jobs[j].task == Token(i, s.t.slots[i].gen);
      BeginStarts(s, j);
      OneStep(s, Begin(j));
      trace := [Begin(j)];
    }
  }

  /** A release can end once no job or slot holds a callback of its ref. */
  lemma ReleaseCanEnd(s: State, r: nat)
    requires Inv(s) && r in s.refs && !s.refs[r].alive
    requires forall j :: j in s.jobs && s.jobs[j].task.Direct? ==> s.jobs[j].task.owner != OwnedBy(r)
    requires forall i :: 0 <= i < |s.t.slots| && !s.t.slots[i].phase.Vacant? ==> s.t.slots[i].phase.owner != OwnedBy(r)
    ensures Enabled(s, EndRelease(r)) && Apply(s, EndRelease(r)).refs[r].released
  {
    assert OwnJobs(s, r) == {} && OwnSlots(s.t, r) == {};
  }
}
