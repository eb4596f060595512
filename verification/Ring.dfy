/**
  The bounded multi-producer, multi-consumer ring used twice in the scheduler:
  as the pool's task queue (ThreadPool.hpp) and as a process queue's sub-queue
  (SubQueue in ControlScheduler).  Both run the same sequence-number protocol.

  The ring is a transition system with one atomic load, store or
  compare-exchange per step, sequentially consistent, over unbounded counters.
  A compare-exchange may fail spuriously.  Any number of threads may be inside
  an enqueue or a dequeue at the same time, and the steps interleave freely.
 */
module Ring {
  import Arith
  import opened Collections

  type Tid = nat
  type Task = nat

  datatype Cell = Vacant | Holds(task: Task)

  /** Where a thread is inside `enqueue`/`tryEmplace` or `consumeOne`/`tryConsumeOne`. */
  datatype Op =
    | EnqPos(pos: nat, task: Task)              // head loaded into pos
    | EnqSeq(pos: nat, task: Task, seen: nat)   // slot sequence loaded into seen
    | EnqHold(pos: nat, task: Task)             // head CAS won; task not yet stored
    | EnqSet(pos: nat)                          // task stored; not yet published
    | DeqPos(pos: nat)                          // tail loaded into pos
    | DeqSeq(pos: nat, seen: nat)               // slot sequence loaded into seen
    | DeqHold(pos: nat)                         // tail CAS won; task running or about to be destroyed
    | DeqClean(pos: nat)                        // task destroyed; slot not yet recycled

  /**
    `head`, `tail`, `seqs`, `cells` and `ops` are the program's state.  The rest is
    history: `log` lists accepted tasks by ticket, and for each slot `cur` is the ticket
    it serves, `full` whether that ticket is published, `owner` the last thread to claim it.
   */
  datatype State = State(
    cap: nat, head: nat, tail: nat,
    seqs: seq<nat>, cells: seq<Cell>, ops: map<Tid, Op>,
    log: seq<Task>,
    cur: seq<nat>, full: seq<bool>, owner: seq<Tid>)

  datatype Event =
    | StartEnq(task: Task) | LoadEnqSeq | CasHead | CasHeadFail | EnqFalse | ReloadHead | SetTask | Publish
    | StartDeq | LoadDeqSeq | CasTail | CasTailFail | DeqFalse | ReloadTail | Clean | Recycle

  /** The slot that ticket `pos` uses: `pos & mask` in the source. */
  function Slot(pos: nat, cap: nat): (i: nat)
    requires cap > 0
    ensures i < cap
  {
    Arith.Mod(pos, cap)
  }

  /** For a power-of-two capacity the source's mask picks that slot. */
  lemma MaskPicksSlot(pos: nat, k: nat)
    ensures Arith.BitAnd(pos, Arith.Pow2(k) - 1) == Slot(pos, Arith.Pow2(k))
  {
    Arith.MaskIsMod(pos, k);
  }

  predicate Shape(s: State) {
    && s.cap >= 2
    && |s.seqs| == |s.cells| == |s.cur| == |s.full| == |s.owner| == s.cap
  }

  function Init(cap: nat): State
    requires cap >= 2
  {
    State(cap, 0, 0, seq(cap, i => i), seq(cap, i => Vacant), map[], [],
          seq(cap, i => i), seq(cap, i => false), seq(cap, i => 0))
  }

  predicate Enabled(s: State, t: Tid, e: Event)
    requires Shape(s)
  {
    match e
    case StartEnq(_) => t !in s.ops
    case LoadEnqSeq => t in s.ops && s.ops[t].EnqPos?
    case CasHead => t in s.ops && s.ops[t].EnqSeq? && s.ops[t].seen == s.ops[t].pos && s.head == s.ops[t].pos
    case CasHeadFail => t in s.ops && s.ops[t].EnqSeq? && s.ops[t].seen == s.ops[t].pos
    case EnqFalse => t in s.ops && s.ops[t].EnqSeq? && s.ops[t].seen < s.ops[t].pos
    case ReloadHead => t in s.ops && s.ops[t].EnqSeq? && s.ops[t].seen > s.ops[t].pos
    case SetTask => t in s.ops && s.ops[t].EnqHold?
    case Publish => t in s.ops && s.ops[t].EnqSet?
    case StartDeq => t !in s.ops
    case LoadDeqSeq => t in s.ops && s.ops[t].DeqPos?
    case CasTail => t in s.ops && s.ops[t].DeqSeq? && s.ops[t].seen == s.ops[t].pos + 1 && s.tail == s.ops[t].pos
    case CasTailFail => t in s.ops && s.ops[t].DeqSeq? && s.ops[t].seen == s.ops[t].pos + 1
    case DeqFalse => t in s.ops && s.ops[t].DeqSeq? && s.ops[t].seen < s.ops[t].pos + 1
    case ReloadTail => t in s.ops && s.ops[t].DeqSeq? && s.ops[t].seen > s.ops[t].pos + 1
    case Clean => t in s.ops && s.ops[t].DeqHold?
    case Recycle => t in s.ops && s.ops[t].DeqClean?
  }

  function Apply(s: State, t: Tid, e: Event): State
    requires Shape(s) && Enabled(s, t, e)
  {
    match e
    case StartEnq(task) => s.(ops := s.ops[t := EnqPos(s.head, task)])
    case LoadEnqSeq =>
      var op := s.ops[t];
      s.(ops := s.ops[t := EnqSeq(op.pos, op.task, s.seqs[Slot(op.pos, s.cap)])])
    case CasHead =>
      var op := s.ops[t];
      s.(head := s.head + 1,
         ops := s.ops[t := EnqHold(op.pos, op.task)],
         log := s.log + [op.task],
         owner := s.owner[Slot(op.pos, s.cap) := t])
    case CasHeadFail => s.(ops := s.ops[t := EnqPos(s.head, s.ops[t].task)])
    case EnqFalse => s.(ops := s.ops - {t})
    case ReloadHead => s.(ops := s.ops[t := EnqPos(s.head, s.ops[t].task)])
    case SetTask =>
      var op := s.ops[t];
      s.(ops := s.ops[t := EnqSet(op.pos)], cells := s.cells[Slot(op.pos, s.cap) := Holds(op.task)])
    case Publish =>
      var op := s.ops[t];
      var i := Slot(op.pos, s.cap);
      s.(ops := s.ops - {t}, seqs := s.seqs[i := op.pos + 1], full := s.full[i := true])
    case StartDeq => s.(ops := s.ops[t := DeqPos(s.tail)])
    case LoadDeqSeq =>
      var op := s.ops[t];
      s.(ops := s.ops[t := DeqSeq(op.pos, s.seqs[Slot(op.pos, s.cap)])])
    case CasTail =>
      var op := s.ops[t];
      var i := Slot(op.pos, s.cap);
      s.(tail := s.tail + 1,
         ops := s.ops[t := DeqHold(op.pos)],
         owner := s.owner[i := t])
    case CasTailFail => s.(ops := s.ops[t := DeqPos(s.tail)])
    case DeqFalse => s.(ops := s.ops - {t})
    case ReloadTail => s.(ops := s.ops[t := DeqPos(s.tail)])
    case Clean =>
      var op := s.ops[t];
      s.(ops := s.ops[t := DeqClean(op.pos)], cells := s.cells[Slot(op.pos, s.cap) := Vacant])
    case Recycle =>
      var op := s.ops[t];
      var i := Slot(op.pos, s.cap);
      s.(ops := s.ops - {t}, seqs := s.seqs[i := op.pos + s.cap],
         cur := s.cur[i := op.pos + s.cap], full := s.full[i := false])
  }

  // ---------------------------------------------------------------------
  // The invariant
  // ---------------------------------------------------------------------

  /** The thread that `owner` names is the one writing the slot's ticket. */
  predicate Writing(s: State, i: nat)
    requires Shape(s) && i < s.cap
  {
    && s.owner[i] in s.ops
    && (s.ops[s.owner[i]].EnqHold? || s.ops[s.owner[i]].EnqSet?)
    && s.ops[s.owner[i]].pos == s.cur[i]
  }

  /** The thread that `owner` names is the one consuming the slot's ticket. */
  predicate Consuming(s: State, i: nat)
    requires Shape(s) && i < s.cap
  {
    && s.owner[i] in s.ops
    && (s.ops[s.owner[i]].DeqHold? || s.ops[s.owner[i]].DeqClean?)
    && s.ops[s.owner[i]].pos == s.cur[i]
  }

  predicate SlotOk(s: State, i: nat)
    requires Shape(s) && i < s.cap && |s.log| == s.head
  {
    var p := s.cur[i];
    && Slot(p, s.cap) == i
    && s.head <= p + s.cap
    && p < s.tail + s.cap
    && s.seqs[i] == p + (if s.full[i] then 1 else 0)
    && (s.full[i] ==>
          && p < s.head
          && (p >= s.tail ==> s.cells[i] == Holds(s.log[p]))
          && (p < s.tail ==> Consuming(s, i))
          && (p < s.tail ==> s.cells[i] == if s.ops[s.owner[i]].DeqHold? then Holds(s.log[p]) else Vacant))
    && (!s.full[i] ==>
          && p >= s.tail
          && (p >= s.head ==> s.cells[i] == Vacant)
          && (p < s.head ==> Writing(s, i))
          && (p < s.head ==> s.cells[i] == if s.ops[s.owner[i]].EnqSet? then Holds(s.log[p]) else Vacant))
  }

  predicate OpOk(s: State, t: Tid)
    requires Shape(s) && |s.log| == s.head && t in s.ops
  {
    match s.ops[t]
    case EnqPos(pos, _) => pos <= s.head
    case EnqSeq(pos, _, seen) => pos <= s.head && seen <= s.seqs[Slot(pos, s.cap)]
    case EnqHold(pos, task) =>
      var i := Slot(pos, s.cap);
      pos < s.head && s.cur[i] == pos && !s.full[i] && s.owner[i] == t && s.log[pos] == task
    case EnqSet(pos) =>
      var i := Slot(pos, s.cap);
      pos < s.head && s.cur[i] == pos && !s.full[i] && s.owner[i] == t
    case DeqPos(pos) => pos <= s.tail
    case DeqSeq(pos, seen) => pos <= s.tail && seen <= s.seqs[Slot(pos, s.cap)]
    case DeqHold(pos) =>
      var i := Slot(pos, s.cap);
      pos < s.tail && s.cur[i] == pos && s.full[i] && s.owner[i] == t
    case DeqClean(pos) =>
      var i := Slot(pos, s.cap);
      pos < s.tail && s.cur[i] == pos && s.full[i] && s.owner[i] == t
  }

  predicate Counters(s: State) {
    && |s.log| == s.head
    && s.tail <= s.head <= s.tail + s.cap
  }

  ghost predicate Inv(s: State) {
    && Shape(s)
    && Counters(s)
    && (forall i :: 0 <= i < s.cap ==> SlotOk(s, i))
    && (forall t :: t in s.ops ==> OpOk(s, t))
  }

  lemma SameSlot(p: nat, q: nat, cap: nat)
    requires cap > 0 && Slot(p, cap) == Slot(q, cap)
    requires p < q + cap && q < p + cap
    ensures p == q
  {
    Arith.ModClose(p, q, cap);
  }

  lemma SlotShift(p: nat, cap: nat)
    requires cap > 0
    ensures Slot(p + cap, cap) == Slot(p, cap)
  {
    Arith.ModShift(p, cap);
  }

  /** Every outstanding ticket is the one its slot serves. */
  lemma OutstandingTicket(s: State, p: nat)
    requires Inv(s) && s.tail <= p < s.head
    ensures s.cur[Slot(p, s.cap)] == p
  {
    var i := Slot(p, s.cap);
    assert SlotOk(s, i);
    SameSlot(p, s.cur[i], s.cap);
  }

  lemma InitInv(cap: nat)
    requires cap >= 2
    ensures Inv(Init(cap))
  {
    var s := Init(cap);
    forall i | 0 <= i < cap ensures SlotOk(s, i) { }
  }

  /** A winning head CAS found its slot vacant, with the previous lap recycled. */
  lemma HeadClaim(s: State, t: Tid)
    requires Inv(s) && Enabled(s, t, CasHead)
    ensures var i := Slot(s.head, s.cap);
            s.cur[i] == s.head && !s.full[i] && s.cells[i] == Vacant && s.head < s.tail + s.cap
  {
    var i := Slot(s.head, s.cap);
    assert OpOk(s, t) && SlotOk(s, i);
    if s.cur[i] < s.head {
      SlotShift(s.cur[i], s.cap);
      SameSlot(s.cur[i] + s.cap, s.head, s.cap);
      assert false;
    }
    SameSlot(s.cur[i], s.head, s.cap);
  }

  /** A winning tail CAS found the oldest outstanding task published in its slot. */
  lemma TailClaim(s: State, t: Tid)
    requires Inv(s) && Enabled(s, t, CasTail)
    ensures var i := Slot(s.tail, s.cap);
            s.tail < s.head && s.cur[i] == s.tail && s.full[i] && s.cells[i] == Holds(s.log[s.tail])
  {
    var i := Slot(s.tail, s.cap);
    assert OpOk(s, t) && SlotOk(s, i);
    SameSlot(s.cur[i], s.tail, s.cap);
  }

  // ---------------------------------------------------------------------
  // Every step keeps the invariant
  // ---------------------------------------------------------------------

  /** Steps that only move the thread itself: loads, failed CASes and `false` returns. */
  predicate Local(e: Event) {
    !(e.CasHead? || e.SetTask? || e.Publish? || e.CasTail? || e.Clean? || e.Recycle?)
  }

  lemma LocalSlot(s: State, t: Tid, e: Event, i: nat)
    requires Inv(s) && Enabled(s, t, e) && Local(e) && i < s.cap
    ensures var s' := Apply(s, t, e); Counters(s') && SlotOk(s', i)
  {
    assert SlotOk(s, i);
    if t in s.ops { assert OpOk(s, t); }
  }

  lemma LocalOp(s: State, t: Tid, e: Event, u: Tid)
    requires Inv(s) && Enabled(s, t, e) && Local(e) && u in Apply(s, t, e).ops
    ensures var s' := Apply(s, t, e); Counters(s') && OpOk(s', u)
  {
    if t in s.ops { assert OpOk(s, t); }
    if u in s.ops { assert OpOk(s, u); }
  }

  lemma CasHeadSlot(s: State, t: Tid, i: nat)
    requires Inv(s) && Enabled(s, t, CasHead) && i < s.cap
    ensures var s' := Apply(s, t, CasHead); Counters(s') && SlotOk(s', i)
  {
    assert SlotOk(s, i) && OpOk(s, t);
    HeadClaim(s, t);
  }

  lemma CasHeadOp(s: State, t: Tid, u: Tid)
    requires Inv(s) && Enabled(s, t, CasHead) && u in Apply(s, t, CasHead).ops
    ensures var s' := Apply(s, t, CasHead); Counters(s') && OpOk(s', u)
  {
    assert OpOk(s, t) && OpOk(s, u);
    HeadClaim(s, t);
  }

  lemma SetTaskSlot(s: State, t: Tid, i: nat)
    requires Inv(s) && Enabled(s, t, SetTask) && i < s.cap
    ensures var s' := Apply(s, t, SetTask); Counters(s') && SlotOk(s', i)
  {
    assert SlotOk(s, i) && OpOk(s, t);
  }

  lemma SetTaskOp(s: State, t: Tid, u: Tid)
    requires Inv(s) && Enabled(s, t, SetTask) && u in Apply(s, t, SetTask).ops
    ensures var s' := Apply(s, t, SetTask); Counters(s') && OpOk(s', u)
  {
    assert OpOk(s, t) && OpOk(s, u);
  }

  lemma PublishSlot(s: State, t: Tid, i: nat)
    requires Inv(s) && Enabled(s, t, Publish) && i < s.cap
    ensures var s' := Apply(s, t, Publish); Counters(s') && SlotOk(s', i)
  {
    assert SlotOk(s, i) && OpOk(s, t);
  }

  lemma PublishOp(s: State, t: Tid, u: Tid)
    requires Inv(s) && Enabled(s, t, Publish) && u in Apply(s, t, Publish).ops
    ensures var s' := Apply(s, t, Publish); Counters(s') && OpOk(s', u)
  {
    assert OpOk(s, t) && OpOk(s, u) && SlotOk(s, Slot(s.ops[t].pos, s.cap));
  }

  lemma CasTailSlot(s: State, t: Tid, i: nat)
    requires Inv(s) && Enabled(s, t, CasTail) && i < s.cap
    ensures var s' := Apply(s, t, CasTail); Counters(s') && SlotOk(s', i)
  {
    assert SlotOk(s, i) && OpOk(s, t);
    TailClaim(s, t);
  }

  lemma CasTailOp(s: State, t: Tid, u: Tid)
    requires Inv(s) && Enabled(s, t, CasTail) && u in Apply(s, t, CasTail).ops
    ensures var s' := Apply(s, t, CasTail); Counters(s') && OpOk(s', u)
  {
    assert OpOk(s, t) && OpOk(s, u);
    TailClaim(s, t);
  }

  lemma CleanSlot(s: State, t: Tid, i: nat)
    requires Inv(s) && Enabled(s, t, Clean) && i < s.cap
    ensures var s' := Apply(s, t, Clean); Counters(s') && SlotOk(s', i)
  {
    assert SlotOk(s, i) && OpOk(s, t);
  }

  lemma CleanOp(s: State, t: Tid, u: Tid)
    requires Inv(s) && Enabled(s, t, Clean) && u in Apply(s, t, Clean).ops
    ensures var s' := Apply(s, t, Clean); Counters(s') && OpOk(s', u)
  {
    assert OpOk(s, t) && OpOk(s, u);
  }

  lemma RecycleSlot(s: State, t: Tid, i: nat)
    requires Inv(s) && Enabled(s, t, Recycle) && i < s.cap
    ensures var s' := Apply(s, t, Recycle); Counters(s') && SlotOk(s', i)
  {
    assert SlotOk(s, i) && OpOk(s, t);
    SlotShift(s.ops[t].pos, s.cap);
  }

  lemma RecycleOp(s: State, t: Tid, u: Tid)
    requires Inv(s) && Enabled(s, t, Recycle) && u in Apply(s, t, Recycle).ops
    ensures var s' := Apply(s, t, Recycle); Counters(s') && OpOk(s', u)
  {
    assert OpOk(s, t) && OpOk(s, u) && SlotOk(s, Slot(s.ops[t].pos, s.cap));
    SlotShift(s.ops[t].pos, s.cap);
  }

  lemma SlotStep(s: State, t: Tid, e: Event, i: nat)
    requires Inv(s) && Enabled(s, t, e) && i < s.cap
    ensures var s' := Apply(s, t, e); Counters(s') && SlotOk(s', i)
  {
    match e {
      case CasHead => CasHeadSlot(s, t, i);
      case SetTask => SetTaskSlot(s, t, i);
      case Publish => PublishSlot(s, t, i);
      case CasTail => CasTailSlot(s, t, i);
      case Clean => CleanSlot(s, t, i);
      case Recycle => RecycleSlot(s, t, i);
      case _ => LocalSlot(s, t, e, i);
    }
  }

  lemma OpStep(s: State, t: Tid, e: Event, u: Tid)
    requires Inv(s) && Enabled(s, t, e) && u in Apply(s, t, e).ops
    ensures var s' := Apply(s, t, e); Counters(s') && OpOk(s', u)
  {
    match e {
      case CasHead => CasHeadOp(s, t, u);
      case SetTask => SetTaskOp(s, t, u);
      case Publish => PublishOp(s, t, u);
      case CasTail => CasTailOp(s, t, u);
      case Clean => CleanOp(s, t, u);
      case Recycle => RecycleOp(s, t, u);
      case _ => LocalOp(s, t, e, u);
    }
  }

  lemma StepInv(s: State, t: Tid, e: Event)
    requires Inv(s) && Enabled(s, t, e)
    ensures Inv(Apply(s, t, e))
  {
    var s' := Apply(s, t, e);
    SlotStep(s, t, e, 0);
    forall i | 0 <= i < s'.cap ensures SlotOk(s', i) { SlotStep(s, t, e, i); }
    forall u | u in s'.ops ensures OpOk(s', u) { OpStep(s, t, e, u); }
  }

  // ---------------------------------------------------------------------
  // What the protocol guarantees
  // ---------------------------------------------------------------------

  datatype Label = Label(t: Tid, e: Event)

  /** `trace` is one possible interleaving from s. */
  predicate CanRun(s: State, trace: seq<Label>)
    decreases |trace|
  {
    trace == [] ||
    (Shape(s) && Enabled(s, trace[0].t, trace[0].e) && CanRun(Apply(s, trace[0].t, trace[0].e), trace[1..]))
  }

  function RunAll(s: State, trace: seq<Label>): State
    requires CanRun(s, trace)
    decreases |trace|
  {
    if trace == [] then s else RunAll(Apply(s, trace[0].t, trace[0].e), trace[1..])
  }

  /** What the step puts into the queue: the task of a winning head CAS. */
  function AcceptedBy(s: State, t: Tid, e: Event): seq<Cell>
    requires Shape(s) && Enabled(s, t, e)
  {
    if e.CasHead? then [Holds(s.ops[t].task)] else []
  }

  /** What the step takes from it: what a winning tail CAS found in its cell. */
  function TakenBy(s: State, t: Tid, e: Event): seq<Cell>
    requires Shape(s) && Enabled(s, t, e)
  {
    if e.CasTail? then [s.cells[Slot(s.ops[t].pos, s.cap)]] else []
  }

  /** The tasks whose head CAS won, in the order of those wins. */
  function Accepted(s: State, trace: seq<Label>): seq<Cell>
    requires CanRun(s, trace)
    decreases |trace|
  {
    if trace == [] then [] else
      var Label(t, e) := trace[0];
      AcceptedBy(s, t, e) + Accepted(Apply(s, t, e), trace[1..])
  }

  /** What each winning tail CAS found in its cell, in the order of those wins. */
  function Taken(s: State, trace: seq<Label>): seq<Cell>
    requires CanRun(s, trace)
    decreases |trace|
  {
    if trace == [] then [] else
      var Label(t, e) := trace[0];
      TakenBy(s, t, e) + Taken(Apply(s, t, e), trace[1..])
  }

  /** The abstract queue: accepted, not yet claimed by a consumer. */
  function Queue(s: State): (q: seq<Cell>)
    requires Counters(s)
    ensures |q| == s.head - s.tail <= s.cap
  {
    seq(s.head - s.tail, i requires 0 <= i < s.head - s.tail => Holds(s.log[s.tail + i]))
  }

  /** Every step is a bounded-FIFO operation or changes nothing abstractly. */
  lemma StepRefinesFifo(s: State, t: Tid, e: Event)
    requires Inv(s) && Enabled(s, t, e)
    ensures Inv(Apply(s, t, e))
    ensures e.CasHead? ==> |Queue(s)| < s.cap && Queue(Apply(s, t, e)) == Queue(s) + [Holds(s.ops[t].task)]
    ensures e.CasTail? ==>
              && Queue(s) != []
              && s.cells[Slot(s.ops[t].pos, s.cap)] == Queue(s)[0]
              && Queue(Apply(s, t, e)) == Queue(s)[1..]
    ensures !e.CasHead? && !e.CasTail? ==> Queue(Apply(s, t, e)) == Queue(s)
  {
    StepInv(s, t, e);
    match e {
      case CasHead => HeadClaim(s, t);
      case CasTail => TailClaim(s, t);
      case _ =>
    }
  }

  /** Over a whole run from s: what was queued plus what was accepted is what was taken plus what is queued. */
  lemma {:induction false} RunConserves(s: State, trace: seq<Label>)
    requires Inv(s) && CanRun(s, trace)
    ensures Inv(RunAll(s, trace)) && RunAll(s, trace).cap == s.cap
    ensures Queue(s) + Accepted(s, trace) == Taken(s, trace) + Queue(RunAll(s, trace))
    decreases |trace|
  {
    if trace != [] {
      var Label(t, e) := trace[0];
      StepConserves(s, t, e);
      var s' := Apply(s, t, e);
      RunConserves(s', trace[1..]);
      var da, dk := AcceptedBy(s, t, e), TakenBy(s, t, e);
      Splice(Queue(s), Queue(s'), da, dk, Accepted(s', trace[1..]), Taken(s', trace[1..]),
          Queue(RunAll(s', trace[1..])));
    }
  }

  lemma StepConserves(s: State, t: Tid, e: Event)
    requires Inv(s) && Enabled(s, t, e)
    ensures Inv(Apply(s, t, e)) && TakenBy(s, t, e) + Queue(Apply(s, t, e)) == Queue(s) + AcceptedBy(s, t, e)
  {
    StepRefinesFifo(s, t, e);
  }

  lemma Splice(q: seq<Cell>, q': seq<Cell>, da: seq<Cell>, dk: seq<Cell>, a: seq<Cell>, k: seq<Cell>, r: seq<Cell>)
    requires dk + q' == q + da && q' + a == k + r
    ensures q + (da + a) == (dk + k) + r
  {
    assert q + (da + a) == (q + da) + a;
    assert (dk + q') + a == dk + (q' + a);
    assert dk + (k + r) == (dk + k) + r;
  }

  /**
    For every capacity and every interleaving of any number of producers and consumers,
    consumers take exactly the accepted tasks, each once, in the order producers won
    their tickets, and at most `cap` accepted tasks are outstanding.
   */
  lemma RingIsBoundedFifo(cap: nat, trace: seq<Label>)
    requires cap >= 2 && CanRun(Init(cap), trace)
    ensures var accepted, taken := Accepted(Init(cap), trace), Taken(Init(cap), trace);
            |taken| <= |accepted| <= |taken| + cap && taken == accepted[..|taken|]
  {
    InitInv(cap);
    RunConserves(Init(cap), trace);
    assert Queue(Init(cap)) + Accepted(Init(cap), trace) == Accepted(Init(cap), trace);
  }

  predicate Claims(op: Op) {
    op.EnqHold? || op.EnqSet? || op.DeqHold? || op.DeqClean?
  }

  /**
    Slots are never shared: two threads that hold a ticket hold different slots, a task
    is stored only into a vacant cell, and a running task's cell still holds it.
   */
  lemma NoOverwrite(s: State, t: Tid)
    requires Inv(s) && t in s.ops && Claims(s.ops[t])
    ensures forall u ::
              u in s.ops && u != t && Claims(s.ops[u]) ==> Slot(s.ops[u].pos, s.cap) != Slot(s.ops[t].pos, s.cap)
    ensures s.ops[t].EnqHold? ==> s.cells[Slot(s.ops[t].pos, s.cap)] == Vacant
    ensures s.ops[t].DeqHold? ==>
              s.ops[t].pos < |s.log| && s.cells[Slot(s.ops[t].pos, s.cap)] == Holds(s.log[s.ops[t].pos])
  {
    assert OpOk(s, t);
    assert SlotOk(s, Slot(s.ops[t].pos, s.cap));
    forall u | u in s.ops && u != t && Claims(s.ops[u])
      ensures Slot(s.ops[u].pos, s.cap) != Slot(s.ops[t].pos, s.cap)
    {
      assert OpOk(s, u);
    }
  }

  /** `enqueue` returns false exactly on a sequence load that proves the previous lap unrecycled. */
  lemma EnqueueFalseMeansFull(s: State, t: Tid)
    requires Inv(s) && Enabled(s, t, LoadEnqSeq)
    requires Enabled(Apply(s, t, LoadEnqSeq), t, EnqFalse)
    ensures s.head == s.ops[t].pos >= s.cap
    ensures s.cur[Slot(s.head, s.cap)] == s.head - s.cap
    ensures s.tail <= s.head - s.cap ==> |Queue(s)| == s.cap
    ensures s.tail > s.head - s.cap ==> Consuming(s, Slot(s.head, s.cap))
  {
    var pos := s.ops[t].pos;
    var i := Slot(pos, s.cap);
    assert OpOk(s, t) && SlotOk(s, i);
    SlotShift(s.cur[i], s.cap);
    SameSlot(s.cur[i] + s.cap, pos, s.cap);
  }

  /** The test `hasItem` and `tryConsumeOne` make on the slot at tail. */
  predicate HasItem(s: State)
    requires Shape(s)
  {
    s.seqs[Slot(s.tail, s.cap)] == s.tail + 1
  }

  /** An accepted task that `hasItem` does not see is still being written by the thread that claimed its ticket. */
  lemma OldestTask(s: State)
    requires Inv(s)
    ensures HasItem(s) ==> s.tail < s.head
    ensures s.tail < s.head && !HasItem(s) ==> Writing(s, Slot(s.tail, s.cap))
  {
    var i := Slot(s.tail, s.cap);
    assert SlotOk(s, i);
    if s.tail < s.head {
      OutstandingTicket(s, s.tail);
    } else if HasItem(s) {
      SameSlot(s.cur[i], s.tail, s.cap);
    }
  }

  /** A dequeue that sees an unpublished slot saw the current oldest ticket unpublished. */
  lemma DequeueFalseMeansEmpty(s: State, t: Tid)
    requires Inv(s) && Enabled(s, t, LoadDeqSeq)
    requires Enabled(Apply(s, t, LoadDeqSeq), t, DeqFalse)
    ensures s.ops[t].pos == s.tail && !HasItem(s)
  {
    var pos := s.ops[t].pos;
    var i := Slot(pos, s.cap);
    assert OpOk(s, t) && SlotOk(s, i);
    SlotShift(s.cur[i], s.cap);
    if s.cur[i] < pos {
      SameSlot(s.cur[i] + s.cap, pos, s.cap);
    } else {
      SameSlot(s.cur[i], pos, s.cap);
    }
  }

  /** A step touches no other thread's position. */
  lemma OpsFrame(s: State, t: Tid, e: Event, u: Tid)
    requires Shape(s) && Enabled(s, t, e) && u != t
    ensures u in Apply(s, t, e).ops <==> u in s.ops
    ensures u in s.ops ==> Apply(s, t, e).ops[u] == s.ops[u]
  {
  }

  predicate Enqueuing(op: Op) { op.EnqPos? || op.EnqSeq? || op.EnqHold? || op.EnqSet? }
  predicate Dequeuing(op: Op) { op.DeqPos? || op.DeqSeq? }

  /** Where a step leaves the thread that takes it. */
  lemma OpAfter(s: State, t: Tid, e: Event)
    requires Shape(s) && Enabled(s, t, e)
    ensures var ops := Apply(s, t, e).ops;
            match e
            case StartEnq(_) => t in ops && ops[t].EnqPos?
            case CasHead => t in ops && ops[t].EnqHold?
            case EnqFalse => t !in ops
            case SetTask => t in ops && ops[t].EnqSet?
            case Publish => t !in ops
            case StartDeq => t in ops && ops[t].DeqPos?
            case CasTail => t in ops && ops[t].DeqHold?
            case DeqFalse => t !in ops
            case Clean => t in ops && ops[t].DeqClean?
            case Recycle => t !in ops
            case LoadDeqSeq => t in ops && Dequeuing(ops[t])
            case CasTailFail => t in ops && Dequeuing(ops[t])
            case ReloadTail => t in ops && Dequeuing(ops[t])
            case _ => t in ops && Enqueuing(ops[t])
  {
  }

  // ---------------------------------------------------------------------
  // Destruction of tasks
  // ---------------------------------------------------------------------

  /** The tickets whose tasks are destroyed, in order. */
  function Cleaned(s: State, trace: seq<Label>): seq<nat>
    requires CanRun(s, trace)
    decreases |trace|
  {
    if trace == [] then [] else
      var Label(t, e) := trace[0];
      (if e.Clean? then [s.ops[t].pos] else []) + Cleaned(Apply(s, t, e), trace[1..])
  }

  predicate Held(s: State, t: Tid, p: nat) { t in s.ops && s.ops[t] == DeqHold(p) }

  /** `gone` are the destroyed tickets: claimed, held by no one; every other claimed ticket is held. */
  ghost predicate Accounted(s: State, gone: set<nat>) {
    && (forall p :: p in gone ==> p < s.tail)
    && (forall p, t :: p in gone ==> !Held(s, t, p))
    && (forall p :: 0 <= p < s.tail && p !in gone ==> exists t :: Held(s, t, p))
  }

  lemma AccountedStep(s: State, t: Tid, e: Event, gone: set<nat>)
    requires Inv(s) && Enabled(s, t, e) && Accounted(s, gone)
    ensures e.Clean? ==> s.ops[t].pos !in gone
    ensures Accounted(Apply(s, t, e), if e.Clean? then gone + {s.ops[t].pos} else gone)
  {
    var s' := Apply(s, t, e);
    var gone' := if e.Clean? then gone + {s.ops[t].pos} else gone;
    if t in s.ops { assert OpOk(s, t); }
    if e.Clean? { assert Held(s, t, s.ops[t].pos); }
    forall p, u | p in gone' ensures !Held(s', u, p) {
      if u != t { OpsFrame(s, t, e, u); }
      if u in s.ops { assert OpOk(s, u) && !(p in gone && Held(s, u, p)); }
    }
    forall p | 0 <= p < s'.tail && p !in gone' ensures exists u :: Held(s', u, p) {
      if p < s.tail {
        var u :| Held(s, u, p);
        if u != t { OpsFrame(s, t, e, u); }
        assert Held(s', u, p);
      } else {
        assert Held(s', t, p);
      }
    }
  }

  /** `q` lists each of its tickets once, and none of them is in `gone`. */
  ghost predicate OnceEach(q: seq<nat>, gone: set<nat>) {
    forall p :: p in q ==> p !in gone && multiset(q)[p] == 1
  }

  lemma OnceMore(now: seq<nat>, rest: seq<nat>, gone: set<nat>)
    requires |now| <= 1 && OnceEach(now, gone) && OnceEach(rest, gone + Elems(now))
    ensures OnceEach(now + rest, gone)
    ensures gone + Elems(now + rest) == gone + Elems(now) + Elems(rest)
  {
    assert multiset(now + rest) == multiset(now) + multiset(rest);
    forall p | p in now + rest ensures p !in gone && multiset(now + rest)[p] == 1 {
      if p in now { assert p in Elems(now); }
    }
  }

  lemma {:induction false} AccountedRun(s: State, trace: seq<Label>, gone: set<nat>)
    requires Inv(s) && CanRun(s, trace) && Accounted(s, gone)
    ensures Accounted(RunAll(s, trace), gone + Elems(Cleaned(s, trace)))
    ensures OnceEach(Cleaned(s, trace), gone)
    decreases |trace|
  {
    if trace == [] {
      assert gone + Elems([]) == gone;
    } else {
      var Label(t, e) := trace[0];
      StepInv(s, t, e);
      AccountedStep(s, t, e, gone);
      var now := if e.Clean? then [s.ops[t].pos] else [];
      assert gone + Elems(now) == if e.Clean? then gone + {s.ops[t].pos} else gone;
      AccountedRun(Apply(s, t, e), trace[1..], gone + Elems(now));
      OnceMore(now, Cleaned(Apply(s, t, e), trace[1..]), gone);
    }
  }

  /** If a run ends with every accepted task claimed and no thread inside the ring, each was destroyed exactly once. */
  lemma DestroyedOnce(cap: nat, trace: seq<Label>)
    requires cap >= 2 && CanRun(Init(cap), trace)
    requires var s := RunAll(Init(cap), trace); s.tail == s.head && s.ops == map[]
    ensures forall p :: 0 <= p < |Accepted(Init(cap), trace)| ==> multiset(Cleaned(Init(cap), trace))[p] == 1
  {
    InitInv(cap);
    RunConserves(Init(cap), trace);
    AcceptedCount(Init(cap), trace);
    AccountedRun(Init(cap), trace, {});
    var s := RunAll(Init(cap), trace);
    forall p | 0 <= p < s.tail ensures multiset(Cleaned(Init(cap), trace))[p] == 1 {
      assert forall t :: !Held(s, t, p);
      assert p in {} + Elems(Cleaned(Init(cap), trace));
    }
  }

  lemma {:induction false} AcceptedCount(s: State, trace: seq<Label>)
    requires Inv(s) && CanRun(s, trace)
    ensures RunAll(s, trace).head == s.head + |Accepted(s, trace)|
    decreases |trace|
  {
    if trace != [] {
      StepInv(s, trace[0].t, trace[0].e);
      AcceptedCount(Apply(s, trace[0].t, trace[0].e), trace[1..]);
    }
  }
}
