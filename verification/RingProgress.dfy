/**
  What one thread achieves on a ring while no other is inside (ThreadPool.hpp:165-263): an enqueue is accepted
  exactly if the ring has room, and a dequeue takes a task exactly if it has one.
 */
module RingProgress {
  import Arith
  import opened Ring

  /** What the steps of thread t lead to. */
  predicate Leads(s: State, t: Tid, es: seq<Event>, s': State)
    decreases |es|
  {
    if es == [] then s' == s
    else Shape(s) && Enabled(s, t, es[0]) && Leads(Apply(s, t, es[0]), t, es[1..], s')
  }

  lemma LeadsFirst(s: State, t: Tid, e: Event, es: seq<Event>, s': State)
    requires Shape(s) && Enabled(s, t, e) && Leads(Apply(s, t, e), t, es, s')
    ensures Leads(s, t, [e] + es, s')
  {
    assert ([e] + es)[1..] == es;
  }

  /** The slot of the next ticket, when nobody is inside. */
  lemma HeadSlot(s: State)
    requires Inv(s) && s.ops == map[]
    ensures s.head < s.tail + s.cap ==> s.seqs[Slot(s.head, s.cap)] == s.head
    ensures s.head == s.tail + s.cap ==> s.seqs[Slot(s.head, s.cap)] < s.head
  {
    var i := Slot(s.head, s.cap);
    assert SlotOk(s, i);
    if s.cur[i] + s.cap > s.head { SameSlot(s.cur[i], s.head, s.cap); }
  }

  lemma TailSlot(s: State)
    requires Inv(s) && s.ops == map[]
    ensures s.tail < s.head ==> s.seqs[Slot(s.tail, s.cap)] == s.tail + 1
    ensures s.tail == s.head ==> s.seqs[Slot(s.tail, s.cap)] < s.tail + 1
  {
    var i := Slot(s.tail, s.cap);
    assert SlotOk(s, i);
    if s.tail < s.head { OutstandingTicket(s, s.tail); }
    else if s.cur[i] + s.cap > s.tail { SameSlot(s.cur[i], s.tail, s.cap); }
  }

  /** With room, the task is the last of the queue afterwards; without, nothing has changed. */
  lemma SoloEnqueue(s: State, t: Tid, task: Task) returns (es: seq<Event>, s': State)
    requires Inv(s) && s.ops == map[]
    ensures Leads(s, t, es, s') && Inv(s') && s'.ops == map[]
    ensures if |Queue(s)| < s.cap then Queue(s') == Queue(s) + [Holds(task)] else s' == s
  {
    HeadSlot(s);
    StepRefinesFifo(s, t, StartEnq(task));
    var s1 := Apply(s, t, StartEnq(task));
    StepRefinesFifo(s1, t, LoadEnqSeq);
    var s2 := Apply(s1, t, LoadEnqSeq);
    if |Queue(s)| < s.cap {
      es, s' := AcceptSteps(s2, t);
    } else {
      StepRefinesFifo(s2, t, EnqFalse);
      es, s' := [EnqFalse], Apply(s2, t, EnqFalse);
      assert s'.ops == map[];
      LeadsFirst(s2, t, EnqFalse, [], s');
      assert [EnqFalse] + [] == [EnqFalse];
    }
    LeadsFirst(s1, t, LoadEnqSeq, es, s');
    LeadsFirst(s, t, StartEnq(task), [LoadEnqSeq] + es, s');
    es := [StartEnq(task)] + ([LoadEnqSeq] + es);
  }

  lemma AcceptSteps(s: State, t: Tid) returns (es: seq<Event>, s': State)
    requires Inv(s) && s.ops.Keys == {t} && Enabled(s, t, CasHead)
    ensures Leads(s, t, es, s') && Inv(s') && s'.ops == map[] && Queue(s') == Queue(s) + [Holds(s.ops[t].task)]
  {
    StepRefinesFifo(s, t, CasHead);
    var s1 := Apply(s, t, CasHead);
    StepRefinesFifo(s1, t, SetTask);
    var s2 := Apply(s1, t, SetTask);
    StepRefinesFifo(s2, t, Publish);
    s' := Apply(s2, t, Publish);
    assert s'.ops.Keys == {};
    LeadsFirst(s2, t, Publish, [], s');
    LeadsFirst(s1, t, SetTask, [Publish] + [], s');
    LeadsFirst(s, t, CasHead, [SetTask] + ([Publish] + []), s');
    es := [CasHead] + ([SetTask] + ([Publish] + []));
  }

  /** With a task in the queue, its first is taken and cleaned; without, nothing has changed. */
  lemma SoloDequeue(s: State, t: Tid) returns (es: seq<Event>, s': State)
    requires Inv(s) && s.ops == map[]
    ensures Leads(s, t, es, s') && Inv(s') && s'.ops == map[]
    ensures if Queue(s) == [] then s' == s else CasTail in es && Clean in es && Queue(s') == Queue(s)[1..]
  {
    TailSlot(s);
    StepRefinesFifo(s, t, StartDeq);
    var s1 := Apply(s, t, StartDeq);
    StepRefinesFifo(s1, t, LoadDeqSeq);
    var s2 := Apply(s1, t, LoadDeqSeq);
    if Queue(s) != [] {
      es, s' := TakeSteps(s2, t);
    } else {
      StepRefinesFifo(s2, t, DeqFalse);
      es, s' := [DeqFalse], Apply(s2, t, DeqFalse);
      assert s'.ops == map[];
      LeadsFirst(s2, t, DeqFalse, [], s');
      assert [DeqFalse] + [] == [DeqFalse];
    }
    LeadsFirst(s1, t, LoadDeqSeq, es, s');
    LeadsFirst(s, t, StartDeq, [LoadDeqSeq] + es, s');
    es := [StartDeq] + ([LoadDeqSeq] + es);
  }

  lemma TakeSteps(s: State, t: Tid) returns (es: seq<Event>, s': State)
    requires Inv(s) && s.ops.Keys == {t} && Enabled(s, t, CasTail)
    ensures Leads(s, t, es, s') && Inv(s') && s'.ops == map[] && CasTail in es && Clean in es
    ensures Queue(s) != [] && Queue(s') == Queue(s)[1..]
  {
    StepRefinesFifo(s, t, CasTail);
    var s1 := Apply(s, t, CasTail);
    StepRefinesFifo(s1, t, Clean);
    var s2 := Apply(s1, t, Clean);
    StepRefinesFifo(s2, t, Recycle);
    s' := Apply(s2, t, Recycle);
    assert s'.ops.Keys == {};
    LeadsFirst(s2, t, Recycle, [], s');
    LeadsFirst(s1, t, Clean, [Recycle] + [], s');
    LeadsFirst(s, t, CasTail, [Clean] + ([Recycle] + []), s');
    es := [CasTail] + ([Clean] + ([Recycle] + []));
  }
}
