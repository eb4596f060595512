/**
  The table of delayed (timer) slots with its linked free list
  (ControlScheduler.cpp:318-560 and ControlScheduler.h:552-663).

  Table is the abstract value: each slot's generation and phase, and the free list in order.
  DelayedTimers is the representation the scheduler keeps, updated in place: slot records
  and a free list threaded through nextFree.  Allocation, cancellation, firing, running
  and discarding are each one step, as if under a lock.
 */
module DelayedSlots {
  import opened Arith
  import opened Collections
  import opened Handles

  datatype Owner = NoOwner | OwnedBy(r: nat)

  /** Vacant: not in use.  Armed: in use, not completed.  Fired: in use and completed, its task handed to the queue. */
  datatype Phase = Vacant | Armed(cb: nat, owner: Owner) | Fired(cb: nat, owner: Owner)

  datatype Slot = Slot(gen: nat, phase: Phase)

  datatype Table = Table(w: nat, bits: nat, slots: seq<Slot>, free: seq<nat>)

  predicate FreeListOk(t: Table) {
    && Distinct(t.free)
    && (forall j :: 0 <= j < |t.free| ==> t.free[j] < |t.slots|)
    && (forall i :: 0 <= i < |t.slots| ==> (t.slots[i].phase.Vacant? <==> i in t.free))
  }

  predicate TableOk(t: Table) {
    && t.bits < t.w
    && |t.slots| <= Pow2(t.bits)
    && FreeListOk(t)
    && (forall i :: 0 <= i < |t.slots| ==> ValidGeneration(t.w, t.bits, t.slots[i].gen))
  }

  // ---------------------------------------------------------------------
  // Abstract operations
  // ---------------------------------------------------------------------

  predicate InUse(t: Table, i: nat, gen: nat) {
    i < |t.slots| && !t.slots[i].phase.Vacant? && t.slots[i].gen == gen
  }

  predicate CanFire(t: Table, i: nat, gen: nat) {
    InUse(t, i, gen) && t.slots[i].phase.Armed?
  }

  function Arm(t: Table, cb: nat, owner: Owner): Table
    requires TableOk(t) && t.free != []
  {
    var i := t.free[0];
    t.(slots := t.slots[i := Slot(t.slots[i].gen, Armed(cb, owner))], free := t.free[1..])
  }

  function Free(t: Table, i: nat): Table
    requires t.bits < t.w && i < |t.slots|
  {
    t.(slots := t.slots[i := Slot(NextGeneration(t.w, t.bits, t.slots[i].gen), Vacant)], free := [i] + t.free)
  }

  function Fire(t: Table, i: nat, gen: nat): Table
    requires CanFire(t, i, gen)
  {
    t.(slots := t.slots[i := Slot(gen, Fired(t.slots[i].phase.cb, t.slots[i].phase.owner))])
  }

  /** runDelayedByIndex (after the callback) and discardFiredDelayed: free the slot if the token still names it. */
  function Finish(t: Table, i: nat, gen: nat): Table
    requires t.bits < t.w
  {
    if InUse(t, i, gen) then Free(t, i) else t
  }

  predicate CanCancel(t: Table, handle: nat)
    requires t.bits < t.w
  {
    && handle != 0
    && CanFire(t, UnpackIndex(t.w, t.bits, handle), UnpackGeneration(t.w, t.bits, handle))
  }

  lemma ArmKeeps(t: Table, cb: nat, owner: Owner)
    requires TableOk(t) && t.free != []
    ensures TableOk(Arm(t, cb, owner))
  {
    var t' := Arm(t, cb, owner);
    assert t.free == [t.free[0]] + t'.free;
    forall i | 0 <= i < |t'.slots| ensures t'.slots[i].phase.Vacant? <==> i in t'.free {
      assert t.slots[i].phase.Vacant? <==> i in t.free;
      assert i in t'.free ==> i != t.free[0];
    }
  }

  lemma FreeKeeps(t: Table, i: nat)
    requires TableOk(t) && i < |t.slots| && !t.slots[i].phase.Vacant?
    ensures TableOk(Free(t, i))
  {
    NextGenerationIs(t.w, t.bits, t.slots[i].gen);
    assert i !in t.free;
  }

  function UsedSlots(t: Table): set<nat> {
    set i | i in Below(|t.slots|) && !t.slots[i].phase.Vacant?
  }

  /** Free plus in-use slots always number the maximum. */
  lemma Conservation(t: Table)
    requires TableOk(t)
    ensures |t.free| + |UsedSlots(t)| == |t.slots|
  {
    BelowSize(|t.slots|);
    DistinctSize(t.free);
    assert Below(|t.slots|) == UsedSlots(t) + Elems(t.free);
    assert UsedSlots(t) !! Elems(t.free);
  }

  // ---------------------------------------------------------------------
  // The representation
  // ---------------------------------------------------------------------

  /** The list terminator, 0xFFFFFFFF. */
  const INVALID_INDEX: nat := 0xFFFF_FFFF

  datatype Rec = Rec(generation: nat, inUse: bool, completed: bool, nextFree: nat, cb: nat, owner: Owner)

  function Abs(r: Rec): Slot {
    Slot(r.generation,
         if !r.inUse then Vacant else if r.completed then Fired(r.cb, r.owner) else Armed(r.cb, r.owner))
  }

  function AbsAll(q: seq<Rec>): (r: seq<Slot>)
    ensures |r| == |q| && forall i :: 0 <= i < |q| ==> r[i] == Abs(q[i])
  {
    seq(|q|, i requires 0 <= i < |q| => Abs(q[i]))
  }

  /** Entry j of the free list is an index whose nextFree is the following entry, or the terminator. */
  predicate LinkAt(q: seq<Rec>, free: seq<nat>, j: nat)
    requires j < |free|
  {
    free[j] < |q| && q[free[j]].nextFree == (if j + 1 < |free| then free[j + 1] else INVALID_INDEX)
  }

  /** The free list `free` is threaded from `head` through nextFree. */
  predicate Threaded(q: seq<Rec>, head: nat, free: seq<nat>) {
    && head == (if free == [] then INVALID_INDEX else free[0])
    && (forall j :: 0 <= j < |free| ==> LinkAt(q, free, j))
  }

  lemma PopThread(q: seq<Rec>, head: nat, free: seq<nat>, r: Rec)
    requires Threaded(q, head, free) && Distinct(free) && free != []
    ensures LinkAt(q, free, 0) && Threaded(q[free[0] := r], q[free[0]].nextFree, free[1..])
  {
    assert LinkAt(q, free, 0);
    var q', rest := q[free[0] := r], free[1..];
    forall j | 0 <= j < |rest| ensures LinkAt(q', rest, j) {
      assert LinkAt(q, free, j + 1);
      assert rest[j] == free[j + 1];
    }
  }

  lemma PushThread(q: seq<Rec>, head: nat, free: seq<nat>, i: nat, r: Rec)
    requires Threaded(q, head, free) && i < |q| && i !in free && r.nextFree == head
    ensures Threaded(q[i := r], i, [i] + free)
  {
    var q', all := q[i := r], [i] + free;
    forall j | 0 <= j < |all| ensures LinkAt(q', all, j) {
      if j > 0 {
        assert LinkAt(q, free, j - 1);
        assert all[j] == free[j - 1];
      }
    }
  }

  lemma TouchThread(q: seq<Rec>, head: nat, free: seq<nat>, i: nat, r: Rec)
    requires Threaded(q, head, free) && i < |q| && (r.nextFree == q[i].nextFree || i !in free)
    ensures Threaded(q[i := r], head, free)
  {
    var q' := q[i := r];
    forall j | 0 <= j < |free| ensures LinkAt(q', free, j) { assert LinkAt(q, free, j); }
  }

  function FreshRec(i: nat, max: nat): Rec {
    Rec(1, false, false, if i + 1 < max then i + 1 else INVALID_INDEX, 0, NoOwner)
  }

  lemma FreshOk(w: nat, bits: nat, q: seq<Rec>, free: seq<nat>)
    requires bits < w && |q| <= Pow2(bits) && |free| == |q|
    requires forall i :: 0 <= i < |q| ==> q[i] == FreshRec(i, |q|) && free[i] == i
    ensures Threaded(q, if |q| > 0 then 0 else INVALID_INDEX, free)
    ensures TableOk(Table(w, bits, AbsAll(q), free))
  {
    GenerationMaskIs(w, bits);
    forall j | 0 <= j < |free| ensures LinkAt(q, free, j) { }
    forall i | 0 <= i < |q| ensures i in free { assert free[i] == i; }
  }

  /** Changing an in-use slot to another in-use phase keeps the table well formed. */
  lemma TouchKeeps(t: Table, i: nat, x: Slot)
    requires TableOk(t) && i < |t.slots| && !t.slots[i].phase.Vacant? && !x.phase.Vacant? && x.gen == t.slots[i].gen
    ensures TableOk(t.(slots := t.slots[i := x]))
  {
  }

  lemma AbsUpdate(q: seq<Rec>, i: nat, r: Rec)
    requires i < |q|
    ensures AbsAll(q[i := r]) == AbsAll(q)[i := Abs(r)]
  {
  }

  class DelayedTimers {
    const w: nat
    const bits: nat
    const slots: array<Rec>
    var freeHead: nat
    ghost var free: seq<nat>

    ghost function View(): Table
      reads this, slots
    {
      Table(w, bits, AbsAll(slots[..]), free)
    }

    ghost predicate Valid()
      reads this, slots
    {
      slots.Length < INVALID_INDEX && Threaded(slots[..], freeHead, free) && TableOk(View())
    }

    /** All slots vacant with generation 1, linked in index order. */
    constructor (w: nat, bits: nat, max: nat)
      requires bits < w && max <= Pow2(bits) && max < INVALID_INDEX
      ensures Valid() && fresh(slots)
      ensures slots.Length == max && |free| == max && this.w == w && this.bits == bits
      ensures forall i :: 0 <= i < max ==> free[i] == i && View().slots[i] == Slot(1, Vacant)
    {
      this.w := w;
      this.bits := bits;
      slots := new Rec[max](i requires 0 <= i => FreshRec(i, max));
      freeHead := if max > 0 then 0 else INVALID_INDEX;
      free := seq(max, i => i);
      new;
      FreshOk(w, bits, slots[..], free);
    }

    /** allocDelayedSlot: unlink the head of the free list and mark the slot in use. */
    method Alloc() returns (idx: nat)
      requires Valid()
      modifies this, slots
      ensures old(free) == [] ==> idx == INVALID_INDEX && Valid() && View() == old(View())
      ensures old(free) != [] ==>
                && idx == old(free)[0] && slots.Length < INVALID_INDEX
                && Threaded(slots[..], freeHead, free)
                && (exists cb :: View() == Arm(old(View()), cb, NoOwner))
    {
      if freeHead == INVALID_INDEX {
        return INVALID_INDEX;
      }
      idx := freeHead;
      var r := slots[idx].(nextFree := INVALID_INDEX, inUse := true, completed := false, owner := NoOwner);
      PopThread(slots[..], freeHead, free, r);
      AbsUpdate(slots[..], idx, r);
      freeHead := slots[idx].nextFree;
      slots[idx] := r;
      free := free[1..];
      assert slots[..] == old(slots[..])[idx := r];
      assert View() == Arm(old(View()), r.cb, NoOwner);
    }

    /** freeDelayedSlot: next generation, then push on the free list. */
    method FreeSlot(idx: nat)
      requires Valid()
      requires idx < slots.Length ==> slots[idx].inUse
      modifies this, slots
      ensures Valid()
      ensures View() == if idx < slots.Length then Free(old(View()), idx) else old(View())
    {
      if idx >= slots.Length {
        return;
      }
      FreeKeeps(View(), idx);
      assert View().slots[idx] == Abs(slots[idx]);
      var r := slots[idx].(owner := NoOwner, completed := false,
        generation := NextGeneration(w, bits, slots[idx].generation), inUse := false, nextFree := freeHead);
      PushThread(slots[..], freeHead, free, idx, r);
      AbsUpdate(slots[..], idx, r);
      slots[idx] := r;
      freeHead := idx;
      free := [idx] + free;
      assert slots[..] == old(slots[..])[idx := r];
    }

    /** A store to a slot in use that leaves it in use. */
    method Store(idx: nat, r: Rec)
      requires idx < slots.Length < INVALID_INDEX && Threaded(slots[..], freeHead, free) && TableOk(View())
      requires slots[idx].inUse && r.inUse && r.generation == slots[idx].generation && r.nextFree == slots[idx].nextFree
      modifies slots
      ensures Valid() && slots[idx] == r
      ensures View() == old(View()).(slots := old(View()).slots[idx := Abs(r)])
    {
      assert View().slots[idx] == Abs(slots[idx]);
      TouchThread(slots[..], freeHead, free, idx, r);
      TouchKeeps(View(), idx, Abs(r));
      AbsUpdate(slots[..], idx, r);
      slots[idx] := r;
      assert slots[..] == old(slots[..])[idx := r];
    }

    /** schedule: arm a slot; 0 when none is free or (timer false) the time manager refuses. */
    method Schedule(cb: nat, owner: Owner, timer: bool) returns (handle: nat)
      requires Valid()
      modifies this, slots
      ensures Valid()
      ensures old(free) == [] ==> handle == 0 && View() == old(View())
      ensures old(free) != [] && timer ==>
                && View() == Arm(old(View()), cb, owner)
                && handle == Pack(w, bits, old(free)[0], old(slots[free[0]].generation)) != 0
      ensures old(free) != [] && !timer ==>
                handle == 0 && View() == Free(Arm(old(View()), cb, owner), old(free)[0])
    {
      ghost var before := View();
      if free != [] { assert before.slots[free[0]] == Abs(slots[free[0]]); }
      var idx := Alloc();
      if idx == INVALID_INDEX {
        return 0;
      }
      ghost var any :| View() == Arm(before, any, NoOwner);
      ArmKeeps(before, any, NoOwner);
      assert View().slots[idx] == Abs(slots[idx]);
      Store(idx, slots[idx].(cb := cb, owner := owner, completed := false));
      assert View() == Arm(before, cb, owner);
      handle := Pack(w, bits, idx, slots[idx].generation);
      PackRoundTrip(w, bits, idx, slots[idx].generation);
      if !timer {
        FreeSlot(idx);
        handle := 0;
      }
    }

    /** The claim that cancelDelayed and onTimerFired both make: check, then exchange completed. */
    method Claim(idx: nat, gen: nat) returns (ok: bool)
      requires Valid()
      modifies slots
      ensures Valid() && free == old(free)
      ensures ok == CanFire(old(View()), idx, gen)
      ensures View() == if ok then Fire(old(View()), idx, gen) else old(View())
    {
      if idx < slots.Length { assert View().slots[idx] == Abs(slots[idx]); }
      if idx >= slots.Length || !slots[idx].inUse || slots[idx].generation != gen || slots[idx].completed {
        return false;
      }
      Store(idx, slots[idx].(completed := true));
      return true;
    }

    /** cancelDelayed. */
    method Cancel(handle: nat) returns (ok: bool)
      requires Valid()
      modifies this, slots
      ensures Valid()
      ensures ok == CanCancel(old(View()), handle)
      ensures View() == if ok then Free(old(View()), UnpackIndex(w, bits, handle)) else old(View())
    {
      if handle == 0 || slots.Length == 0 {
        return false;
      }
      var idx, gen := UnpackIndex(w, bits, handle), UnpackGeneration(w, bits, handle);
      ok := Claim(idx, gen);
      if ok {
        assert View().slots[idx] == Abs(slots[idx]);
        FreeSlot(idx);
      }
    }

    /** The end of runDelayedByIndex, and discardFiredDelayed. */
    method Release(idx: nat, gen: nat)
      requires Valid()
      modifies this, slots
      ensures Valid()
      ensures View() == Finish(old(View()), idx, gen)
    {
      if idx < slots.Length { assert View().slots[idx] == Abs(slots[idx]); }
      if idx >= slots.Length || !slots[idx].inUse || slots[idx].generation != gen {
        return;
      }
      FreeSlot(idx);
    }
  }
}
