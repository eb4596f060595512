/**
  Timer handles: a slot index and a generation packed into one word
  (ControlScheduler.cpp:17-47 and 281-316).  The word width is a parameter w; the
  scheduler uses w == 32.  Truncation to the word is written out with Low.
 */
module Handles {
  import opened Arith

  /** The smallest number of bits whose power of two reaches v. */
  method CeilLog2NonZero(v: nat) returns (bits: nat)
    ensures v <= Pow2(bits)
    ensures forall b :: 0 <= b < bits ==> Pow2(b) < v
  {
    if v <= 1 {
      return 0;
    }
    bits := 0;
    var x := 1;
    while x < v
      invariant x == Pow2(bits)
      invariant forall b :: 0 <= b < bits ==> Pow2(b) < v
      decreases v - x
    {
      x := 2 * x;
      bits := bits + 1;
    }
  }

  function IndexMask(w: nat, bits: nat): nat {
    if bits == 0 then 0 else if bits >= w then Ones(w) else Pow2(bits) - 1
  }

  /** Shifting a w-bit word by w or more is undefined, so `bits` stays below w. */
  function GenerationMask(w: nat, bits: nat): nat
    requires bits < w
  {
    if bits == 0 then Ones(w) else Shr(Ones(w), bits)
  }

  function Pack(w: nat, bits: nat, idx: nat, gen: nat): nat
    requires bits < w
  {
    if bits == 0 then gen
    else BitOr(Low(Shl(BitAnd(gen, GenerationMask(w, bits)), bits), w), BitAnd(idx, IndexMask(w, bits)))
  }

  function UnpackIndex(w: nat, bits: nat, handle: nat): nat {
    if bits == 0 then 0 else BitAnd(handle, IndexMask(w, bits))
  }

  function UnpackGeneration(w: nat, bits: nat, handle: nat): nat
    requires bits < w
  {
    if bits == 0 then handle else BitAnd(Shr(handle, bits), GenerationMask(w, bits))
  }

  function NextGeneration(w: nat, bits: nat, current: nat): nat
    requires bits < w
  {
    var sum := Low(current + 1, w);
    var next := if bits != 0 then BitAnd(sum, GenerationMask(w, bits)) else sum;
    if next == 0 then 1 else next
  }

  predicate ValidGeneration(w: nat, bits: nat, gen: nat)
    requires bits < w
  {
    1 <= gen <= GenerationMask(w, bits)
  }

  /** The generation mask is all ones over the bits the index leaves. */
  lemma GenerationMaskIs(w: nat, bits: nat)
    requires bits < w
    ensures GenerationMask(w, bits) == Ones(w - bits) >= 1
  {
    ShrOnes(w, bits);
    OnesMono(1, w - bits);
  }

  /** A value within the low k bits passes their mask. */
  lemma MaskKeeps(x: nat, k: nat)
    requires x <= Ones(k)
    ensures BitAnd(x, Ones(k)) == x
  {
    AndOnes(x, k);
    LowSmall(x, k);
  }

  lemma ShiftedFits(w: nat, bits: nat, gen: nat)
    requires bits < w && gen <= Ones(w - bits)
    ensures Shl(gen, bits) + Ones(bits) <= Ones(w) && Low(Shl(gen, bits), w) == Shl(gen, bits)
  {
    ShlFits(gen, bits, w);
    LowSmall(Shl(gen, bits), w);
  }

  /** What packing computes: generation above, index below. */
  lemma PackIs(w: nat, bits: nat, idx: nat, gen: nat)
    requires bits < w && idx < Pow2(bits) && gen <= GenerationMask(w, bits)
    ensures Pack(w, bits, idx, gen) == Shl(gen, bits) + idx <= Ones(w)
  {
    var top := GenerationMask(w, bits);
    assert top == Ones(w - bits) by { GenerationMaskIs(w, bits); }
    ShiftedFits(w, bits, gen);
    if bits > 0 {
      assert BitAnd(gen, top) == gen by { MaskKeeps(gen, w - bits); }
      assert BitAnd(idx, IndexMask(w, bits)) == idx by { MaskKeeps(idx, bits); }
      OrLow(gen, idx, bits);
    }
  }

  /** Pack and unpack undo each other, and no handle is zero. */
  lemma PackRoundTrip(w: nat, bits: nat, idx: nat, gen: nat)
    requires bits < w && idx < Pow2(bits) && ValidGeneration(w, bits, gen)
    ensures UnpackIndex(w, bits, Pack(w, bits, idx, gen)) == idx
    ensures UnpackGeneration(w, bits, Pack(w, bits, idx, gen)) == gen
    ensures 0 < Pack(w, bits, idx, gen) <= Ones(w)
  {
    var h := Pack(w, bits, idx, gen);
    PackIs(w, bits, idx, gen);
    ShlGrows(gen, bits);
    UnpackIs(w, bits, h, idx, gen);
  }

  lemma UnpackIs(w: nat, bits: nat, h: nat, idx: nat, gen: nat)
    requires bits < w && idx < Pow2(bits) && ValidGeneration(w, bits, gen) && h == Shl(gen, bits) + idx
    ensures UnpackIndex(w, bits, h) == idx && UnpackGeneration(w, bits, h) == gen
  {
    if bits > 0 {
      assert Low(h, bits) == idx && Shr(h, bits) == gen by { Unsplit(gen, idx, bits); }
      AndOnes(h, bits);
      assert GenerationMask(w, bits) == Ones(w - bits) by { GenerationMaskIs(w, bits); }
      MaskKeeps(gen, w - bits);
    }
  }

  /** Unpacking then packing gives the handle back, for every word. */
  lemma UnpackRoundTrip(w: nat, bits: nat, handle: nat)
    requires bits < w && handle <= Ones(w)
    ensures Pack(w, bits, UnpackIndex(w, bits, handle), UnpackGeneration(w, bits, handle)) == handle
  {
    if bits > 0 {
      Split(handle, bits);
      GenerationMaskIs(w, bits);
      AndOnes(handle, bits);
      ShrMono(handle, Ones(w), bits);
      ShrOnes(w, bits);
      AndOnes(Shr(handle, bits), w - bits);
      LowSmall(Shr(handle, bits), w - bits);
      PackIs(w, bits, Low(handle, bits), Shr(handle, bits));
    }
  }

  /** Different live timers (slot, generation) never share a handle. */
  lemma HandlesDistinct(w: nat, bits: nat, i: nat, g: nat, j: nat, h: nat)
    requires bits < w && i < Pow2(bits) && j < Pow2(bits) && ValidGeneration(w, bits, g) && ValidGeneration(w, bits, h)
    requires Pack(w, bits, i, g) == Pack(w, bits, j, h)
    ensures i == j && g == h
  {
    PackRoundTrip(w, bits, i, g);
    PackRoundTrip(w, bits, j, h);
  }

  /** Generations cycle through 1..mask. */
  lemma NextGenerationIs(w: nat, bits: nat, gen: nat)
    requires bits < w && ValidGeneration(w, bits, gen)
    ensures NextGeneration(w, bits, gen) == if gen == GenerationMask(w, bits) then 1 else gen + 1
    ensures ValidGeneration(w, bits, NextGeneration(w, bits, gen))
  {
    GenerationMaskIs(w, bits);
    var k := w - bits;
    OnesMono(k, w);
    AndOnes(Low(gen + 1, w), k);
    if gen < Ones(k) {
      LowSmall(gen + 1, w);
      LowSmall(gen + 1, k);
    } else {
      LowWraps(k);
      if bits > 0 {
        OnesMono(k, w - 1);
        LowSmall(gen + 1, w);
      }
    }
  }

  /** The generation of a slot that has been freed n times since it had `gen`. */
  function Freed(w: nat, bits: nat, gen: nat, n: nat): nat
    requires bits < w
  {
    if n == 0 then gen else NextGeneration(w, bits, Freed(w, bits, gen, n - 1))
  }

  lemma {:induction false} FreedIs(w: nat, bits: nat, gen: nat, n: nat)
    requires bits < w && ValidGeneration(w, bits, gen)
    ensures ValidGeneration(w, bits, Freed(w, bits, gen, n))
    ensures Freed(w, bits, gen, n) == 1 + Mod(gen - 1 + n, GenerationMask(w, bits))
  {
    if n > 0 {
      FreedIs(w, bits, gen, n - 1);
      NextGenerationIs(w, bits, Freed(w, bits, gen, n - 1));
      ModStep(gen - 1 + (n - 1), GenerationMask(w, bits));
    }
  }

  /** A stale handle matches its slot again exactly after a multiple of `mask` frees. */
  lemma StaleHandleMatches(w: nat, bits: nat, idx: nat, gen: nat, n: nat)
    requires bits < w && idx < Pow2(bits) && ValidGeneration(w, bits, gen)
    ensures ValidGeneration(w, bits, Freed(w, bits, gen, n))
    ensures Pack(w, bits, idx, Freed(w, bits, gen, n)) == Pack(w, bits, idx, gen)
            <==> Mod(n, GenerationMask(w, bits)) == 0
  {
    FreedIs(w, bits, gen, n);
    ModAdd(gen - 1, n, GenerationMask(w, bits));
    if Pack(w, bits, idx, Freed(w, bits, gen, n)) == Pack(w, bits, idx, gen) {
      HandlesDistinct(w, bits, idx, Freed(w, bits, gen, n), idx, gen);
    }
  }
}
