/**
 The bump-pointer arena over machine words of `bits` bits. An address is a word and NULL is 0.
 A slab in use fits the address space.
 */
module Arena {
  import opened Words

  const DEFAULT_ALIGN: nat := 16

  /** A block handed out since the last reset. */
  datatype Block = Block(start: nat, size: nat, align: nat)

  predicate Apart(x: Block, y: Block) {
    x.start + x.size <= y.start || y.start + y.size <= x.start
  }

  /** Blocks lie apart exactly when no address is in both. */
  lemma ApartMeans(x: Block, y: Block)
    requires x.size > 0 && y.size > 0
    ensures Apart(x, y) <==> forall a: nat :: !(In(a, x) && In(a, y))
  {
    if !Apart(x, y) {
      var a := if x.start < y.start then y.start else x.start;
      assert In(a, x) && In(a, y);
    }
  }

  predicate In(a: nat, b: Block) {
    b.start <= a < b.start + b.size
  }

  /** Blocks inside [base, base + used), aligned, nonempty and pairwise disjoint. */
  predicate Safe(base: nat, used: nat, blocks: seq<Block>) {
    && (forall i :: 0 <= i < |blocks| ==> Placed(base, used, blocks[i]))
    && (forall i, j :: 0 <= i < j < |blocks| ==> Apart(blocks[i], blocks[j]))
  }

  predicate Placed(base: nat, used: nat, b: Block) {
    b.align > 0 && b.size > 0 && base <= b.start && b.start % b.align == 0 && b.start + b.size <= base + used
  }

  /** An aligned block of this size at p lies in the free tail. */
  predicate Fits(p: nat, base: nat, capacity: nat, used: nat, size: nat, align: nat)
    requires align > 0
  {
    base + used <= p && p % align == 0 && p + size <= base + capacity
  }

  /** No aligned block of this size lies in the free tail. */
  ghost predicate NoneFits(base: nat, capacity: nat, used: nat, size: nat, align: nat) {
    align > 0 && forall q: nat :: !Fits(q, base, capacity, used, size, align)
  }

  /** The arena: a slab and how much of it is used. */
  class Arena {
    const bits: nat
    var base: nat
    var capacity: nat
    var used: nat
    ghost var blocks: seq<Block>

    constructor (bits: nat)
      ensures this.bits == bits
    {
      this.bits := bits;
      base, capacity, used := 0, 0, 0;
      blocks := [];
    }

    ghost predicate Valid()
      reads this
    {
      && 0 < base
      && 0 < capacity
      && base + capacity <= Pow2(bits)
      && used <= capacity
      && Safe(base, used, blocks)
    }
  }

  /** The machine arithmetic of an allocation: where the aligned block starts, as an offset. */
  function AlignedUsed(bits: nat, base: nat, used: nat, align: nat): nat
    requires 0 < align < Pow2(bits) && base < Pow2(bits)
  {
    (AlignUp(bits, (base + used) % Pow2(bits), align) + Pow2(bits) - base) % Pow2(bits)
  }

  lemma AlignedOffset(bits: nat, base: nat, used: nat, align: nat)
    requires 0 < align < Pow2(bits) && IsPowerOfTwo(align) && 0 < base && base + used < Pow2(bits)
    ensures AlignedUsed(bits, base, used, align) ==
            if RoundUp(base + used, align) < Pow2(bits) then RoundUp(base + used, align) - base else Pow2(bits) - base
  {
    hide AlignUp, RoundUp, Pow2, IsPowerOfTwo;
    var w, v := Pow2(bits), base + used;
    SmallMod(v, w);
    AlignUpIs(bits, v, align);
    var t := AlignUp(bits, v, align);
    RoundUpAbove(v, align);
    WordDifference(t, base, w);
  }

  lemma RoundUpAbove(x: nat, a: nat)
    requires a > 0
    ensures RoundUp(x, a) >= x
  {
  }

  /** A slab that ends with the address space and is full wraps to offset zero, and back to its end. */
  lemma FullOffset(bits: nat, base: nat, used: nat, align: nat)
    requires 0 < align < Pow2(bits) && IsPowerOfTwo(align) && 0 < base < Pow2(bits) && base + used == Pow2(bits)
    ensures AlignedUsed(bits, base, used, align) == used
  {
    hide AlignUp, RoundUp, Pow2, IsPowerOfTwo;
    var w := Pow2(bits);
    WholeWord(w);
    AlignUpIs(bits, 0, align);
    RoundUpZero(align);
    WordDifference(0, base, w);
  }

  /** The machine arithmetic finds the least aligned offset, or, when that wraps, one at or past the end of the slab. */
  lemma AlignedUsedIs(bits: nat, base: nat, capacity: nat, used: nat, align: nat)
    requires 0 < align < Pow2(bits) && IsPowerOfTwo(align) && 0 < base && 0 < capacity && used <= capacity && base + capacity <= Pow2(bits)
    ensures AlignedUsed(bits, base, used, align) == RoundUp(base + used, align) - base
            || (AlignedUsed(bits, base, used, align) >= capacity && RoundUp(base + used, align) >= base + capacity)
  {
    hide AlignUp, AlignedUsed, RoundUp, Pow2, IsPowerOfTwo;
    RoundUpAbove(base + used, align);
    if base + used < Pow2(bits) {
      AlignedOffset(bits, base, used, align);
    } else {
      FullOffset(bits, base, used, align);
    }
  }

  lemma WholeWord(w: nat)
    requires w > 0
    ensures w % w == 0
  {
  }

  lemma RoundUpZero(a: nat)
    requires a > 0
    ensures RoundUp(0, a) == 0
  {
    assert 0 % a == 0;
  }

  /** Subtraction of words. */
  lemma WordDifference(x: nat, b: nat, w: nat)
    requires x < w && 0 < b < w
    ensures (x + w - b) % w == if b <= x then x - b else x + w - b
  {
    if b <= x {
      DivisionUnique(x + w - b, w, 1, x - b);
    } else {
      DivisionUnique(x + w - b, w, 0, x + w - b);
    }
  }

  // ---------------------------------------------------------------- the operations

  /** Takes over a slab; a null arena, a null slab and an empty slab are errors. */
  method Init(arena: Arena?, base: nat, capacity: nat) returns (rc: int)
    modifies arena
    ensures rc == if arena == null || base == 0 || capacity == 0 then -1 else 0
    ensures rc == 0 ==> arena.base == base && arena.capacity == capacity && arena.used == 0 && arena.blocks == []
    ensures rc == 0 && base + capacity <= Pow2(arena.bits) ==> arena.Valid()
    ensures rc != 0 && arena != null ==> unchanged(arena)
  {
    if arena == null || base == 0 || capacity == 0 {
      return -1;
    }
    arena.base := base;
    arena.capacity := capacity;
    arena.used := 0;
    arena.blocks := [];
    return 0;
  }

  /**
   Bumps the pointer past an aligned block. A request fails exactly when its arguments are
   invalid or no aligned block of its size fits in the tail; otherwise the block is the first
   that fits, and all blocks since the last reset stay safe.
   */
  method AllocAligned(arena: Arena?, size: nat, align: nat) returns (p: nat)
    requires arena != null ==> arena.Valid() && size < Pow2(arena.bits) && align < Pow2(arena.bits)
    modifies arena
    ensures arena != null ==> arena.Valid() && arena.base == old(arena.base) && arena.capacity == old(arena.capacity)
    ensures arena == null ==> p == 0
    ensures arena != null ==> (p == 0 <==> size == 0 || !IsPowerOfTwo(align) || NoneFits(arena.base, arena.capacity, old(arena.used), size, align))
    ensures p == 0 && arena != null ==> unchanged(arena)
    ensures p != 0 ==> align > 0 && Fits(p, arena.base, arena.capacity, old(arena.used), size, align)
    ensures p != 0 ==> forall q: nat :: Fits(q, arena.base, arena.capacity, old(arena.used), size, align) ==> p <= q
    ensures p != 0 ==> arena.used == p + size - arena.base && arena.blocks == old(arena.blocks) + [Block(p, size, align)]
  {
    if arena == null || size == 0 || !IsPowerOfTwo(align) {
      return 0;
    }
    assert align > 0 by { PowersOfTwo(align); }
    var alignedUsed := AlignedUsed(arena.bits, arena.base, arena.used, align);
    FirstFit(arena.bits, arena.base, arena.capacity, arena.used, size, align);
    if alignedUsed > arena.capacity || size > arena.capacity - alignedUsed {
      return 0;
    }
    p := arena.base + alignedUsed;
    SafeExtended(arena.base, arena.used, arena.blocks, Block(p, size, align));
    arena.used := alignedUsed + size;
    arena.blocks := arena.blocks + [Block(p, size, align)];
  }

  /** The capacity check accepts the machine offset exactly when some aligned block fits, and it is then the first. */
  lemma FirstFit(bits: nat, base: nat, capacity: nat, used: nat, size: nat, align: nat)
    requires 0 < align < Pow2(bits) && IsPowerOfTwo(align) && 0 < base && 0 < capacity && used <= capacity && base + capacity <= Pow2(bits)
    requires size > 0
    ensures var o := AlignedUsed(bits, base, used, align);
      if o > capacity || size > capacity - o then forall q: nat :: !Fits(q, base, capacity, used, size, align)
      else Fits(base + o, base, capacity, used, size, align) && forall q: nat :: Fits(q, base, capacity, used, size, align) ==> base + o <= q
  {
    hide AlignedUsed, Pow2, IsPowerOfTwo;
    AlignedUsedIs(bits, base, capacity, used, align);
    forall q: nat | Fits(q, base, capacity, used, size, align) ensures RoundUp(base + used, align) <= q {
      RoundUpLeast(base + used, align, q);
    }
  }

  lemma SafeExtended(base: nat, used: nat, blocks: seq<Block>, b: Block)
    requires Safe(base, used, blocks) && b.align > 0 && b.size > 0 && base + used <= b.start && b.start % b.align == 0
    ensures Safe(base, b.start + b.size - base, blocks + [b])
  {
    forall i | 0 <= i < |blocks| ensures Placed(base, b.start + b.size - base, blocks[i]) && Apart(blocks[i], b) {
      assert Placed(base, used, blocks[i]);
    }
  }

  method Alloc(arena: Arena?, size: nat) returns (p: nat)
    requires arena != null ==> arena.Valid() && size < Pow2(arena.bits) && DEFAULT_ALIGN < Pow2(arena.bits)
    modifies arena
    ensures arena != null ==> arena.Valid() && arena.base == old(arena.base) && arena.capacity == old(arena.capacity)
    ensures arena == null ==> p == 0
    ensures arena != null ==> (p == 0 <==> size == 0 || NoneFits(arena.base, arena.capacity, old(arena.used), size, 16))
    ensures p == 0 && arena != null ==> unchanged(arena)
    ensures p != 0 ==> Fits(p, arena.base, arena.capacity, old(arena.used), size, 16)
    ensures p != 0 ==> arena.used == p + size - arena.base && arena.blocks == old(arena.blocks) + [Block(p, size, 16)]
  {
    assert IsPowerOfTwo(DEFAULT_ALIGN) by { Sixteen(); }
    p := AllocAligned(arena, size, DEFAULT_ALIGN);
  }

  lemma Sixteen()
    ensures IsPowerOfTwo(16)
  {
    assert Pow2(4) == 2 * Pow2(3) == 16;
    PowersOfTwo(16);
  }

  method Reset(arena: Arena?)
    requires arena != null ==> arena.Valid()
    modifies arena
    ensures arena != null ==> arena.Valid() && arena.used == 0 && arena.blocks == []
    ensures arena != null ==> arena.base == old(arena.base) && arena.capacity == old(arena.capacity)
  {
    if arena != null {
      arena.used := 0;
      arena.blocks := [];
    }
  }

  /** The largest block, not asking for alignment, that still fits. */
  method Available(arena: Arena?) returns (n: nat)
    requires arena != null ==> arena.Valid()
    ensures arena == null ==> n == 0
    ensures arena != null ==> forall size: nat :: size <= n <==> !NoneFits(arena.base, arena.capacity, arena.used, size, 1)
  {
    if arena == null {
      return 0;
    }
    n := arena.capacity - arena.used;
    forall size: nat | size <= n ensures !NoneFits(arena.base, arena.capacity, arena.used, size, 1) {
      assert Fits(arena.base + arena.used, arena.base, arena.capacity, arena.used, size, 1);
    }
  }

  // ---------------------------------------------------------------- any sequence of operations

  datatype Op = Take(size: nat, align: nat) | Rewind

  datatype Slab = Slab(base: nat, capacity: nat, used: nat, blocks: seq<Block>)

  /** One operation in unbounded arithmetic: the first aligned block that fits, if any. */
  function Apply(s: Slab, op: Op): Slab {
    match op
    case Rewind => s.(used := 0, blocks := [])
    case Take(size, align) =>
      if size == 0 || !IsPowerOfTwo(align) then s
      else
        var p := RoundUp(s.base + s.used, align);
        if p + size > s.base + s.capacity then s
        else s.(used := p + size - s.base, blocks := s.blocks + [Block(p, size, align)])
  }

  function ApplyAll(s: Slab, ops: seq<Op>): Slab
    decreases |ops|
  {
    if |ops| == 0 then s else ApplyAll(Apply(s, ops[0]), ops[1..])
  }

  predicate SafeSlab(s: Slab) {
    s.used <= s.capacity && Safe(s.base, s.used, s.blocks)
  }

  /** After any sequence of allocations and resets the blocks handed out since the last reset are in bounds, aligned and disjoint. */
  lemma {:induction false} AlwaysSafe(s: Slab, ops: seq<Op>)
    requires SafeSlab(s)
    ensures SafeSlab(ApplyAll(s, ops))
    ensures ApplyAll(s, ops).base == s.base && ApplyAll(s, ops).capacity == s.capacity
    decreases |ops|
  {
    hide IsPowerOfTwo, Safe;
    if |ops| > 0 {
      ApplySafe(s, ops[0]);
      AlwaysSafe(Apply(s, ops[0]), ops[1..]);
    }
  }

  lemma ApplySafe(s: Slab, op: Op)
    requires SafeSlab(s)
    ensures SafeSlab(Apply(s, op)) && Apply(s, op).base == s.base && Apply(s, op).capacity == s.capacity
  {
    if op.Take? && op.size > 0 && IsPowerOfTwo(op.align) {
      PowersOfTwo(op.align);
      SafeExtended(s.base, s.used, s.blocks, Block(RoundUp(s.base + s.used, op.align), op.size, op.align));
    }
  }

  /** The machine allocator performs one step of that sequence, wrap-around included. */
  method Perform(arena: Arena, op: Op)
    requires arena.Valid() && (op.Take? ==> op.size < Pow2(arena.bits) && op.align < Pow2(arena.bits))
    modifies arena
    ensures arena.Valid()
    ensures Slab(arena.base, arena.capacity, arena.used, arena.blocks)
         == Apply(old(Slab(arena.base, arena.capacity, arena.used, arena.blocks)), op)
  {
    match op
    case Rewind => Reset(arena);
    case Take(size, align) =>
      ghost var s := Slab(arena.base, arena.capacity, arena.used, arena.blocks);
      var p := AllocAligned(arena, size, align);
      if size > 0 && IsPowerOfTwo(align) {
        FirstFitIsRoundUp(s, p, size, align);
      }
  }

  lemma FirstFitIsRoundUp(s: Slab, p: nat, size: nat, align: nat)
    requires align > 0
    requires p == 0 ==> forall q: nat :: !Fits(q, s.base, s.capacity, s.used, size, align)
    requires p != 0 ==> Fits(p, s.base, s.capacity, s.used, size, align)
    requires p != 0 ==> forall q: nat :: Fits(q, s.base, s.capacity, s.used, size, align) ==> p <= q
    ensures p == 0 ==> RoundUp(s.base + s.used, align) + size > s.base + s.capacity
    ensures p != 0 ==> p == RoundUp(s.base + s.used, align) && p + size <= s.base + s.capacity
  {
    var t := RoundUp(s.base + s.used, align);
    if p == 0 {
      assert !Fits(t, s.base, s.capacity, s.used, size, align);
    } else {
      RoundUpLeast(s.base + s.used, align, p);
      assert Fits(t, s.base, s.capacity, s.used, size, align);
    }
  }
}
