/** Thread-local memory: 32 slots, a bit mask of the used ones, and each block's size at its first slot. */
module Tls {

  /** The bits of a block of `cb` slots from slot `i` on; what would lie past slot 31 is shifted out. */
  function Mask(cb: bv32, i: bv32): bv32
    requires cb <= 8 && i < 32
  {
    (0xFF >> (8 - cb)) << i
  }

  /** Slot `k`'s bit. */
  predicate Bit(m: bv32, k: bv32)
    requires k < 32
  {
    (m >> k) & 1 == 1
  }

  /** `k` is one of `cb` slots from `i` on. */
  predicate InRange(i: bv32, cb: bv32, k: bv32) {
    i <= k < i + cb
  }

  lemma MaskBits(cb: bv32, i: bv32, k: bv32)
    requires cb <= 8 && i < 32 && k < 32
    ensures Bit(Mask(cb, i), k) <==> InRange(i, cb, k)
  {
  }

  /** The words after setting and clearing a mask's bits, and the two tests on them. */
  function With(used: bv32, mask: bv32): bv32 {
    used | mask
  }

  function Less(used: bv32, mask: bv32): bv32 {
    And(used, Not(mask))
  }

  function And(a: bv32, b: bv32): bv32 {
    a & b
  }

  function Not(a: bv32): bv32 {
    !a
  }

  predicate TestUnused(used: bv32, mask: bv32) {
    ((used ^ mask) & mask) == mask
  }

  predicate TestUsed(used: bv32, mask: bv32) {
    (used & mask) == mask
  }

  lemma OrBits(a: bv32, b: bv32, k: bv32)
    requires k < 32
    ensures Bit(With(a, b), k) <==> Bit(a, k) || Bit(b, k)
  {
  }

  lemma AndNotBits(a: bv32, b: bv32, k: bv32)
    requires k < 32
    ensures Bit(Less(a, b), k) <==> Bit(a, k) && !Bit(b, k)
  {
    hide Bit, And, Not;
    NotBit(b, k);
    AndBits(a, Not(b), k);
  }

  lemma NotBit(a: bv32, k: bv32)
    requires k < 32
    ensures Bit(Not(a), k) <==> !Bit(a, k)
  {
  }

  lemma Index(i: bv32, j: bv32)
    requires i < 32 && j < 32
    ensures 0 <= i as int < 32 && (i as int == j as int <==> i == j)
  {
  }

  /** Some bit of a non-zero word. */
  function SomeBit(m: bv32, from: bv32): (k: bv32)
    requires from < 32 && m >> from != 0
    ensures k < 32 && Bit(m, k)
    decreases 32 - from as int
  {
    if (m >> from) & 1 == 1 then from else SomeBit(m, from + 1)
  }

  lemma AndBits(a: bv32, b: bv32, k: bv32)
    requires k < 32
    ensures Bit(And(a, b), k) <==> Bit(a, k) && Bit(b, k)
  {
  }

  lemma ZeroBit(k: bv32)
    requires k < 32
    ensures !Bit(0, k)
  {
  }

  lemma TestIsAnd(used: bv32, mask: bv32)
    ensures TestUnused(used, mask) <==> And(used, mask) == 0
    ensures TestUsed(used, mask) <==> Less(mask, used) == 0
  {
    XorTest(used, mask);
    AndTest(used, mask);
  }

  lemma XorTest(a: bv32, b: bv32)
    ensures ((a ^ b) & b) == b <==> a & b == 0
  {
    XorAnd(a, b);
    AndTest(a, b);
    if b & !a == b {
      Apart0(a, b);
    }
    if a & b == 0 {
      Apart1(a, b);
    }
  }

  lemma XorAnd(a: bv32, b: bv32)
    ensures (a ^ b) & b == b & !a
  {
  }

  lemma Apart0(a: bv32, b: bv32)
    requires b & !a == b
    ensures a & b == 0
  {
  }

  lemma Apart1(a: bv32, b: bv32)
    requires a & b == 0
    ensures b & !a == b
  {
  }

  lemma AndTest(a: bv32, b: bv32)
    ensures (a & b) == b <==> b & !a == 0
  {
    if a & b == b {
      Inside0(a, b);
    }
    if b & !a == 0 {
      Inside1(a, b);
    }
  }

  lemma Inside0(a: bv32, b: bv32)
    requires a & b == b
    ensures b & !a == 0
  {
  }

  lemma Inside1(a: bv32, b: bv32)
    requires b & !a == 0
    ensures a & b == b
  {
  }

  lemma Unshifted(m: bv32)
    ensures m >> 0 == m
  {
  }

  /** No common bit. */
  ghost predicate Apart(a: bv32, b: bv32) {
    forall k: bv32 :: k < 32 ==> !(Bit(a, k) && Bit(b, k))
  }

  lemma NoBits(m: bv32)
    ensures m == 0 <==> forall k: bv32 :: k < 32 ==> !Bit(m, k)
  {
    hide Bit;
    if m == 0 {
      forall k: bv32 | k < 32 ensures !Bit(m, k) {
        ZeroBit(k);
      }
    } else {
      Unshifted(m);
      var k := SomeBit(m, 0);
    }
  }

  /** The search's test: no bit of the mask is in use. */
  lemma Unused(used: bv32, mask: bv32)
    ensures TestUnused(used, mask) <==> Apart(used, mask)
  {
    TestIsAnd(used, mask);
    NoBits(And(used, mask));
    hide Bit, And;
    forall k: bv32 | k < 32 ensures Bit(And(used, mask), k) <==> Bit(used, k) && Bit(mask, k) {
      AndBits(used, mask, k);
    }
  }

  /** The assertion before freeing: all bits of the mask are in use. */
  lemma AllUsed(used: bv32, mask: bv32)
    ensures TestUsed(used, mask) <==> forall k: bv32 :: k < 32 && Bit(mask, k) ==> Bit(used, k)
  {
    TestIsAnd(used, mask);
    NoBits(Less(mask, used));
    hide Bit, Less;
    forall k: bv32 | k < 32 ensures Bit(Less(mask, used), k) <==> Bit(mask, k) && !Bit(used, k) {
      AndNotBits(mask, used, k);
    }
  }

  // The ledger of blocks.

  /** Block sizes by first slot; 0 where no block starts. */
  type Blocks = s: seq<bv32> | |s| == 32 witness seq(32, _ => 0)

  function Size(blocks: Blocks, i: bv32): bv32
    requires i < 32
  {
    blocks[i as int]
  }

  function Put(blocks: Blocks, i: bv32, cb: bv32): Blocks
    requires i < 32
  {
    blocks[i as int := cb]
  }

  lemma SizeOfPut(blocks: Blocks, i: bv32, cb: bv32, j: bv32)
    requires i < 32 && j < 32
    ensures Size(Put(blocks, i, cb), j) == if i == j then cb else Size(blocks, j)
  {
    Index(i, j);
  }

  /** Slot `k` belongs to the block at `i`; a block near the end has fewer slots than it asked for. */
  predicate Owns(blocks: Blocks, i: bv32, k: bv32)
    requires i < 32
  {
    InRange(i, Size(blocks, i), k)
  }

  ghost predicate Owned(blocks: Blocks, k: bv32) {
    exists i: bv32 :: i < 32 && Owns(blocks, i, k)
  }

  /** The used bits are exactly the slots of the blocks, and no slot belongs to two. */
  ghost predicate Ledger(used: bv32, blocks: Blocks) {
    && (forall i: bv32 :: i < 32 ==> Size(blocks, i) <= 8)
    && (forall k: bv32 :: k < 32 ==> (Bit(used, k) <==> Owned(blocks, k)))
    && (forall i: bv32, j: bv32, k: bv32 ::
          i < 32 && j < 32 && k < 32 && Owns(blocks, i, k) && Owns(blocks, j, k) ==> i == j)
  }

  /** None of the up to `cb` slots from `i` on is taken. */
  ghost predicate Vacant(blocks: Blocks, i: bv32, cb: bv32)
    requires i < 32 && cb <= 8
  {
    forall k: bv32 :: k < 32 && InRange(i, cb, k) ==> !Owned(blocks, k)
  }

  /** The bit test finds exactly the vacant ranges. */
  lemma TestIsVacant(used: bv32, blocks: Blocks, cb: bv32, i: bv32)
    requires Ledger(used, blocks) && cb <= 8 && i < 32
    ensures TestUnused(used, Mask(cb, i)) <==> Vacant(blocks, i, cb)
  {
    Unused(used, Mask(cb, i));
    hide Bit, Mask, Owned, InRange;
    forall k: bv32 | k < 32 ensures Bit(Mask(cb, i), k) <==> InRange(i, cb, k) {
      MaskBits(cb, i, k);
    }
    assert forall k: bv32 :: k < 32 ==> (Bit(used, k) <==> Owned(blocks, k));
  }

  /** A vacant range starts where no block does. */
  lemma VacantStart(used: bv32, blocks: Blocks, cb: bv32, i: bv32)
    requires Ledger(used, blocks) && 0 < cb <= 8 && i < 32 && Vacant(blocks, i, cb)
    ensures Size(blocks, i) == 0
  {
    var size := Size(blocks, i);
    hide Size, Bit, InRange;
    assert size <= 8;
    OwnSlot(i, size);
    OwnSlot(i, cb);
    assert Owns(blocks, i, i) ==> Owned(blocks, i);
  }

  lemma OwnSlot(i: bv32, cb: bv32)
    requires i < 32 && cb <= 8
    ensures InRange(i, cb, i) <==> cb != 0
  {
  }

  lemma OwnsAfterPut(blocks: Blocks, i: bv32, cb: bv32, j: bv32, k: bv32)
    requires i < 32 && j < 32
    ensures Owns(Put(blocks, i, cb), j, k) <==> if i == j then InRange(i, cb, k) else Owns(blocks, j, k)
  {
    SizeOfPut(blocks, i, cb, j);
    hide Size, Put, InRange;
  }

  /** One slot, after a block of `cb` slots has replaced the one at `i`. */
  lemma OwnedAfterPut(blocks: Blocks, i: bv32, cb: bv32, k: bv32)
    requires i < 32
    ensures Owned(Put(blocks, i, cb), k) <==>
            InRange(i, cb, k) || exists j: bv32 :: j < 32 && j != i && Owns(blocks, j, k)
  {
    hide Put, Owns, InRange;
    forall j: bv32 | j < 32
      ensures Owns(Put(blocks, i, cb), j, k) <==> if i == j then InRange(i, cb, k) else Owns(blocks, j, k)
    {
      OwnsAfterPut(blocks, i, cb, j, k);
    }
    if InRange(i, cb, k) {
      assert Owns(Put(blocks, i, cb), i, k);
    }
    forall j: bv32 | j < 32 && j != i && Owns(blocks, j, k) ensures Owned(Put(blocks, i, cb), k) {
      assert Owns(Put(blocks, i, cb), j, k);
    }
  }

  lemma NothingOwned(blocks: Blocks, i: bv32, k: bv32)
    requires i < 32 && Size(blocks, i) == 0
    ensures !Owns(blocks, i, k)
  {
  }

  lemma UsedIsOwned(used: bv32, blocks: Blocks, k: bv32)
    requires Ledger(used, blocks) && k < 32
    ensures Bit(used, k) <==> Owned(blocks, k)
  {
  }

  lemma OneOwner(used: bv32, blocks: Blocks, i: bv32, j: bv32, k: bv32)
    requires Ledger(used, blocks) && i < 32 && j < 32 && k < 32 && Owns(blocks, i, k) && Owns(blocks, j, k)
    ensures i == j
  {
  }

  lemma SmallSize(used: bv32, blocks: Blocks, i: bv32)
    requires Ledger(used, blocks) && i < 32
    ensures Size(blocks, i) <= 8
  {
  }

  /** The bits after an allocation. */
  lemma AllocatedBit(used: bv32, blocks: Blocks, cb: bv32, i: bv32, k: bv32)
    requires Ledger(used, blocks) && cb <= 8 && i < 32 && k < 32 && Size(blocks, i) == 0
    ensures Bit(With(used, Mask(cb, i)), k) <==> Owned(Put(blocks, i, cb), k)
  {
    hide *;
    UsedIsOwned(used, blocks, k);
    OrBits(used, Mask(cb, i), k);
    MaskBits(cb, i, k);
    OwnedAfterPut(blocks, i, cb, k);
    NothingOwned(blocks, i, k);
    OwnedMeans(blocks, k);
  }

  lemma OwnedMeans(blocks: Blocks, k: bv32)
    ensures Owned(blocks, k) <==> exists i: bv32 :: i < 32 && Owns(blocks, i, k)
  {
  }

  lemma AllocatedOwner(used: bv32, blocks: Blocks, cb: bv32, i: bv32, a: bv32, b: bv32, k: bv32)
    requires Ledger(used, blocks) && cb <= 8 && i < 32 && Vacant(blocks, i, cb) && a < 32 && b < 32 && k < 32
    requires Owns(Put(blocks, i, cb), a, k) && Owns(Put(blocks, i, cb), b, k)
    ensures a == b
  {
    OwnsAfterPut(blocks, i, cb, a, k);
    OwnsAfterPut(blocks, i, cb, b, k);
    OwnedMeans(blocks, k);
    if a != i && b != i {
      OneOwner(used, blocks, a, b, k);
    }
  }

  lemma LedgerFrom(used: bv32, blocks: Blocks)
    requires forall i: bv32 :: i < 32 ==> Size(blocks, i) <= 8
    requires forall k: bv32 :: k < 32 ==> (Bit(used, k) <==> Owned(blocks, k))
    requires forall i: bv32, j: bv32, k: bv32 ::
      i < 32 && j < 32 && k < 32 && Owns(blocks, i, k) && Owns(blocks, j, k) ==> i == j
    ensures Ledger(used, blocks)
  {
  }

  lemma Allocated(used: bv32, blocks: Blocks, cb: bv32, i: bv32)
    requires Ledger(used, blocks) && 0 < cb <= 8 && i < 32 && Vacant(blocks, i, cb)
    ensures Ledger(With(used, Mask(cb, i)), Put(blocks, i, cb))
  {
    VacantStart(used, blocks, cb, i);
    hide *;
    var used', blocks' := With(used, Mask(cb, i)), Put(blocks, i, cb);
    forall j: bv32 | j < 32 ensures Size(blocks', j) <= 8 {
      SizeOfPut(blocks, i, cb, j);
      SmallSize(used, blocks, j);
    }
    forall k: bv32 | k < 32 ensures Bit(used', k) <==> Owned(blocks', k) {
      AllocatedBit(used, blocks, cb, i, k);
    }
    forall a: bv32, b: bv32, k: bv32 | a < 32 && b < 32 && k < 32 && Owns(blocks', a, k) && Owns(blocks', b, k)
      ensures a == b
    {
      AllocatedOwner(used, blocks, cb, i, a, b, k);
    }
    LedgerFrom(used', blocks');
  }

  /** The bits after a block has been freed. */
  lemma FreedBit(used: bv32, blocks: Blocks, i: bv32, k: bv32)
    requires Ledger(used, blocks) && i < 32 && k < 32 && Size(blocks, i) <= 8
    ensures Bit(Less(used, Mask(Size(blocks, i), i)), k) <==> Owned(Put(blocks, i, 0), k)
    ensures Bit(Mask(Size(blocks, i), i), k) ==> Bit(used, k)
  {
    hide *;
    var cb := Size(blocks, i);
    UsedIsOwned(used, blocks, k);
    AndNotBits(used, Mask(cb, i), k);
    MaskBits(cb, i, k);
    OwnedAfterPut(blocks, i, 0, k);
    OwnsMeans(blocks, i, k);
    NotInEmpty(i, k);
    OwnedMeans(blocks, k);
    forall j: bv32 | j < 32 && Owns(blocks, i, k) && Owns(blocks, j, k) ensures i == j {
      OneOwner(used, blocks, i, j, k);
    }
  }

  lemma OwnsMeans(blocks: Blocks, i: bv32, k: bv32)
    requires i < 32
    ensures Owns(blocks, i, k) <==> InRange(i, Size(blocks, i), k)
  {
  }

  lemma NotInEmpty(i: bv32, k: bv32)
    ensures !InRange(i, 0, k)
  {
  }

  lemma Freed(used: bv32, blocks: Blocks, i: bv32)
    requires Ledger(used, blocks) && i < 32
    ensures Size(blocks, i) <= 8 && TestUsed(used, Mask(Size(blocks, i), i))
    ensures Ledger(Less(used, Mask(Size(blocks, i), i)), Put(blocks, i, 0))
  {
    hide *;
    var cb := Size(blocks, i);
    SmallSize(used, blocks, i);
    var mask, blocks' := Mask(cb, i), Put(blocks, i, 0);
    var used' := Less(used, mask);
    forall k: bv32 | k < 32 ensures (Bit(used', k) <==> Owned(blocks', k)) && (Bit(mask, k) ==> Bit(used, k)) {
      FreedBit(used, blocks, i, k);
    }
    AllUsed(used, mask);
    forall j: bv32 | j < 32 ensures Size(blocks', j) <= 8 {
      SizeOfPut(blocks, i, 0, j);
      SmallSize(used, blocks, j);
    }
    forall a: bv32, b: bv32, k: bv32 | a < 32 && b < 32 && k < 32 && Owns(blocks', a, k) && Owns(blocks', b, k)
      ensures a == b
    {
      OwnsAfterPut(blocks, i, 0, a, k);
      OwnsAfterPut(blocks, i, 0, b, k);
      NotInEmpty(i, k);
      OneOwner(used, blocks, a, b, k);
    }
    LedgerFrom(used', blocks');
  }

  /** Freeing a block just allocated gives back the mask and the sizes. */
  lemma FreeUndoesAlloc(used: bv32, blocks: Blocks, cb: bv32, i: bv32)
    requires Ledger(used, blocks) && 0 < cb <= 8 && i < 32 && Vacant(blocks, i, cb)
    ensures Less(With(used, Mask(cb, i)), Mask(cb, i)) == used && Put(Put(blocks, i, cb), i, 0) == blocks
  {
    hide *;
    VacantStart(used, blocks, cb, i);
    TestIsVacant(used, blocks, cb, i);
    PutBack(blocks, i, cb);
    OffAgain(used, Mask(cb, i));
  }

  lemma PutBack(blocks: Blocks, i: bv32, cb: bv32)
    requires i < 32 && Size(blocks, i) == 0
    ensures Put(Put(blocks, i, cb), i, 0) == blocks
  {
  }

  lemma OffAgain(used: bv32, mask: bv32)
    requires TestUnused(used, mask)
    ensures Less(With(used, mask), mask) == used
  {
  }

  lemma MaskNext(cb: bv32, i: bv32)
    requires cb <= 8 && i < 31
    ensures Mask(cb, i) << 1 == Mask(cb, i + 1)
  {
  }

  /** One more slot tried in vain. */
  lemma NextSlot(blocks: Blocks, cb: bv32, i: bv32)
    requires i < 32 && cb <= 8 && !Vacant(blocks, i, cb) && forall j: bv32 :: j < i ==> !Vacant(blocks, j, cb)
    ensures (32 - (i + 1)) as int < (32 - i) as int && i + 1 <= 32 && (i + 1 < 32 ==> i < 31)
    ensures forall j: bv32 :: j < i + 1 ==> !Vacant(blocks, j, cb)
  {
  }

  lemma FirstSlot(cb: bv32)
    requires cb <= 8
    ensures Mask(cb, 0) == 0xFF >> (8 - cb)
  {
  }

  /** An empty block fits anywhere. */
  lemma EmptyFits(blocks: Blocks)
    ensures Vacant(blocks, 0, 0)
  {
  }

  /** The first vacant range for `cb` slots. */
  ghost predicate FirstFit(blocks: Blocks, i: bv32, cb: bv32)
    requires cb <= 8
  {
    i < 32 && Vacant(blocks, i, cb) && forall j: bv32 :: j < i ==> !Vacant(blocks, j, cb)
  }

  datatype Outcome = Ok(slot: bv32) | InvalidParameter | NotEnoughMemory | AssertionFailed

  class Slots {
    /** The page the slots live in has been mapped. */
    var page: bool
    var tlsmask: bv32
    const tlsallocs: array<bv32>

    ghost predicate Valid()
      reads this, tlsallocs
    {
      tlsallocs.Length == 32 && Ledger(tlsmask, tlsallocs[..])
    }

    constructor ()
      ensures Valid() && fresh(tlsallocs) && tlsallocs[..] == seq(32, _ => 0) && !page
    {
      page, tlsmask := false, 0;
      tlsallocs := new bv32[32](_ => 0);
      new;
      assert tlsallocs[..] == seq(32, _ => 0);
      EmptyLedger();
    }

    /** The search for a run of unused bits, the mask moving along. */
    method FindSlot(cb: bv32, mask0: bv32) returns (i: bv32, mask: bv32)
      requires Valid() && cb <= 8 && mask0 == Mask(cb, 0)
      ensures i <= 32 && (i < 32 ==> mask == Mask(cb, i) && FirstFit(tlsallocs[..], i, cb))
      ensures i == 32 ==> forall j: bv32 :: j < 32 ==> !Vacant(tlsallocs[..], j, cb)
    {
      hide Mask, TestUnused, Vacant, Ledger;
      ghost var blocks: Blocks := tlsallocs[..];
      i, mask := 0, mask0;
      while i < 32
        invariant i <= 32 && (i < 32 ==> mask == Mask(cb, i))
        invariant forall j: bv32 :: j < i ==> !Vacant(blocks, j, cb)
        decreases (32 - i) as int
      {
        TestIsVacant(tlsmask, blocks, cb, i);
        if TestUnused(tlsmask, mask) {
          break;
        }
        NextSlot(blocks, cb, i);
        if i < 31 {
          MaskNext(cb, i);
        }
        i, mask := i + 1, mask << 1;
      }
    }

    /** Recording a block at the slot found; the assertion fails only for an empty block where another one starts. */
    method Take(cb: bv32, i: bv32, mask: bv32) returns (ok: bool)
      requires Valid() && cb <= 8 && i < 32 && mask == Mask(cb, i) && Vacant(tlsallocs[..], i, cb)
      modifies this`tlsmask, tlsallocs
      ensures Valid() && (ok <==> Size(old(tlsallocs[..]), i) == 0) && (!ok ==> cb == 0)
      ensures ok ==> tlsallocs[..] == Put(old(tlsallocs[..]), i, cb)
      ensures !ok ==> tlsmask == old(tlsmask) && tlsallocs[..] == old(tlsallocs[..])
    {
      ghost var blocks: Blocks := tlsallocs[..];
      assert tlsallocs[i as int] == Size(blocks, i);
      if cb != 0 {
        VacantStart(tlsmask, blocks, cb, i);
      }
      if tlsallocs[i as int] != 0 {
        return false;
      }
      Stored(tlsmask, blocks, cb, i);
      hide Mask, Vacant, Ledger, With;
      tlsallocs[i as int] := cb;
      tlsmask := With(tlsmask, mask);
      assert tlsallocs[..] == Put(blocks, i, cb);
      ok := true;
    }

    /** DosAllocThreadLocalMemory; the result is the first slot of the block. */
    method Alloc(cb: bv32, nullResult: bool) returns (r: Outcome)
      requires Valid()
      modifies this`page, this`tlsmask, tlsallocs
      ensures r.InvalidParameter? <==> cb > 8 || nullResult
      ensures !r.Ok? ==> tlsmask == old(tlsmask) && tlsallocs[..] == old(tlsallocs[..])
      ensures r.NotEnoughMemory? && page ==> forall i: bv32 :: i < 32 ==> !Vacant(tlsallocs[..], i, cb)
      ensures r.AssertionFailed? ==> cb == 0 && Size(tlsallocs[..], 0) != 0
      ensures r.Ok? ==>
        && Valid() && page && cb <= 8 && FirstFit(old(tlsallocs[..]), r.slot, cb)
        && Size(old(tlsallocs[..]), r.slot) == 0 && tlsallocs[..] == Put(old(tlsallocs[..]), r.slot, cb)
    {
      if cb > 8 {
        return InvalidParameter;
      } else if nullResult {
        return InvalidParameter;
      }
      var mask: bv32 := 0xFF >> (8 - cb);
      if !page {
        var mapped: bool := *;
        if !mapped {
          return NotEnoughMemory;
        }
        page := true;
      }
      FirstSlot(cb);
      hide Mask, Vacant, Ledger, Size, Put;
      var i;
      i, mask := FindSlot(cb, mask);
      if i == 32 {
        return NotEnoughMemory;
      }
      if cb == 0 {
        EmptyFits(tlsallocs[..]);
        assert i == 0;
      }
      var ok := Take(cb, i, mask);
      r := if ok then Ok(i) else AssertionFailed;
    }

    /** DosFreeThreadLocalMemory of the pointer to slot `slot`, which for a foreign pointer is any number. */
    method Free(slot: bv32) returns (r: Outcome)
      requires Valid()
      modifies this`tlsmask, tlsallocs
      ensures Valid() && !r.AssertionFailed?
      ensures r.Ok? <==> page && slot < 32 && Size(old(tlsallocs[..]), slot) != 0
      ensures r.Ok? ==> tlsallocs[..] == Put(old(tlsallocs[..]), slot, 0)
      ensures !r.Ok? ==> r == InvalidParameter && tlsmask == old(tlsmask) && tlsallocs[..] == old(tlsallocs[..])
    {
      r := InvalidParameter;
      if page && slot < 32 {
        var slots := tlsallocs[slot as int];
        if slots > 0 {
          ghost var blocks: Blocks := tlsallocs[..];
          assert slots == Size(blocks, slot);
          Freed(tlsmask, blocks, slot);
          hide Mask, Ledger;
          var mask := Mask(slots, slot);
          if !TestUsed(tlsmask, mask) {
            return AssertionFailed;
          }
          tlsmask := Less(tlsmask, mask);
          tlsallocs[slot as int] := 0;
          assert tlsallocs[..] == Put(blocks, slot, 0);
          r := Ok(slot);
        }
      }
    }
  }

  /** Any vacant range, an empty one included, takes a block. */
  lemma Stored(used: bv32, blocks: Blocks, cb: bv32, i: bv32)
    requires Ledger(used, blocks) && cb <= 8 && i < 32 && Vacant(blocks, i, cb) && Size(blocks, i) == 0
    ensures Ledger(With(used, Mask(cb, i)), Put(blocks, i, cb))
  {
    if cb > 0 {
      Allocated(used, blocks, cb, i);
    } else {
      NothingAdded(used, i);
      PutSame(blocks, i);
    }
  }

  lemma PutSame(blocks: Blocks, i: bv32)
    requires i < 32 && Size(blocks, i) == 0
    ensures Put(blocks, i, 0) == blocks
  {
  }

  lemma NothingAdded(used: bv32, i: bv32)
    requires i < 32
    ensures With(used, Mask(0, i)) == used
  {
  }

  lemma EmptyLedger()
    ensures Ledger(0, seq(32, _ => 0))
  {
    var blocks: Blocks := seq(32, _ => 0);
    hide InRange, Bit;
    forall i: bv32, k: bv32 | i < 32 ensures !Owns(blocks, i, k) {
      NotInEmpty(i, k);
    }
    forall k: bv32 | k < 32 ensures !Bit(0, k) {
      ZeroBit(k);
    }
  }
}
