/** 64K segments and huge blocks for 16-bit programs, on top of the LDT. */
module HugeBlocks {
  import opened Base
  import opened Ldt

  const ARENA_START := 136 * 1024 * 1024

  /** Selector handed to programs, and the index back from it. */
  lemma SelectorIndex(index: nat)
    requires index < SLOTS
    ensures Segment(index) / 8 == index && Segment(index) % 8 == 7
  {
  }

  /** `n` slots from `first` map consecutive tiles. */
  ghost predicate IsRun(ldt: Table, first: nat, n: nat, base: int) {
    first + n <= SLOTS && forall j :: first <= j < first + n ==> ldt[j] == base + (j - first) * TILE
  }

  /** A block of `n` slots from `f`: consecutive tiles in the arena handed out so far. */
  ghost predicate IsBlock(ldt: Table, f: nat, n: nat, top: int) {
    n >= 1 && f < SLOTS && ARENA_START <= ldt[f] && IsRun(ldt, f, n, ldt[f]) && ldt[f] + n * TILE <= top
  }

  ghost predicate Apart(blocks: map<nat, nat>) {
    forall f, g :: f in blocks && g in blocks && f < g ==> f + blocks[f] <= g
  }

  predicate Owned(blocks: map<nat, nat>, i: nat) {
    exists f :: f in blocks && f <= i < f + blocks[f]
  }

  ghost predicate OwnsArena(ldt: Table, blocks: map<nat, nat>, top: int) {
    forall i :: 0 <= i < SLOTS && ARENA_START <= ldt[i] < top ==> Owned(blocks, i)
  }

  /**
   * The ledger of live blocks, by first slot: each is a run of consecutive tiles, no two overlap, and together they are
   * exactly the slots whose tile lies in the arena handed out so far, [ARENA_START, top).
   */
  ghost predicate Ledger(ldt: Table, blocks: map<nat, nat>, top: int) {
    && Tiled(ldt) && (forall f :: f in blocks ==> IsBlock(ldt, f, blocks[f], top))
    && Apart(blocks) && OwnsArena(ldt, blocks, top)
  }

  /** The arena not yet handed out, [top, end), holds no tile. */
  ghost predicate Untouched(ldt: Table, top: int, end: int) {
    && top % TILE == 0 && end % TILE == 0 && ARENA_START <= top <= end <= 0xFFFF0000
    && (forall i :: 0 <= i < SLOTS ==> !(top <= ldt[i] < end))
  }

  /** huge_block_segs holds the size of each huge block at its first slot; other live blocks are single segments. */
  ghost predicate Sizes(huge: seq<uint16>, blocks: map<nat, nat>) {
    && |huge| == SLOTS
    && (forall i :: 0 <= i < SLOTS && huge[i] != 0 ==> i in blocks && huge[i] == blocks[i])
    && (forall f :: f in blocks && f < SLOTS && huge[f] == 0 ==> blocks[f] == 1)
  }

  /** A segment taken from the untouched arena gets its own tile in a free slot. */
  lemma FindFresh(ldt: Table, top: int, end: int, kernel: bool)
    requires Tiled(ldt) && Untouched(ldt, top, end) && top < end && Find(ldt, top, kernel).Found?
    ensures var f := Find(ldt, top, kernel);
            && f.offset == 0 && Added(ldt, f.selector, top, f.ldt)
            && Tiled(f.ldt) && Untouched(f.ldt, top + TILE, end)
  {
    hide Find;
    FindMeans(ldt, top, kernel);
    FindKeepsTiled(ldt, top, kernel);
    assert TileOf(top) == top;
  }

  /** `n` slots from `first` mapped to consecutive tiles from `base`. */
  function Filled(ldt: Table, first: nat, n: nat, base: uint32): (r: Table)
    requires base + n * TILE <= 0xFFFF0000
    ensures forall i :: 0 <= i < SLOTS ==> r[i] == if first <= i < first + n then base + (i - first) * TILE else ldt[i]
  {
    seq(SLOTS, i requires 0 <= i < SLOTS => if first <= i < first + n then base + (i - first) * TILE else ldt[i])
  }

  function Cleared(ldt: Table, first: nat, n: nat): (r: Table)
    ensures forall i :: 0 <= i < SLOTS ==> r[i] == if first <= i < first + n then 0 else ldt[i]
  {
    seq(SLOTS, i requires 0 <= i < SLOTS => if first <= i < first + n then 0 else ldt[i])
  }

  ghost predicate AllFree(ldt: Table, first: nat, n: nat) {
    first + n <= SLOTS && forall i :: first <= i < first + n ==> ldt[i] == 0
  }

  lemma FilledTiled(ldt: Table, first: nat, n: nat, base: uint32, end: int)
    requires Tiled(ldt) && Untouched(ldt, base, end) && base + n * TILE <= end
    ensures Tiled(Filled(ldt, first, n, base)) && Untouched(Filled(ldt, first, n, base), base + n * TILE, end)
  {
  }

  lemma BlockApart(ldt: Table, f: nat, n: nat, top: int, first: nat, m: nat)
    requires IsBlock(ldt, f, n, top) && AllFree(ldt, first, m) && m >= 1
    ensures f + n <= first || first + m <= f
  {
    assert forall i :: f <= i < f + n ==> ldt[i] != 0;
    assert ldt[first] == 0 && ldt[f] != 0;
  }

  lemma BlockKept(ldt: Table, ldt': Table, f: nat, n: nat, top: int, top': int)
    requires IsBlock(ldt, f, n, top) && top <= top'
    requires forall i :: f <= i < f + n && i < SLOTS ==> ldt'[i] == ldt[i]
    ensures IsBlock(ldt', f, n, top')
  {
  }

  lemma BlockFilled(ldt: Table, first: nat, n: nat, top: uint32)
    requires n >= 1 && first + n <= SLOTS && ARENA_START <= top && top + n * TILE <= 0xFFFF0000
    ensures IsBlock(Filled(ldt, first, n, top), first, n, top + n * TILE)
  {
  }

  lemma BlockStays(ldt: Table, f: nat, m: nat, top: uint32, first: nat, n: nat)
    requires IsBlock(ldt, f, m, top) && AllFree(ldt, first, n) && n >= 1 && top + n * TILE <= 0xFFFF0000
    ensures f + m <= first || first + n <= f
    ensures IsBlock(Filled(ldt, first, n, top), f, m, top + n * TILE) && m >= 1
  {
    hide Filled;
    BlockApart(ldt, f, m, top, first, n);
    BlockKept(ldt, Filled(ldt, first, n, top), f, m, top, top + n * TILE);
  }

  lemma OwnsMore(ldt: Table, blocks: map<nat, nat>, top: uint32, end: int, first: nat, n: nat)
    requires OwnsArena(ldt, blocks, top) && Untouched(ldt, top, end) && top + n * TILE <= end && first !in blocks
    ensures OwnsArena(Filled(ldt, first, n, top), blocks[first := n], top + n * TILE)
  {
    var ldt', blocks' := Filled(ldt, first, n, top), blocks[first := n];
    hide Filled, OwnsArena;
    forall i | 0 <= i < SLOTS && ARENA_START <= ldt'[i] < top + n * TILE
      ensures Owned(blocks', i)
    {
      if first <= i < first + n {
        assert first in blocks' && blocks'[first] == n;
      } else {
        OwnedOld(ldt, blocks, top, end, i);
        var f :| f in blocks && f <= i < f + blocks[f];
        assert f in blocks' && blocks'[f] == blocks[f];
      }
    }
    OwnsArenaIntro(ldt', blocks', top + n * TILE);
  }

  lemma OwnsArenaIntro(ldt: Table, blocks: map<nat, nat>, top: int)
    requires forall i :: 0 <= i < SLOTS && ARENA_START <= ldt[i] < top ==> Owned(blocks, i)
    ensures OwnsArena(ldt, blocks, top)
  {
  }

  lemma OwnedOld(ldt: Table, blocks: map<nat, nat>, top: int, end: int, i: nat)
    requires OwnsArena(ldt, blocks, top) && Untouched(ldt, top, end) && i < SLOTS && ARENA_START <= ldt[i] < end
    ensures Owned(blocks, i)
  {
  }

  /** A new run from the untouched arena joins the ledger. */
  lemma LedgerAdd(ldt: Table, blocks: map<nat, nat>, top: uint32, end: int, first: nat, n: nat)
    requires Ledger(ldt, blocks, top) && Untouched(ldt, top, end) && n >= 1 && top + n * TILE <= end
    requires AllFree(ldt, first, n)
    ensures Ledger(Filled(ldt, first, n, top), blocks[first := n], top + n * TILE)
    ensures first !in blocks
  {
    var ldt', blocks' := Filled(ldt, first, n, top), blocks[first := n];
    FilledTiled(ldt, first, n, top, end);
    BlockFilled(ldt, first, n, top);
    hide Tiled, IsBlock, IsRun, Filled, AllFree, Untouched, OwnsArena;
    forall f | f in blocks
      ensures f + blocks[f] <= first || first + n <= f
      ensures IsBlock(ldt', f, blocks[f], top + n * TILE) && blocks[f] >= 1
    {
      BlockStays(ldt, f, blocks[f], top, first, n);
    }
    assert first !in blocks;
    assert Apart(blocks');
    hide Apart;
    OwnsMore(ldt, blocks, top, end, first, n);
  }

  lemma OwnsLess(ldt: Table, blocks: map<nat, nat>, top: int, f: nat)
    requires OwnsArena(ldt, blocks, top) && f in blocks
    ensures OwnsArena(Cleared(ldt, f, blocks[f]), blocks - {f}, top)
  {
    var ldt', blocks' := Cleared(ldt, f, blocks[f]), blocks - {f};
    hide Cleared;
    forall i | 0 <= i < SLOTS && ARENA_START <= ldt'[i] < top
      ensures Owned(blocks', i)
    {
      assert Owned(blocks, i);
      var g :| g in blocks && g <= i < g + blocks[g];
      assert g in blocks' && blocks'[g] == blocks[g];
    }
  }

  /** A freed run leaves the ledger. */
  lemma LedgerRemove(ldt: Table, blocks: map<nat, nat>, top: int, f: nat)
    requires Ledger(ldt, blocks, top) && f in blocks
    ensures Ledger(Cleared(ldt, f, blocks[f]), blocks - {f}, top) && Tiled(Cleared(ldt, f, blocks[f]))
  {
    var ldt', blocks' := Cleared(ldt, f, blocks[f]), blocks - {f};
    assert Tiled(ldt') by { hide IsRun, IsBlock, Ledger, OwnsArena; TiledCleared(ldt, f, blocks[f]); }
    OwnsLess(ldt, blocks, top, f);
    hide Tiled, IsBlock, IsRun, Cleared, OwnsArena;
    forall g | g in blocks'
      ensures IsBlock(ldt', g, blocks'[g], top)
    {
      BlockKept(ldt, ldt', g, blocks[g], top, top);
    }
  }

  lemma TiledCleared(ldt: Table, first: nat, n: nat)
    requires Tiled(ldt)
    ensures Tiled(Cleared(ldt, first, n))
  {
    hide Cleared;
  }

  /** Nothing changes when address space is used up without leaving a tile. */
  lemma LedgerTop(ldt: Table, blocks: map<nat, nat>, top: int, k: nat, end: int)
    requires Ledger(ldt, blocks, top) && Untouched(ldt, top, end) && top + k * TILE <= end
    ensures Ledger(ldt, blocks, top + k * TILE) && Untouched(ldt, top + k * TILE, end)
  {
  }

  /** Adding 8 to the selector of a huge block moves its linear address by 64K. */
  lemma NextSelector(ldt: Table, blocks: map<nat, nat>, top: int, f: nat, j: nat, offset: uint16)
    requires Ledger(ldt, blocks, top) && top <= 0xFFFF0000 && f in blocks && j + 1 < blocks[f]
    ensures var p, q := Pack(f + j, offset), Pack(f + j + 1, offset);
            && q / TILE == p / TILE + 8
            && To32(ldt, p).Some? && To32(ldt, q) == Some(To32(ldt, p).value + TILE)
  {
    hide Tiled, Apart, OwnsArena, Pack;
    NextTile(ldt, f, blocks[f], top, j);
    hide Ledger, IsBlock;
    UnpackPack(f + j, offset);
    UnpackPack(f + j + 1, offset);
    SegmentOf(f + j, offset);
    SegmentOf(f + j + 1, offset);
  }

  lemma NextTile(ldt: Table, f: nat, n: nat, top: int, j: nat)
    requires IsBlock(ldt, f, n, top) && j + 1 < n
    ensures f + j + 1 < SLOTS && 0 < ldt[f + j] && ldt[f + j + 1] == ldt[f + j] + TILE && ldt[f + j] + 2 * TILE <= top
  {
  }

  lemma SegmentOf(selector: nat, offset: uint16)
    requires selector < SLOTS
    ensures Pack(selector, offset) / TILE == 8 * selector + 7
  {
    Split(Segment(selector), offset, TILE);
  }

  // Filling and clearing slot by slot.

  lemma FilledNext(ldt: Table, first: nat, n: nat, base: uint32, ldt': Table)
    requires base + (n + 1) * TILE <= 0xFFFF0000 && first + n < SLOTS
    requires Added(Filled(ldt, first, n, base), first + n, base + n * TILE, ldt')
    ensures ldt' == Filled(ldt, first, n + 1, base) && ldt[first + n] == 0
  {
    hide Filled;
  }

  lemma ClearedNext(ldt: Table, first: nat, n: nat)
    requires first + n < SLOTS
    ensures Release(Cleared(ldt, first, n), first + n, true) == Cleared(ldt, first, n + 1)
  {
    hide Cleared;
  }

  lemma ClearedFilled(ldt: Table, first: nat, n: nat, base: uint32)
    requires base + n * TILE <= 0xFFFF0000 && AllFree(ldt, first, n)
    ensures Cleared(Filled(ldt, first, n, base), first, n) == ldt
  {
    hide Cleared, Filled;
  }

  lemma OneFilled(ldt: Table, selector: nat, top: uint32, end: int, ldt': Table)
    requires Untouched(ldt, top, end) && top + TILE <= end && Added(ldt, selector, top, ldt')
    ensures ldt' == Filled(ldt, selector, 1, top) && AllFree(ldt, selector, 1)
  {
    hide Filled;
  }

  lemma UndoOne(ldt: Table, selector: nat, top: uint32, ldt': Table)
    requires Added(ldt, selector, top, ldt') && top > 0
    ensures Release(ldt', selector, true) == ldt
  {
  }

  lemma FreeNext(ldt: Table, first: nat, i: nat)
    requires AllFree(ldt, first, i) && first + i < SLOTS && ldt[first + i] == 0
    ensures AllFree(ldt, first, i + 1)
  {
  }

  lemma NothingFilled(ldt: Table, top: uint32, end: int)
    requires Untouched(ldt, top, end)
    ensures top <= end <= 0xFFFF0000 && top > 0
  {
  }

  lemma SizesAdd(huge: seq<uint16>, blocks: map<nat, nat>, f: nat, n: nat, huge': seq<uint16>)
    requires Sizes(huge, blocks) && f !in blocks && f < SLOTS && 1 <= n <= SLOTS
    requires huge' == huge[f := n] || (n == 1 && huge' == huge)
    ensures Sizes(huge', blocks[f := n])
  {
    assert huge[f] == 0;
  }

  lemma SizesRemove(huge: seq<uint16>, blocks: map<nat, nat>, f: nat)
    requires Sizes(huge, blocks) && f in blocks && f < SLOTS
    ensures Sizes(huge[f := 0], blocks - {f})
    ensures blocks[f] == if huge[f] != 0 then huge[f] else 1
  {
  }

  lemma BlockInTable(ldt: Table, blocks: map<nat, nat>, top: int, f: nat)
    requires Ledger(ldt, blocks, top) && f in blocks
    ensures f < SLOTS && f + blocks[f] <= SLOTS && blocks[f] >= 1
  {
  }

  lemma UntouchedCleared(ldt: Table, top: int, end: int, f: nat, n: nat)
    requires Untouched(ldt, top, end)
    ensures Untouched(Cleared(ldt, f, n), top, end)
  {
    hide Cleared;
  }

  const NO_ERROR := 0
  const ERROR_NOT_ENOUGH_MEMORY := 8
  const ERROR_INVALID_PARAMETER := 87

  /** lxAllocSegment: no memory, a failed assertion on the selector, or a segment. */
  datatype SegResult = NoMemory | Aborted | Allocated(selector: nat)

  class Dos16 {
    const selectors: Selectors
    const huge_block_segs: array<uint16>
    var baseaddr: uint32
    ghost var blocks: map<nat, nat>
    const end: int                    // the kernel maps nothing from here on

    /** Over a table whose tiles, left by others, stay out of the arena. */
    constructor (s: Selectors, arenaEnd: int)
      requires s.Valid() && Tiled(s.ldt[..]) && Untouched(s.ldt[..], ARENA_START, arenaEnd)
      ensures Valid() && blocks == map[] && selectors == s && end == arenaEnd
    {
      selectors, end, baseaddr, blocks := s, arenaEnd, ARENA_START, map[];
      huge_block_segs := new uint16[SLOTS](_ => 0);
    }

    ghost predicate Shape()
      reads this, selectors
    {
      selectors.Valid() && huge_block_segs.Length == SLOTS && huge_block_segs as object != selectors.ldt as object
    }

    ghost predicate Arena()
      reads this, selectors, selectors.ldt
      requires Shape()
    {
      Tiled(selectors.ldt[..]) && Untouched(selectors.ldt[..], baseaddr, end)
    }

    ghost predicate Valid()
      reads this, selectors, selectors.ldt, huge_block_segs
    {
      && Shape() && Arena()
      && Ledger(selectors.ldt[..], blocks, baseaddr) && Sizes(huge_block_segs[..], blocks)
    }

    method AllocSegment() returns (r: SegResult)
      requires Shape() && Arena()
      modifies this`baseaddr, selectors.ldt
      ensures Arena() && baseaddr == old(baseaddr) + (if r.NoMemory? then 0 else TILE) && baseaddr <= end
      ensures !r.Allocated? ==> selectors.ldt[..] == old(selectors.ldt[..])
      ensures r.Allocated? ==> Added(old(selectors.ldt[..]), r.selector, old(baseaddr), selectors.ldt[..])
    {
      hide Find, Tiled;
      var mapped: bool := *;
      if !mapped || baseaddr >= end {
        return NoMemory;
      }
      var segment := baseaddr;
      ghost var t := selectors.ldt[..];
      baseaddr := baseaddr + TILE;
      var kernel: bool := *;
      var ok, selector, offset := selectors.FindSelector(segment, kernel);
      if !ok {
        return Aborted;
      }
      FindFresh(t, segment, end, kernel);
      assert offset == 0;
      return Allocated(selector);
    }

    /** lxFreeSegment; clearing an LDT entry is taken to succeed. */
    method FreeSegment(selector: nat)
      requires Shape() && selector < SLOTS
      modifies selectors.ldt
      ensures selectors.ldt[..] == Release(old(selectors.ldt[..]), selector, true)
    {
      if selectors.ldt[selector] != 0 {
        selectors.FreeSelector(selector, true);
      }
    }

    method FreeRun(first: nat, n: nat)
      requires Shape() && first + n <= SLOTS
      modifies selectors.ldt
      ensures selectors.ldt[..] == Cleared(old(selectors.ldt[..]), first, n)
    {
      hide Cleared;
      ghost var t := selectors.ldt[..];
      assert Cleared(t, first, 0) == t;
      var j := 0;
      while j < n
        invariant 0 <= j <= n && selectors.ldt[..] == Cleared(t, first, j)
      {
        ClearedNext(t, first, j);
        FreeSegment(first + j);
        j := j + 1;
      }
    }

    method AllocSeg(hasPsel: bool, flags: uint16) returns (rc: int, sel: uint16, aborted: bool)
      requires Valid()
      modifies this, selectors.ldt
      ensures !aborted ==> Valid()
      ensures !aborted && rc != NO_ERROR ==> blocks == old(blocks) && selectors.ldt[..] == old(selectors.ldt[..])
      ensures !aborted && rc == NO_ERROR ==>
                && sel / 8 < SLOTS && sel % 8 == 7 && sel / 8 !in old(blocks)
                && blocks == old(blocks)[sel / 8 := 1]
      ensures rc == ERROR_INVALID_PARAMETER <==> !hasPsel || flags >= 0x10
    {
      hide Ledger, Untouched, Tiled, Find, Filled, Sizes, Segment;
      sel, aborted := 0, false;
      if !hasPsel || flags >= 0x10 {
        return ERROR_INVALID_PARAMETER, sel, false;
      }
      ghost var t, top := selectors.ldt[..], baseaddr;
      var r := AllocSegment();
      match r {
        case NoMemory => rc := ERROR_NOT_ENOUGH_MEMORY;
        case Aborted => rc, aborted := ERROR_NOT_ENOUGH_MEMORY, true;
        case Allocated(s) =>
          OneFilled(t, s, top, end, selectors.ldt[..]);
          LedgerAdd(t, blocks, top, end, s, 1);
          SizesAdd(huge_block_segs[..], blocks, s, 1, huge_block_segs[..]);
          blocks := blocks[s := 1];
          SelectorIndex(s);
          rc, sel := NO_ERROR, Segment(s);
      }
    }

    method AllocHuge(numSeg: uint16, size: uint16, hasPsel: bool, flags: uint16)
      returns (rc: int, sel: uint16, aborted: bool)
      requires Valid()
      modifies this, selectors.ldt, huge_block_segs
      ensures !aborted ==> Valid()
      ensures !aborted && rc != NO_ERROR ==> blocks == old(blocks) && selectors.ldt[..] == old(selectors.ldt[..])
      ensures !aborted && rc == NO_ERROR ==>
                && sel / 8 < SLOTS && sel % 8 == 7 && sel / 8 !in old(blocks)
                && blocks == old(blocks)[sel / 8 := numSeg + if size != 0 then 1 else 0]
      ensures rc == ERROR_INVALID_PARAMETER <==> !hasPsel || flags >= 0x10 || (numSeg == 0 && size == 0)
    {
      hide Ledger, Untouched, Tiled, Find, Filled, Sizes, Segment, Cleared, AllFree;
      sel, aborted := 0, false;
      if !hasPsel || flags >= 0x10 {
        return ERROR_INVALID_PARAMETER, sel, false;
      }
      var segs := numSeg + if size != 0 then 1 else 0;
      if segs == 0 {
        return ERROR_INVALID_PARAMETER, sel, false;
      }
      ghost var t, top := selectors.ldt[..], baseaddr;
      NothingFilled(t, top, end);
      var first: nat, i: nat := 0xFFFF, 0;
      while i < segs
        invariant 0 <= i <= segs && Arena() && baseaddr == top + i * TILE <= end <= 0xFFFF0000
        invariant blocks == old(blocks) && huge_block_segs[..] == old(huge_block_segs[..])
        invariant i == 0 ==> first == 0xFFFF && selectors.ldt[..] == t
        invariant i > 0 ==> first + i <= SLOTS && AllFree(t, first, i) && selectors.ldt[..] == Filled(t, first, i, top)
      {
        ghost var t1 := selectors.ldt[..];
        var r := AllocSegment();
        if r.Aborted? {
          return ERROR_NOT_ENOUGH_MEMORY, sel, true;
        }
        if r.NoMemory? {
          if first != 0xFFFF {
            FreeRun(first, i);
            ClearedFilled(t, first, i, top);
          }
          LedgerTop(t, blocks, top, i, end);
          return ERROR_NOT_ENOUGH_MEMORY, sel, false;
        }
        if i == 0 {
          first := r.selector;
          OneFilled(t, first, top, end, selectors.ldt[..]);
        } else if r.selector != (first + i) % TWO16 {
          UndoOne(t1, r.selector, top + i * TILE, selectors.ldt[..]);
          FreeSegment(r.selector);
          FreeRun(first, i);
          ClearedFilled(t, first, i, top);
          LedgerTop(t, blocks, top, i + 1, end);
          return ERROR_NOT_ENOUGH_MEMORY, sel, false;
        } else {
          FilledNext(t, first, i, top, selectors.ldt[..]);
          FreeNext(t, first, i);
        }
        i := i + 1;
      }
      LedgerAdd(t, blocks, top, end, first, segs);
      ghost var h := huge_block_segs[..];
      huge_block_segs[first] := segs % TWO16;
      SizesAdd(h, blocks, first, segs, huge_block_segs[..]);
      blocks := blocks[first := segs];
      SelectorIndex(first);
      return NO_ERROR, Segment(first), false;
    }

    /** Free a selector that AllocSeg or AllocHuge returned. */
    method FreeSeg(sel: uint16)
      requires Valid() && sel / 8 in blocks
      modifies this, selectors.ldt, huge_block_segs
      ensures Valid() && blocks == old(blocks) - {sel / 8}
      ensures selectors.ldt[..] == Cleared(old(selectors.ldt[..]), sel / 8, old(blocks[sel / 8]))
    {
      hide Ledger, Untouched, Tiled, Cleared, IsRun;
      var index := sel / 8;
      ghost var t, h := selectors.ldt[..], huge_block_segs[..];
      BlockInTable(t, blocks, baseaddr, index);
      SizesRemove(h, blocks, index);
      LedgerRemove(t, blocks, baseaddr, index);
      UntouchedCleared(t, baseaddr, end, index, blocks[index]);
      if huge_block_segs[index] != 0 {
        var segs := huge_block_segs[index];
        huge_block_segs[index] := 0;
        FreeRun(index, segs);
      } else {
        FreeRun(index, 1);
      }
      assert huge_block_segs[..] == h[index := 0];
      blocks := blocks - {index};
    }
  }
}
