/** The loader's LDT table: 64K tiles of linear memory, addressed through 16:16 pointers. */
module Ldt {
  import opened Base

  const SLOTS := 0x2000
  const TILE := 0x10000

  type uint32 = x: int | 0 <= x < 0x1_0000_0000
  type uint16 = x: int | 0 <= x < 0x1_0000

  /** Base address per slot; 0 marks a free one. */
  type Table = t: seq<uint32> | |t| == SLOTS witness seq(SLOTS, _ => 0)

  /** The code's test that `tile` maps `addr`; the sum wraps. */
  predicate Covers(tile: uint32, addr: uint32) {
    tile != 0 && tile <= addr && (tile + TILE) % TWO32 > addr
  }

  /** Tiles start on 64K boundaries and no two slots map the same one. */
  ghost predicate Tiled(ldt: Table) {
    && (forall i :: 0 <= i < SLOTS ==> ldt[i] % TILE == 0)
    && (forall i, j :: 0 <= i < SLOTS && 0 <= j < SLOTS && i != j && ldt[i] != 0 ==> ldt[i] != ldt[j])
  }

  function FirstCover(ldt: Table, addr: uint32, from: nat): (r: Option<nat>)
    requires from <= SLOTS
    ensures r.Some? ==> from <= r.value < SLOTS && Covers(ldt[r.value], addr)
    ensures r.Some? ==> forall i :: from <= i < r.value ==> !Covers(ldt[i], addr)
    ensures r.None? ==> forall i :: from <= i < SLOTS ==> !Covers(ldt[i], addr)
    decreases SLOTS - from
  {
    if from == SLOTS then None
    else if Covers(ldt[from], addr) then Some(from)
    else FirstCover(ldt, addr, from + 1)
  }

  /** The highest free slot below `n`. */
  function LastFree(ldt: Table, n: nat): (r: Option<nat>)
    requires n <= SLOTS
    ensures r.Some? ==> r.value < n && ldt[r.value] == 0 && forall i :: r.value < i < n ==> ldt[i] != 0
    ensures r.None? ==> forall i :: 0 <= i < n ==> ldt[i] != 0
  {
    if n == 0 then None else if ldt[n - 1] == 0 then Some(n - 1) else LastFree(ldt, n - 1)
  }

  datatype Found = NotFound | Found(selector: nat, offset: uint16, ldt: Table)

  /** allocateSelector: `kernel` is whether modify_ldt succeeds. */
  function Allocate(ldt: Table, selector: nat, addr: uint32, kernel: bool): (r: Option<Table>)
    requires selector < SLOTS
  {
    if ldt[selector] != 0 || !kernel then None else Some(ldt[selector := addr])
  }

  /** lxFindSelector, with its fast path for tiled memory. */
  function Find(ldt: Table, addr: uint32, kernel: bool): (r: Found)
    ensures r.Found? ==> r.selector < SLOTS
  {
    if addr < 0x1000 then NotFound
    else
      var idx := addr / TILE;
      if idx < SLOTS && Covers(ldt[idx], addr) then Found(idx, addr - ldt[idx], ldt)
      else
        match FirstCover(ldt, addr, 0)
        case Some(i) => Found(i, addr - ldt[i], ldt)
        case None =>
          match LastFree(ldt, SLOTS)
          case None => NotFound
          case Some(last) =>
            var selector := if idx < SLOTS && ldt[idx] == 0 then idx else last;
            match Allocate(ldt, selector, addr - addr % TILE, kernel)
            case None => NotFound
            case Some(ldt') => Found(selector, addr % TILE, ldt')
  }

  /** The tile an address lies in. */
  function TileOf(addr: uint32): (b: uint32)
    ensures b <= addr < b + TILE && b % TILE == 0
  {
    addr / TILE * TILE
  }

  /** An aligned tile covers exactly its own 64K, but for the last one, whose end wraps. */
  lemma CoverBase(tile: uint32, addr: uint32)
    requires tile % TILE == 0
    ensures Covers(tile, addr) <==> tile == TileOf(addr) && 0 < tile < 0xFFFF0000
    ensures addr % TILE == addr - TileOf(addr)
  {
    assert tile == tile / TILE * TILE;
  }

  /** The slot mapping an address is unique. */
  lemma CoverUnique(ldt: Table, addr: uint32, i: nat, j: nat)
    requires Tiled(ldt) && i < SLOTS && j < SLOTS && Covers(ldt[i], addr) && Covers(ldt[j], addr)
    ensures i == j
  {
  }

  /** A free slot becomes this tile. */
  ghost predicate Added(ldt: Table, selector: nat, base: uint32, ldt': Table) {
    selector < SLOTS && ldt[selector] == 0 && ldt' == ldt[selector := base]
  }

  /** So the fast path and the scan agree: the slot found is the one mapping the address, or a free one made to. */
  lemma FindMeans(ldt: Table, addr: uint32, kernel: bool)
    requires Tiled(ldt) && Find(ldt, addr, kernel).Found?
    ensures var f := Find(ldt, addr, kernel);
            && f.offset == addr - TileOf(addr) && f.ldt[f.selector] == TileOf(addr)
            && (if 0 < TileOf(addr) < 0xFFFF0000 && TileOf(addr) in ldt then f.ldt == ldt
                else Added(ldt, f.selector, TileOf(addr), f.ldt))
  {
    hide Covers, TileOf;
    var idx := addr / TILE;
    forall i | 0 <= i < SLOTS
      ensures Covers(ldt[i], addr) <==> ldt[i] == TileOf(addr) && 0 < TileOf(addr) < 0xFFFF0000
      ensures addr % TILE == addr - TileOf(addr)
    {
      CoverBase(ldt[i], addr);
    }
  }

  /** Some slot maps the address; the last 64K never counts as mapped. */
  predicate Mapped(ldt: Table, addr: uint32) {
    0 < TileOf(addr) < 0xFFFF0000 && TileOf(addr) in ldt
  }

  lemma CoveredMapped(ldt: Table, addr: uint32)
    requires Tiled(ldt)
    ensures FirstCover(ldt, addr, 0).Some? <==> Mapped(ldt, addr)
    ensures var idx := addr / TILE; idx < SLOTS && Covers(ldt[idx], addr) ==> Mapped(ldt, addr)
  {
    hide Covers, TileOf;
    forall i | 0 <= i < SLOTS
      ensures Covers(ldt[i], addr) <==> ldt[i] == TileOf(addr) && 0 < TileOf(addr) < 0xFFFF0000
    {
      CoverBase(ldt[i], addr);
    }
  }

  /** A selector is found exactly for a mapped address, or for any other with a free slot and the kernel's consent. */
  lemma FindSucceeds(ldt: Table, addr: uint32, kernel: bool)
    requires Tiled(ldt)
    ensures Find(ldt, addr, kernel).Found? <==> addr >= 0x1000 && (Mapped(ldt, addr) || (kernel && 0 in ldt))
  {
    hide Covers, Mapped, Tiled;
    CoveredMapped(ldt, addr);
  }

  /** A new mapping goes to the address's own slot if that is free, and else to the highest free one. */
  lemma FindChooses(ldt: Table, addr: uint32, kernel: bool)
    requires Tiled(ldt) && Find(ldt, addr, kernel).Found? && !Mapped(ldt, addr)
    ensures var k := Find(ldt, addr, kernel).selector;
            if addr < 0x20000000 && ldt[addr / TILE] == 0 then k == addr / TILE
            else ldt[k] == 0 && forall j :: k < j < SLOTS ==> ldt[j] != 0
  {
    hide Covers, Mapped, Tiled;
    CoveredMapped(ldt, addr);
  }

  function Segment(selector: nat): (s: uint16)
    requires selector < SLOTS
  {
    selector * 8 + 7
  }

  function Pack(selector: nat, offset: uint16): (p: uint32)
    requires selector < SLOTS
  {
    Segment(selector) * TILE + offset
  }

  /** lxConvert1616to32; None where the assertion on the slot fails. */
  function To32(ldt: Table, p: uint32): (r: Option<uint32>)
  {
    if p == 0 then Some(0)
    else
      var selector, offset := p / 0x80000, p % TILE;
      if ldt[selector] == 0 then None else Some((ldt[selector] + offset) % TWO32)
  }

  /** lxConvert32to1616: the pointer and the table left behind. */
  function To1616(ldt: Table, addr: uint32, kernel: bool): (r: (uint32, Table))
  {
    if addr == 0 then (0, ldt)
    else
      match Find(ldt, addr, kernel)
      case NotFound => (0, ldt)
      case Found(selector, offset, ldt') => (Pack(selector, offset), ldt')
  }

  lemma UnpackPack(selector: nat, offset: uint16)
    requires selector < SLOTS
    ensures var p := Pack(selector, offset); p != 0 && p / 0x80000 == selector && p % TILE == offset
    ensures Pack(selector, offset) == (8 * selector + 7) * 0x10000 + offset
  {
  }

  /** A linear address survives conversion to 16:16 and back exactly when it is 0 or not in the first 64K. */
  lemma RoundTrip(ldt: Table, addr: uint32, kernel: bool)
    requires Tiled(ldt) && (addr == 0 || Find(ldt, addr, kernel).Found?)
    ensures var (p, ldt') := To1616(ldt, addr, kernel);
            To32(ldt', p) == Some(addr) <==> (addr == 0 || addr >= TILE)
  {
    hide Find, Pack, Tiled;
    if addr != 0 {
      var f := Find(ldt, addr, kernel);
      UnpackPack(f.selector, f.offset);
      FindMeans(ldt, addr, kernel);
    }
  }

  lemma AddedTiled(ldt: Table, selector: nat, base: uint32, ldt': Table)
    requires Tiled(ldt) && Added(ldt, selector, base, ldt') && base % TILE == 0
    ensures Tiled(ldt') <==> (base == 0 || base !in ldt)
  {
    if base != 0 && base in ldt {
      var k :| 0 <= k < SLOTS && ldt[k] == base;
      assert ldt'[k] == ldt'[selector] && k != selector;
    }
  }

  /** Finding a selector keeps the tiling exactly when it does not tile the wrapping last 64K a second time. */
  lemma FindKeepsTiled(ldt: Table, addr: uint32, kernel: bool)
    requires Tiled(ldt) && Find(ldt, addr, kernel).Found?
    ensures Tiled(Find(ldt, addr, kernel).ldt) <==> (addr < 0xFFFF0000 || 0xFFFF0000 !in ldt)
  {
    hide Find, Tiled;
    FindMeans(ldt, addr, kernel);
    var f, base := Find(ldt, addr, kernel), TileOf(addr);
    if f.ldt != ldt || base == 0xFFFF0000 {
      AddedTiled(ldt, f.selector, base, f.ldt);
    }
  }

  /** lxFreeSelector. */
  function Release(ldt: Table, selector: nat, kernel: bool): Table
    requires selector < SLOTS
  {
    if ldt[selector] == 0 || !kernel then ldt else ldt[selector := 0]
  }

  // Runs: any sequence of finds and releases, the kernel refusing wherever it likes.

  datatype Op = DoFind(addr: uint32, kernel: bool) | DoRelease(selector: nat, kernel: bool)

  function Apply(ldt: Table, op: Op): Table {
    match op
    case DoFind(addr, kernel) =>
      var f := Find(ldt, addr, kernel);
      if f.Found? then f.ldt else ldt
    case DoRelease(selector, kernel) =>
      if selector < SLOTS then Release(ldt, selector, kernel) else ldt
  }

  function Run(ldt: Table, ops: seq<Op>): Table
    decreases |ops|
  {
    if ops == [] then ldt else Run(Apply(ldt, ops[0]), ops[1..])
  }

  /** The addresses asked for stay below the last 64K. */
  predicate InRange(ops: seq<Op>) {
    forall i :: 0 <= i < |ops| && ops[i].DoFind? ==> ops[i].addr < 0xFFFF0000
  }

  lemma {:induction false} RunTiled(ldt: Table, ops: seq<Op>)
    requires Tiled(ldt) && InRange(ops)
    ensures Tiled(Run(ldt, ops))
    decreases |ops|
  {
    hide Find, FirstCover;
    if ops != [] {
      var op := ops[0];
      if op.DoFind? && Find(ldt, op.addr, op.kernel).Found? {
        FindKeepsTiled(ldt, op.addr, op.kernel);
      }
      RunTiled(Apply(ldt, op), ops[1..]);
    }
  }

  /** A slot keeps its tile through any run that does not release its selector. */
  lemma {:induction false} RunKeeps(ldt: Table, ops: seq<Op>, selector: nat)
    requires Tiled(ldt) && InRange(ops) && selector < SLOTS && ldt[selector] != 0
    requires forall i :: 0 <= i < |ops| && ops[i].DoRelease? ==> ops[i].selector != selector
    ensures Run(ldt, ops)[selector] == ldt[selector]
    decreases |ops|
  {
    hide Find, Tiled;
    if ops != [] {
      var op := ops[0];
      if op.DoFind? && Find(ldt, op.addr, op.kernel).Found? {
        FindMeans(ldt, op.addr, op.kernel);
      }
      RunTiled(ldt, [op]);
      assert Run(ldt, [op]) == Apply(ldt, op);
      RunKeeps(Apply(ldt, op), ops[1..], selector);
    }
  }

  /** A 16:16 pointer made from a linear address means that address until its selector is released. */
  lemma PointerLasts(ldt: Table, addr: uint32, kernel: bool, ops: seq<Op>)
    requires Tiled(ldt) && TILE <= addr < 0xFFFF0000 && InRange(ops) && Find(ldt, addr, kernel).Found?
    requires forall i :: 0 <= i < |ops| && ops[i].DoRelease? ==> ops[i].selector != Find(ldt, addr, kernel).selector
    ensures var (p, ldt') := To1616(ldt, addr, kernel);
            To32(Run(ldt', ops), p) == Some(addr)
  {
    hide Find, Tiled, Pack, Run, InRange;
    FindMeans(ldt, addr, kernel);
    FindKeepsTiled(ldt, addr, kernel);
    var f := Find(ldt, addr, kernel);
    RunKeeps(f.ldt, ops, f.selector);
    UnpackPack(f.selector, f.offset);
  }

  lemma ScanStart(ldt: Table, addr: uint32)
    ensures LastFree(ldt, 0) == None && FirstCover(ldt, addr, SLOTS) == None
  {
  }

  lemma ScanStep(ldt: Table, addr: uint32, i: nat)
    requires i < SLOTS
    ensures FirstCover(ldt, addr, i) == if Covers(ldt[i], addr) then Some(i) else FirstCover(ldt, addr, i + 1)
    ensures LastFree(ldt, i + 1) == if ldt[i] == 0 then Some(i) else LastFree(ldt, i)
    ensures Covers(ldt[i], addr) <==> ldt[i] != 0 && ldt[i] <= addr && (ldt[i] + TILE) % TWO32 > addr
  {
  }

  lemma FindScan(ldt: Table, addr: uint32, kernel: bool)
    requires addr >= 0x1000
    requires var idx := addr / TILE; idx < SLOTS ==> !Covers(ldt[idx], addr)
    ensures Find(ldt, addr, kernel) ==
            match FirstCover(ldt, addr, 0)
            case Some(i) => Found(i, addr - ldt[i], ldt)
            case None =>
              var preferred := if addr / TILE < SLOTS && ldt[addr / TILE] == 0 then addr / TILE else -1;
              var available := if LastFree(ldt, SLOTS).Some? then LastFree(ldt, SLOTS).value else preferred;
              if available == -1 then NotFound
              else
                var selector := if preferred != -1 then preferred else available;
                match Allocate(ldt, selector, addr - addr % TILE, kernel)
                case None => NotFound
                case Some(ldt') => Found(selector, addr % TILE, ldt')
  {
  }

  /** lxFindSelector and its companions over the mutable table. */
  class Selectors {
    var ldt: array<uint32>

    ghost predicate Valid()
      reads this
    {
      ldt.Length == SLOTS
    }

    constructor ()
      ensures Valid() && fresh(ldt) && Tiled(ldt[..])
    {
      ldt := new uint32[SLOTS](_ => 0);
    }

    method AllocateSelector(selector: nat, addr: uint32, kernel: bool) returns (ok: bool)
      requires Valid() && selector < SLOTS
      modifies ldt
      ensures ok <==> Allocate(old(ldt[..]), selector, addr, kernel).Some?
      ensures ldt[..] == if ok then Allocate(old(ldt[..]), selector, addr, kernel).value else old(ldt[..])
    {
      if ldt[selector] != 0 || !kernel {
        return false;
      }
      ldt[selector] := addr;
      return true;
    }

    /** The full scan: a slot mapping `addr`, or the last free slot. */
    method Scan(addr: uint32, preferred: int) returns (hit: int, available: int)
      requires Valid()
      ensures match FirstCover(ldt[..], addr, 0) case Some(i) => hit == i case None => hit == -1
      ensures hit == -1 ==> available == match LastFree(ldt[..], SLOTS) case Some(i) => i case None => preferred
    {
      hide Covers, FirstCover, LastFree;
      ScanStart(ldt[..], addr);
      hit, available := -1, preferred;
      var i := 0;
      while i < SLOTS
        invariant 0 <= i <= SLOTS
        invariant FirstCover(ldt[..], addr, 0) == FirstCover(ldt[..], addr, i)
        invariant available == match LastFree(ldt[..], i) case Some(k) => k case None => preferred
      {
        ScanStep(ldt[..], addr, i);
        var tile := ldt[i];
        if tile == 0 {
          available := i;
        } else if tile <= addr && (tile + TILE) % TWO32 > addr {
          return i, available;
        }
        i := i + 1;
      }
    }

    method FindSelector(addr: uint32, kernel: bool) returns (ok: bool, selector: nat, offset: uint16)
      requires Valid()
      modifies ldt
      ensures ok <==> Find(old(ldt[..]), addr, kernel).Found?
      ensures ok ==> Find(old(ldt[..]), addr, kernel) == Found(selector, offset, ldt[..])
      ensures !ok ==> ldt[..] == old(ldt[..])
    {
      selector, offset := 0, 0;
      if addr < 0x1000 {
        return false, selector, offset;
      }
      var available, preferred := -1, -1;
      if addr < 1024 * 1024 * 512 {
        var idx := addr / TILE;
        var tile := ldt[idx];
        if tile == 0 {
          preferred, available := idx, idx;
        } else if tile <= addr && (tile + TILE) % TWO32 > addr {
          return true, idx, addr - tile;
        }
      }
      ghost var t := ldt[..];
      assert var idx := addr / TILE; idx < SLOTS ==> !Covers(t[idx], addr);
      FindScan(t, addr, kernel);
      hide Find, Covers, FirstCover, LastFree;
      var hit := -1;
      hit, available := Scan(addr, available);
      if hit != -1 {
        return true, hit, addr - ldt[hit];
      }
      if available == -1 {
        return false, selector, offset;
      }
      var diff := addr % TILE;
      selector := if preferred != -1 then preferred else available;
      ok := AllocateSelector(selector, addr - diff, kernel);
      if ok {
        offset := diff;
      }
    }

    method FreeSelector(selector: nat, kernel: bool)
      requires Valid() && selector < SLOTS
      modifies ldt
      ensures ldt[..] == Release(old(ldt[..]), selector, kernel)
    {
      if ldt[selector] == 0 {
        return;
      }
      if !kernel {
        return;
      }
      ldt[selector] := 0;
    }
  }
}
