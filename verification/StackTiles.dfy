/** Tiling the main thread's stack: each 64K of it gets the LDT slot that its address, shifted, names. */
module StackTiles {
  import opened Base
  import opened Ldt

  /** The first tile of a stack and how many it takes. */
  function FirstTile(addr: nat): nat {
    addr / TILE
  }

  function TileCount(addr: nat, len: nat): nat {
    (addr % TILE + len + TILE - 1) / TILE
  }

  /** The stack lies below the last slot's tile, so that the slot numbers are valid. */
  predicate Addressable(addr: nat, len: nat) {
    FirstTile(addr) + TileCount(addr, len) <= SLOTS
  }

  predicate OfStack(addr: nat, len: nat, i: nat) {
    FirstTile(addr) <= i < FirstTile(addr) + TileCount(addr, len)
  }

  /** The table after tiling; `refused` are the slots for which the kernel refuses an entry. */
  function Stacked(ldt: Table, addr: nat, len: nat, refused: set<nat>): Table
    requires Addressable(addr, len)
  {
    seq(SLOTS, i requires 0 <= i < SLOTS =>
      if OfStack(addr, len, i) && ldt[i] == 0 && i !in refused then i * TILE else ldt[i])
  }

  function Unstacked(ldt: Table, addr: nat, len: nat, refused: set<nat>): Table {
    seq(SLOTS, i requires 0 <= i < SLOTS => if OfStack(addr, len, i) && i !in refused then 0 else ldt[i])
  }

  /** The table when the first `k` tiles have been dealt with. */
  ghost predicate Sofar(before: Table, after: Table, whole: Table, first: nat, k: nat) {
    forall i :: 0 <= i < SLOTS ==> after[i] == if first <= i < first + k then whole[i] else before[i]
  }

  /** initOs2StackSegments. */
  method InitStackSegments(s: Selectors, address: nat, length: nat, deinit: bool, refused: set<nat>)
    requires s.Valid() && Addressable(address, length)
    modifies s.ldt
    ensures s.ldt[..] == if deinit then Unstacked(old(s.ldt[..]), address, length, refused)
                         else Stacked(old(s.ldt[..]), address, length, refused)
  {
    var addr, stacklen := address, length;
    var diff := addr % TILE;
    addr, stacklen := addr - diff, stacklen + diff;
    if stacklen % TILE != 0 {
      stacklen := stacklen + TILE - stacklen % TILE;
    }
    ghost var first, n := FirstTile(address), TileCount(address, length);
    ghost var whole: Table := if deinit then Unstacked(s.ldt[..], address, length, refused)
                              else Stacked(s.ldt[..], address, length, refused);
    assert stacklen == n * TILE && addr == first * TILE;
    ghost var k := 0;
    while stacklen != 0
      invariant 0 <= k <= n && stacklen == (n - k) * TILE && addr == (first + k) * TILE
      invariant Sofar(old(s.ldt[..]), s.ldt[..], whole, first, k)
      decreases n - k
    {
      assert addr / TILE == first + k;
      if deinit {
        s.FreeSelector(addr / TILE, addr / TILE !in refused);
      } else {
        var _ := s.AllocateSelector(addr / TILE, addr, addr / TILE !in refused);
      }
      stacklen, addr := stacklen - TILE, addr + TILE;
      k := k + 1;
    }
    assert s.ldt[..] == whole;
  }

  /** The tiles are those the stack's bytes lie in. */
  lemma TilesOfStack(addr: nat, len: nat, i: nat)
    requires len > 0
    ensures OfStack(addr, len, i) <==> exists a: nat :: addr <= a < addr + len && a / TILE == i
  {
    var last := addr + len - 1;
    assert last / TILE == FirstTile(addr) + TileCount(addr, len) - 1;
    if OfStack(addr, len, i) {
      var a := if i == addr / TILE then addr else i * TILE;
      assert addr <= a < addr + len && a / TILE == i;
    }
  }

  /** A stack address is found through the slot that its upper half names. */
  ghost predicate Direct(ldt: Table, a: uint32) {
    Find(ldt, a, true) == Found(a / TILE, a % TILE, ldt)
  }

  lemma DirectMeans(ldt: Table, a: uint32)
    requires Tiled(ldt) && TILE <= a && a / TILE < SLOTS
    ensures Direct(ldt, a) <==> ldt[a / TILE] == a / TILE * TILE
  {
    assert TileOf(a) == a / TILE * TILE;
    if ldt[a / TILE] == a / TILE * TILE {
      assert Covers(ldt[a / TILE], a);
    }
    if Direct(ldt, a) {
      FindMeans(ldt, a, true);
    }
  }

  /** Tiling a stack keeps the tiling exactly when none of the tiles it adds is in some other slot already. */
  lemma StackKeepsTiled(ldt: Table, addr: nat, len: nat, refused: set<nat>)
    requires Tiled(ldt) && Addressable(addr, len)
    ensures Tiled(Stacked(ldt, addr, len, refused)) <==>
            forall i :: 0 < i < SLOTS && OfStack(addr, len, i) && ldt[i] == 0 && i !in refused ==> i * TILE !in ldt
  {
    var after := Stacked(ldt, addr, len, refused);
    if Tiled(after) {
      forall i | 0 < i < SLOTS && OfStack(addr, len, i) && ldt[i] == 0 && i !in refused ensures i * TILE !in ldt {
        assert after[i] == i * TILE;
        forall j | 0 <= j < SLOTS ensures ldt[j] != i * TILE {
          assert j != i && ldt[j] != 0 ==> after[j] == ldt[j];
        }
      }
    } else {
      var i, j :| 0 <= i < SLOTS && 0 <= j < SLOTS
               && (after[i] % TILE != 0 || (i != j && after[i] != 0 && after[i] == after[j]));
      assert after[i] == i * TILE || after[i] == ldt[i];
      assert after[j] == j * TILE || after[j] == ldt[j];
      assert ldt[i] in ldt && ldt[j] in ldt;
    }
  }

  /**
   * After tiling, a stack address is reached through the slot its upper half names exactly when that slot was free or
   * held the address's own tile before.
   */
  lemma StackIsDirect(ldt: Table, addr: nat, len: nat, a: uint32)
    requires Addressable(addr, len) && Tiled(Stacked(ldt, addr, len, {})) && TILE <= a && addr <= a < addr + len
    ensures a / TILE < SLOTS
    ensures Direct(Stacked(ldt, addr, len, {}), a) <==> ldt[a / TILE] == 0 || ldt[a / TILE] == a / TILE * TILE
  {
    TilesOfStack(addr, len, a / TILE);
    DirectMeans(Stacked(ldt, addr, len, {}), a);
  }

  /** Giving the tiles back restores the table exactly when all the stack's slots were free before. */
  lemma UnstackUndoes(ldt: Table, addr: nat, len: nat)
    requires Addressable(addr, len)
    ensures Unstacked(Stacked(ldt, addr, len, {}), addr, len, {}) == ldt <==>
            forall i :: 0 <= i < SLOTS && OfStack(addr, len, i) ==> ldt[i] == 0
  {
  }
}
