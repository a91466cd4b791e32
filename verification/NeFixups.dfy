/** NE relocation: fixup chains threaded through the segment they patch. */
module NeFixups {
  import opened Base

  /** A relocation record with its target resolved to a 16:16 pointer; None for the records the loader skips. */
  datatype Fixup = Fixup(srctype: byte, additive: bool, offset: int, target: Option<int>) {
    predicate Valid() {
      0 <= offset < TWO16 && (target.Some? ==> 0 <= target.value < TWO32)
    }
  }

  /** What a fixup stores: the low byte, the segment, both halves, or the offset of the target. */
  function Patch(srctype: byte, target: int): (p: seq<byte>)
    requires 0 <= target < TWO32
    ensures |p| <= 4
  {
    match srctype % 0x10
    case 0 => [target % 0x100]
    case 2 => Le16(target / TWO16)
    case 3 => Le16(target % TWO16) + Le16(target / TWO16)
    case 5 => Le16(target % TWO16)
    case _ => []
  }

  function Store(mem: seq<byte>, at: nat, p: seq<byte>): (r: seq<byte>)
    requires at + |p| <= |mem|
    ensures |r| == |mem|
    ensures forall k :: 0 <= k < |mem| ==> r[k] == if at <= k < at + |p| then p[k - at] else mem[k]
  {
    mem[..at] + p + mem[at + |p|..]
  }

  /** The bytes a chain cell needs for itself: its link and whatever is stored over it. */
  function Span(width: nat): nat {
    if width < 2 then 2 else width
  }

  /** `cells` are the offsets visited from `offset` by following 16-bit links until one is not below `size`. */
  predicate Chain(mem: seq<byte>, size: nat, offset: int, cells: seq<nat>)
    decreases |cells|
  {
    if cells == [] then offset >= size
    else
      && 0 <= offset < size && offset == cells[0] && offset + 2 <= |mem|
      && Chain(mem, size, U16(mem[offset..]), cells[1..])
  }

  ghost predicate Apart(cells: seq<nat>, span: nat) {
    forall i, j :: 0 <= i < j < |cells| ==> cells[i] + span <= cells[j] || cells[j] + span <= cells[i]
  }

  predicate Inside(cells: seq<nat>, span: nat, n: nat) {
    forall i :: 0 <= i < |cells| ==> cells[i] + span <= n
  }

  /** `p` stored at every cell. */
  function Patched(mem: seq<byte>, cells: seq<nat>, p: seq<byte>): (r: seq<byte>)
    requires Inside(cells, |p|, |mem|)
    ensures |r| == |mem|
    decreases |cells|
  {
    if cells == [] then mem else Patched(Store(mem, cells[0], p), cells[1..], p)
  }

  /** A chain depends only on the links of its cells. */
  lemma {:induction false} ChainKept(a: seq<byte>, b: seq<byte>, size: nat, offset: int, cells: seq<nat>)
    requires Chain(a, size, offset, cells) && |a| == |b|
    requires forall i, k :: 0 <= i < |cells| && cells[i] <= k < cells[i] + 2 && k < |a| ==> b[k] == a[k]
    ensures Chain(b, size, offset, cells)
    decreases |cells|
  {
    if cells != [] {
      assert b[cells[0]] == a[cells[0]] && b[cells[0] + 1] == a[cells[0] + 1];
      assert forall i :: 0 <= i < |cells[1..]| ==> cells[1..][i] == cells[i + 1];
      ChainKept(a, b, size, U16(a[offset..]), cells[1..]);
    }
  }

  lemma RestApart(cells: seq<nat>, span: nat, width: nat, n: nat)
    requires Apart(cells, span) && Inside(cells, width, n) && cells != []
    ensures Apart(cells[1..], span) && Inside(cells[1..], width, n) && cells[0] + width <= n
    ensures forall j :: 0 < j < |cells| ==> cells[0] + span <= cells[j] || cells[j] + span <= cells[0]
  {
  }

  lemma {:induction false} PatchedAt(mem: seq<byte>, cells: seq<nat>, p: seq<byte>, i: nat, k: nat)
    requires Inside(cells, |p|, |mem|) && Apart(cells, Span(|p|)) && i < |cells| && k < |p|
    ensures Patched(mem, cells, p)[cells[i] + k] == p[k]
    decreases |cells|
  {
    var next, rest := Store(mem, cells[0], p), cells[1..];
    RestApart(cells, Span(|p|), |p|, |mem|);
    hide Apart, Inside, Store;
    if i == 0 {
      forall j | 0 <= j < |rest|
        ensures !(rest[j] <= cells[0] + k < rest[j] + |p|)
      {
        assert rest[j] == cells[j + 1];
      }
      PatchedElsewhere(next, rest, p, cells[0] + k);
    } else {
      PatchedAt(next, rest, p, i - 1, k);
    }
  }

  lemma {:induction false} PatchedElsewhere(mem: seq<byte>, cells: seq<nat>, p: seq<byte>, b: nat)
    requires Inside(cells, |p|, |mem|) && b < |mem|
    requires forall i :: 0 <= i < |cells| ==> !(cells[i] <= b < cells[i] + |p|)
    ensures Patched(mem, cells, p)[b] == mem[b]
    decreases |cells|
  {
    if cells != [] {
      PatchedElsewhere(Store(mem, cells[0], p), cells[1..], p, b);
    }
  }

  predicate Under(cells: seq<nat>, width: nat, b: nat) {
    exists i :: 0 <= i < |cells| && cells[i] <= b < cells[i] + width
  }

  /** Patching leaves the patch under every cell and changes no other byte. */
  lemma PatchedBytes(mem: seq<byte>, cells: seq<nat>, p: seq<byte>)
    requires Inside(cells, |p|, |mem|) && Apart(cells, Span(|p|))
    ensures var r := Patched(mem, cells, p);
            && (forall i, k :: 0 <= i < |cells| && 0 <= k < |p| ==> r[cells[i] + k] == p[k])
            && (forall b :: 0 <= b < |mem| && !Under(cells, |p|, b) ==> r[b] == mem[b])
  {
    hide Patched;
    forall i, k | 0 <= i < |cells| && 0 <= k < |p|
      ensures Patched(mem, cells, p)[cells[i] + k] == p[k]
    {
      PatchedAt(mem, cells, p, i, k);
    }
    forall b | 0 <= b < |mem| && !Under(cells, |p|, b)
      ensures Patched(mem, cells, p)[b] == mem[b]
    {
      PatchedElsewhere(mem, cells, p, b);
    }
  }

  /** The destructive walk: each link is read before the target overwrites it. */
  method WalkChain(dst: array<byte>, size: nat, srctype: byte, target: int, start: int, ghost cells: seq<nat>)
    requires 0 <= target < TWO32
    requires Chain(dst[..], size, start, cells)
    requires Apart(cells, Span(|Patch(srctype, target)|)) && Inside(cells, |Patch(srctype, target)|, dst.Length)
    modifies dst
    ensures dst[..] == Patched(old(dst[..]), cells, Patch(srctype, target))
  {
    hide Patch;
    var srcchain_offset := start;
    ghost var rest, p := cells, Patch(srctype, target);
    while srcchain_offset < size
      invariant Chain(dst[..], size, srcchain_offset, rest)
      invariant Apart(rest, Span(|p|)) && Inside(rest, |p|, dst.Length)
      invariant Patched(dst[..], rest, p) == Patched(old(dst[..]), cells, p)
      decreases |rest|
    {
      ghost var was := dst[..];
      var source := srcchain_offset;
      srcchain_offset := U16(dst[source..]);
      assert dst[source..] == was[source..];
      StorePatch(dst, source, srctype, target);
      assert forall i :: 0 <= i < |rest[1..]| ==> rest[1..][i] == rest[i + 1];
      ChainKept(was, dst[..], size, srcchain_offset, rest[1..]);
      rest := rest[1..];
    }
  }

  /** The switch on the source type. */
  method StorePatch(dst: array<byte>, at: nat, srctype: byte, target: int)
    requires 0 <= target < TWO32 && at + |Patch(srctype, target)| <= dst.Length
    modifies dst
    ensures dst[..] == Store(old(dst[..]), at, Patch(srctype, target))
  {
    match srctype % 0x10 {
      case 0 =>
        dst[at] := target % 0x100;
      case 2 =>
        Put16(dst, at, target / TWO16);
      case 3 =>
        Put16(dst, at, target % TWO16);
        Put16(dst, at + 2, target / TWO16);
      case 5 =>
        Put16(dst, at, target % TWO16);
      case _ =>
    }
  }

  method Put16(dst: array<byte>, at: nat, v: int)
    requires 0 <= v < TWO16 && at + 2 <= dst.Length
    modifies dst
    ensures dst[..] == Store(old(dst[..]), at, Le16(v))
  {
    dst[at] := v % 0x100;
    dst[at + 1] := v / 0x100;
  }

  // A whole segment: the fixups in order, each on its own cells.

  function Width(f: Fixup): nat
    requires f.Valid()
  {
    if f.target.None? then 0 else |Patch(f.srctype, f.target.value)|
  }

  /** Adding the target to the field at the offset, half by half, each wrapping in its own width. */
  function Added(mem: seq<byte>, at: nat, srctype: byte, target: int): (r: seq<byte>)
    requires 0 <= target < TWO32 && at + |Patch(srctype, target)| <= |mem|
    ensures |r| == |mem|
  {
    match srctype % 0x10
    case 0 =>
      var was: int := mem[at];
      Store(mem, at, [(was + target % 0x100) % 0x100])
    case 2 => Store(mem, at, Le16((U16(mem[at..]) + target / TWO16) % TWO16))
    case 3 =>
      assert |mem[at + 2..]| >= 2;
      var lo, hi := (U16(mem[at..]) + target % TWO16) % TWO16, (U16(mem[at + 2..]) + target / TWO16) % TWO16;
      Store(mem, at, Le16(lo) + Le16(hi))
    case 5 => Store(mem, at, Le16((U16(mem[at..]) + target % TWO16) % TWO16))
    case _ => mem
  }

  /** The cells fixup `f` may use: none if it is skipped, its offset if it adds, its chain otherwise. */
  ghost predicate Uses(mem: seq<byte>, size: nat, f: Fixup, cells: seq<nat>) {
    && f.Valid() && Inside(cells, Span(Width(f)), |mem|) && Apart(cells, Span(Width(f)))
    && (if f.target.None? then cells == []
        else if f.additive then cells == [f.offset]
        else Chain(mem, size, f.offset, cells))
  }

  function Applied(mem: seq<byte>, f: Fixup, cells: seq<nat>): (r: seq<byte>)
    requires f.Valid() && Inside(cells, Width(f), |mem|)
    requires f.target.Some? && f.additive ==> cells == [f.offset]
    ensures |r| == |mem|
  {
    if f.target.None? then mem
    else if f.additive then
      assert cells[0] == f.offset;
      Added(mem, f.offset, f.srctype, f.target.value)
    else Patched(mem, cells, Patch(f.srctype, f.target.value))
  }

  /** No fixup touches a cell of another. */
  ghost predicate Separate(a: seq<nat>, m: nat, b: seq<nat>, n: nat) {
    forall i, j :: 0 <= i < |a| && 0 <= j < |b| ==> a[i] + m <= b[j] || b[j] + n <= a[i]
  }

  ghost predicate AllUse(mem: seq<byte>, size: nat, fs: seq<Fixup>, chains: seq<seq<nat>>) {
    && |chains| == |fs|
    && (forall i :: 0 <= i < |fs| ==> Uses(mem, size, fs[i], chains[i]))
    && (forall i, j :: 0 <= i < j < |fs| ==> Separate(chains[i], Span(Width(fs[i])), chains[j], Span(Width(fs[j]))))
  }

  /** Every fixup stays inside `n` bytes on its cells. */
  predicate Ready(fs: seq<Fixup>, chains: seq<seq<nat>>, n: nat) {
    && |chains| == |fs|
    && (forall i :: 0 <= i < |fs| ==> fs[i].Valid() && Inside(chains[i], Width(fs[i]), n))
    && (forall i :: 0 <= i < |fs| && fs[i].target.Some? && fs[i].additive ==> chains[i] == [fs[i].offset])
  }

  function ApplyAll(mem: seq<byte>, fs: seq<Fixup>, chains: seq<seq<nat>>): (r: seq<byte>)
    requires Ready(fs, chains, |mem|)
    ensures |r| == |mem|
    decreases |fs|
  {
    if fs == [] then mem else ApplyAll(Applied(mem, fs[0], chains[0]), fs[1..], chains[1..])
  }

  /** An applied fixup changes only bytes under its own cells. */
  lemma AppliedElsewhere(mem: seq<byte>, size: nat, f: Fixup, cells: seq<nat>, b: nat)
    requires Uses(mem, size, f, cells) && b < |mem| && !Under(cells, Width(f), b)
    ensures Applied(mem, f, cells)[b] == mem[b]
  {
    if f.target.Some? {
      if f.additive {
        assert cells[0] == f.offset;
      } else {
        PatchedElsewhere(mem, cells, Patch(f.srctype, f.target.value), b);
      }
    }
  }

  lemma UsesKept(mem: seq<byte>, size: nat, f: Fixup, cells: seq<nat>, g: Fixup, others: seq<nat>)
    requires Uses(mem, size, f, cells) && Uses(mem, size, g, others)
    requires Separate(cells, Span(Width(f)), others, Span(Width(g)))
    ensures Uses(Applied(mem, f, cells), size, g, others)
  {
    var r := Applied(mem, f, cells);
    hide Applied, Patch, Separate, Apart;
    forall i, k | 0 <= i < |others| && others[i] <= k < others[i] + 2 && k < |mem|
      ensures r[k] == mem[k]
    {
      SeparateAt(cells, Span(Width(f)), others, Span(Width(g)), i, k);
      AppliedElsewhere(mem, size, f, cells, k);
    }
    if g.target.Some? && !g.additive {
      ChainKept(mem, r, size, g.offset, others);
    }
  }

  lemma SeparateAt(a: seq<nat>, m: nat, b: seq<nat>, n: nat, i: nat, k: nat)
    requires Separate(a, m, b, n) && i < |b| && b[i] <= k < b[i] + n
    ensures !Under(a, m, k)
  {
  }

  lemma AllReady(mem: seq<byte>, size: nat, fs: seq<Fixup>, chains: seq<seq<nat>>)
    requires AllUse(mem, size, fs, chains)
    ensures Ready(fs, chains, |mem|)
  {
  }

  /** Applying the first fixup leaves the chains of the others as they were. */
  lemma AllUseNext(mem: seq<byte>, size: nat, fs: seq<Fixup>, chains: seq<seq<nat>>)
    requires AllUse(mem, size, fs, chains) && fs != []
    ensures Uses(mem, size, fs[0], chains[0])
    ensures AllUse(Applied(mem, fs[0], chains[0]), size, fs[1..], chains[1..])
  {
    hide Uses, Applied, Separate;
    UsesFacts(mem, size, fs[0], chains[0]);
    forall i | 0 < i < |fs|
      ensures Uses(Applied(mem, fs[0], chains[0]), size, fs[i], chains[i])
    {
      UsesKept(mem, size, fs[0], chains[0], fs[i], chains[i]);
    }
  }

  /** fixupNeSegment over resolved records. */
  method FixupSegment(dst: array<byte>, size: nat, fs: seq<Fixup>, ghost chains: seq<seq<nat>>)
    requires AllUse(dst[..], size, fs, chains)
    modifies dst
    ensures Ready(fs, chains, dst.Length)
    ensures dst[..] == ApplyAll(old(dst[..]), fs, chains)
    ensures SegmentDone(old(dst[..]), dst[..], fs, chains)
  {
    SegmentIsDone(dst[..], size, fs, chains);
    AllReady(dst[..], size, fs, chains);
    ghost var rest, cells := fs, chains;
    hide AllUse, Uses, Patched, Added, Patch, SegmentDone;
    for i := 0 to |fs|
      invariant rest == fs[i..] && AllUse(dst[..], size, rest, cells)
      invariant Ready(rest, cells, |dst[..]|) && Ready(fs, chains, |old(dst[..])|)
      invariant ApplyAll(dst[..], rest, cells) == ApplyAll(old(dst[..]), fs, chains)
    {
      AllUseNext(dst[..], size, rest, cells);
      UsesFacts(dst[..], size, rest[0], cells[0]);
      ghost var was := dst[..];
      if fs[i].target.Some? {
        if fs[i].additive {
          AddPatch(dst, fs[i].offset, fs[i].srctype, fs[i].target.value);
        } else {
          WalkChain(dst, size, fs[i].srctype, fs[i].target.value, fs[i].offset, cells[0]);
        }
      }
      assert dst[..] == Applied(was, rest[0], cells[0]);
      AllReady(dst[..], size, rest[1..], cells[1..]);
      rest, cells := rest[1..], cells[1..];
    }
  }

  lemma UsesFacts(mem: seq<byte>, size: nat, f: Fixup, cells: seq<nat>)
    requires Uses(mem, size, f, cells)
    ensures f.Valid() && Inside(cells, Width(f), |mem|) && Apart(cells, Span(Width(f)))
    ensures f.target.Some? && f.additive ==> cells == [f.offset] && f.offset + Width(f) <= |mem|
    ensures f.target.Some? && !f.additive ==> Chain(mem, size, f.offset, cells)
  {
    if f.target.Some? && f.additive {
      assert cells[0] == f.offset;
    }
  }

  method AddPatch(dst: array<byte>, at: nat, srctype: byte, target: int)
    requires 0 <= target < TWO32 && at + |Patch(srctype, target)| <= dst.Length
    modifies dst
    ensures dst[..] == Added(old(dst[..]), at, srctype, target)
  {
    match srctype % 0x10 {
      case 0 =>
        var was: int := dst[at];
        dst[at] := (was + target % 0x100) % 0x100;
      case 2 =>
        Put16(dst, at, (U16(dst[at..]) + target / TWO16) % TWO16);
      case 3 =>
        Put16(dst, at, (U16(dst[at..]) + target % TWO16) % TWO16);
        Put16(dst, at + 2, (U16(dst[at + 2..]) + target / TWO16) % TWO16);
      case 5 =>
        Put16(dst, at, (U16(dst[at..]) + target % TWO16) % TWO16);
      case _ =>
    }
  }

  /** Over a whole segment, a byte that no fixup covers is unchanged. */
  lemma {:induction false} SegmentElsewhere(mem: seq<byte>, size: nat, fs: seq<Fixup>, chains: seq<seq<nat>>, b: nat)
    requires AllUse(mem, size, fs, chains) && b < |mem|
    requires forall i :: 0 <= i < |fs| ==> !Under(chains[i], Width(fs[i]), b)
    ensures Ready(fs, chains, |mem|) && ApplyAll(mem, fs, chains)[b] == mem[b]
    decreases |fs|
  {
    AllReady(mem, size, fs, chains);
    if fs != [] {
      AllUseNext(mem, size, fs, chains);
      hide AllUse, Uses, Under, Width, Applied, Ready;
      AppliedElsewhere(mem, size, fs[0], chains[0], b);
      SegmentElsewhere(Applied(mem, fs[0], chains[0]), size, fs[1..], chains[1..], b);
    }
  }

  /** And a byte of a chain cell holds that fixup's patch, whatever the other fixups do. */
  lemma {:induction false} SegmentAt(mem: seq<byte>, size: nat, fs: seq<Fixup>, chains: seq<seq<nat>>, i: nat, j: nat,
                                     k: nat)
    requires AllUse(mem, size, fs, chains) && i < |fs| && fs[i].target.Some? && !fs[i].additive
    requires j < |chains[i]| && k < Width(fs[i])
    ensures Ready(fs, chains, |mem|) && chains[i][j] + k < |mem|
    ensures ApplyAll(mem, fs, chains)[chains[i][j] + k] == Patch(fs[i].srctype, fs[i].target.value)[k]
    decreases |fs|
  {
    hide AllUse, Uses, Applied, Patch, Inside, Under;
    AllReady(mem, size, fs, chains);
    AllUseNext(mem, size, fs, chains);
    UsesFacts(mem, size, fs[0], chains[0]);
    InsideAt(chains[i], Width(fs[i]), |mem|, j);
    var next := Applied(mem, fs[0], chains[0]);
    if i == 0 {
      AppliedAt(mem, fs[0], chains[0], j, k);
      forall m | 0 < m < |fs|
        ensures !Under(chains[m], Width(fs[m]), chains[0][j] + k)
      {
        OthersApart(mem, size, fs, chains, 0, j, k, m);
      }
      SegmentElsewhere(next, size, fs[1..], chains[1..], chains[0][j] + k);
    } else {
      SegmentAt(next, size, fs[1..], chains[1..], i - 1, j, k);
    }
  }

  /** A field plus the target, half by half. */
  predicate IsSum(was: seq<byte>, now: seq<byte>, srctype: byte, target: int)
    requires 0 <= target < TWO32 && |was| == |now| == |Patch(srctype, target)|
  {
    match srctype % 0x10
    case 0 => now[0] as int == (was[0] as int + target) % 0x100
    case 2 => U16(now) == (U16(was) + target / TWO16) % TWO16
    case 3 =>
      && U16(now) == (U16(was) + target) % TWO16
      && U16(now[2..]) == (U16(was[2..]) + target / TWO16) % TWO16
    case 5 => U16(now) == (U16(was) + target) % TWO16
    case _ => true
  }

  lemma AddedSum(mem: seq<byte>, at: nat, srctype: byte, target: int)
    requires 0 <= target < TWO32 && at + |Patch(srctype, target)| <= |mem|
    ensures var n := |Patch(srctype, target)|;
            IsSum(mem[at..at + n], Added(mem, at, srctype, target)[at..at + n], srctype, target)
  {
    hide Le16;
    var n := |Patch(srctype, target)|;
    var was, r := mem[at..at + n], Added(mem, at, srctype, target);
    var now := r[at..at + n];
    if n >= 2 {
      WordAt(mem, at, n);
      AddLow(U16(mem[at..]), target);
    }
    match srctype % 0x10
    case 0 => AddByte(mem[at], target);
    case 2 => assert now == Le16((U16(mem[at..]) + target / TWO16) % TWO16);
    case 3 =>
      var lo, hi := (U16(mem[at..]) + target % TWO16) % TWO16, (U16(mem[at + 2..]) + target / TWO16) % TWO16;
      assert now == Le16(lo) + Le16(hi);
      assert now[2..] == Le16(hi);
      WordFront(Le16(lo), Le16(hi));
      WordAt(mem, at + 2, 2);
      assert was[2..] == mem[at + 2..at + 4];
    case 5 => assert now == Le16((U16(mem[at..]) + target % TWO16) % TWO16);
    case _ =>
  }

  lemma WordAt(mem: seq<byte>, at: nat, n: nat)
    requires at + n <= |mem| && n >= 2
    ensures U16(mem[at..at + n]) == U16(mem[at..])
  {
  }

  lemma WordFront(a: seq<byte>, b: seq<byte>)
    requires |a| == 2
    ensures U16(a + b) == U16(a)
  {
  }

  lemma AddLow(x: int, target: int)
    requires 0 <= x && 0 <= target
    ensures (x + target % TWO16) % TWO16 == (x + target) % TWO16
  {
    var y := x + target % TWO16;
    assert x + target == (target / TWO16 + y / TWO16) * TWO16 + y % TWO16;
    Split(target / TWO16 + y / TWO16, y % TWO16, TWO16);
  }

  lemma AddByte(x: byte, target: int)
    requires 0 <= target
    ensures (x as int + target % 0x100) % 0x100 == (x as int + target) % 0x100
  {
    var y := x as int + target % 0x100;
    assert x as int + target == (target / 0x100 + y / 0x100) * 0x100 + y % 0x100;
    Split(target / 0x100 + y / 0x100, y % 0x100, 0x100);
  }

  lemma Elsewhere(mem: seq<byte>, size: nat, fs: seq<Fixup>, chains: seq<seq<nat>>, i: nat)
    requires AllUse(mem, size, fs, chains) && 0 < i < |fs| && fs[i].target.Some? && fs[i].additive
    ensures fs[i].Valid() && fs[i].offset + Width(fs[i]) <= |mem|
    ensures Uses(mem, size, fs[0], chains[0]) && Ready(fs, chains, |mem|)
    ensures var at, n := fs[i].offset, Width(fs[i]);
            Applied(mem, fs[0], chains[0])[at..at + n] == mem[at..at + n]
  {
    hide Applied, Patch, Under;
    AllReady(mem, size, fs, chains);
    UsesFacts(mem, size, fs[i], chains[i]);
    var at, n := fs[i].offset, Width(fs[i]);
    forall b | at <= b < at + n
      ensures Applied(mem, fs[0], chains[0])[b] == mem[b]
    {
      SeparateAt(chains[0], Span(Width(fs[0])), chains[i], Span(Width(fs[i])), 0, b);
      UnderSpan(chains[0], Width(fs[0]), b);
      AppliedElsewhere(mem, size, fs[0], chains[0], b);
    }
  }

  lemma UnderSpan(cells: seq<nat>, width: nat, b: nat)
    ensures Under(cells, width, b) ==> Under(cells, Span(width), b)
  {
  }

  lemma Untouched(mem: seq<byte>, size: nat, fs: seq<Fixup>, chains: seq<seq<nat>>, at: nat, n: nat)
    requires AllUse(mem, size, fs, chains) && at + n <= |mem|
    requires forall m, b :: 0 <= m < |fs| && at <= b < at + n ==> !Under(chains[m], Width(fs[m]), b)
    ensures Ready(fs, chains, |mem|) && ApplyAll(mem, fs, chains)[at..at + n] == mem[at..at + n]
  {
    hide AllUse, Under, ApplyAll;
    AllReady(mem, size, fs, chains);
    forall b | at <= b < at + n
      ensures ApplyAll(mem, fs, chains)[b] == mem[b]
    {
      SegmentElsewhere(mem, size, fs, chains, b);
    }
  }

  /** An additive field ends up with its original value plus the target, whatever the other fixups do. */
  lemma {:induction false} SegmentSum(mem: seq<byte>, size: nat, fs: seq<Fixup>, chains: seq<seq<nat>>, i: nat)
    requires AllUse(mem, size, fs, chains) && i < |fs| && fs[i].target.Some? && fs[i].additive
    ensures Ready(fs, chains, |mem|) && fs[i].Valid() && fs[i].offset + Width(fs[i]) <= |mem|
    ensures var at, n := fs[i].offset, Width(fs[i]);
            IsSum(mem[at..at + n], ApplyAll(mem, fs, chains)[at..at + n], fs[i].srctype, fs[i].target.value)
    decreases |fs|
  {
    hide AllUse, Uses, Patch, Inside, Under, Added, IsSum;
    AllReady(mem, size, fs, chains);
    AllUseNext(mem, size, fs, chains);
    UsesFacts(mem, size, fs[0], chains[0]);
    var next := Applied(mem, fs[0], chains[0]);
    var at, n := fs[i].offset, Width(fs[i]);
    AllReady(next, size, fs[1..], chains[1..]);
    if i == 0 {
      AddedSum(mem, at, fs[0].srctype, fs[0].target.value);
      forall m, b | 0 <= m < |fs[1..]| && at <= b < at + n
        ensures !Under(chains[1..][m], Width(fs[1..][m]), b)
      {
        OthersApart(mem, size, fs, chains, 0, 0, b - at, m + 1);
      }
      Untouched(next, size, fs[1..], chains[1..], at, n);
    } else {
      Elsewhere(mem, size, fs, chains, i);
      SegmentSum(next, size, fs[1..], chains[1..], i - 1);
    }
  }

  lemma InsideAt(cells: seq<nat>, width: nat, n: nat, j: nat)
    requires Inside(cells, width, n) && j < |cells|
    ensures cells[j] + width <= n
  {
  }

  lemma AppliedAt(mem: seq<byte>, f: Fixup, cells: seq<nat>, j: nat, k: nat)
    requires f.Valid() && f.target.Some? && !f.additive
    requires Inside(cells, Width(f), |mem|) && Apart(cells, Span(Width(f)))
    requires j < |cells| && k < Width(f)
    ensures cells[j] + k < |mem| && Applied(mem, f, cells)[cells[j] + k] == Patch(f.srctype, f.target.value)[k]
  {
    hide Patch, Patched;
    PatchedAt(mem, cells, Patch(f.srctype, f.target.value), j, k);
  }

  lemma OthersApart(mem: seq<byte>, size: nat, fs: seq<Fixup>, chains: seq<seq<nat>>, i: nat, j: nat, k: nat, m: nat)
    requires AllUse(mem, size, fs, chains) && i < m < |fs| && j < |chains[i]| && k < Width(fs[i])
    ensures !Under(chains[m], Width(fs[m]), chains[i][j] + k)
  {
  }

  // What the fields hold afterwards, in terms of the target alone.

  /** The field at `at` is the part of the target that the source type asks for. */
  predicate HoldsTarget(m: seq<byte>, at: nat, srctype: byte, target: int) {
    match srctype % 0x10
    case 0 => at < |m| && m[at] as int == target % 0x100
    case 2 => at + 2 <= |m| && U16(m[at..]) == target / TWO16
    case 3 => at + 4 <= |m| && U16(m[at..]) == target % TWO16 && U16(m[at + 2..]) == target / TWO16
    case 5 => at + 2 <= |m| && U16(m[at..]) == target % TWO16
    case _ => true
  }

  /** The field at `at` has had that part added to it. */
  predicate GainsTarget(was: seq<byte>, m: seq<byte>, at: nat, srctype: byte, target: int)
    requires |was| == |m|
  {
    match srctype % 0x10
    case 0 => at < |m| && m[at] as int == (was[at] as int + target) % 0x100
    case 2 => at + 2 <= |m| && U16(m[at..]) == (U16(was[at..]) + target / TWO16) % TWO16
    case 3 =>
      && at + 4 <= |m|
      && U16(m[at..]) == (U16(was[at..]) + target) % TWO16
      && U16(m[at + 2..]) == (U16(was[at + 2..]) + target / TWO16) % TWO16
    case 5 => at + 2 <= |m| && U16(m[at..]) == (U16(was[at..]) + target) % TWO16
    case _ => true
  }

  lemma PatchHolds(m: seq<byte>, at: nat, srctype: byte, target: int)
    requires 0 <= target < TWO32 && at + |Patch(srctype, target)| <= |m|
    requires m[at..at + |Patch(srctype, target)|] == Patch(srctype, target)
    ensures HoldsTarget(m, at, srctype, target)
  {
    hide Le16;
    var p := Patch(srctype, target);
    if |p| >= 2 {
      WordAt(m, at, |p|);
    }
    if srctype % 0x10 == 3 {
      WordFront(Le16(target % TWO16), Le16(target / TWO16));
      WordAt(m, at + 2, 2);
      assert m[at + 2..at + 4] == p[2..] == Le16(target / TWO16);
    } else if srctype % 0x10 == 0 {
      assert m[at] == p[0];
    }
  }

  lemma SumGains(was: seq<byte>, m: seq<byte>, at: nat, srctype: byte, target: int)
    requires 0 <= target < TWO32 && at + |Patch(srctype, target)| <= |m| == |was|
    requires var n := |Patch(srctype, target)|; IsSum(was[at..at + n], m[at..at + n], srctype, target)
    ensures GainsTarget(was, m, at, srctype, target)
  {
    var n := |Patch(srctype, target)|;
    if n >= 2 {
      WordAt(was, at, n);
      WordAt(m, at, n);
    }
    if srctype % 0x10 == 3 {
      WordAt(was, at + 2, 2);
      WordAt(m, at + 2, 2);
      assert was[at..at + 4][2..] == was[at + 2..at + 4] && m[at..at + 4][2..] == m[at + 2..at + 4];
    }
  }

  lemma CellFacts(mem: seq<byte>, size: nat, fs: seq<Fixup>, chains: seq<seq<nat>>, i: nat, j: nat)
    requires AllUse(mem, size, fs, chains) && i < |fs| && fs[i].target.Some? && j < |chains[i]|
    ensures Ready(fs, chains, |mem|) && fs[i].Valid()
    ensures chains[i][j] + |Patch(fs[i].srctype, fs[i].target.value)| <= |mem|
  {
    AllReady(mem, size, fs, chains);
    UsesFacts(mem, size, fs[i], chains[i]);
    InsideAt(chains[i], Width(fs[i]), |mem|, j);
    hide Patch;
  }

  /** Every cell of a fixup that does not add holds its target, whatever the other fixups do. */
  lemma CellHolds(mem: seq<byte>, size: nat, fs: seq<Fixup>, chains: seq<seq<nat>>, i: nat, j: nat)
    requires AllUse(mem, size, fs, chains) && i < |fs| && fs[i].target.Some? && !fs[i].additive && j < |chains[i]|
    ensures Ready(fs, chains, |mem|)
    ensures HoldsTarget(ApplyAll(mem, fs, chains), chains[i][j], fs[i].srctype, fs[i].target.value)
  {
    CellFacts(mem, size, fs, chains, i, j);
    hide AllUse, Uses, Ready, ApplyAll, Patch, HoldsTarget;
    var m, c, p := ApplyAll(mem, fs, chains), chains[i][j], Patch(fs[i].srctype, fs[i].target.value);
    forall k | 0 <= k < |p|
      ensures m[c + k] == p[k]
    {
      SegmentAt(mem, size, fs, chains, i, j, k);
    }
    SliceIs(m, c, p);
    PatchHolds(m, c, fs[i].srctype, fs[i].target.value);
  }

  lemma SliceIs(m: seq<byte>, c: nat, p: seq<byte>)
    requires c + |p| <= |m| && forall k :: 0 <= k < |p| ==> m[c + k] == p[k]
    ensures m[c..c + |p|] == p
  {
  }

  lemma FieldGains(mem: seq<byte>, size: nat, fs: seq<Fixup>, chains: seq<seq<nat>>, i: nat)
    requires AllUse(mem, size, fs, chains) && i < |fs| && fs[i].target.Some? && fs[i].additive
    ensures Ready(fs, chains, |mem|) && fs[i].Valid()
    ensures GainsTarget(mem, ApplyAll(mem, fs, chains), fs[i].offset, fs[i].srctype, fs[i].target.value)
  {
    SegmentSum(mem, size, fs, chains, i);
    hide AllUse, ApplyAll, GainsTarget, IsSum, Patch;
    SumGains(mem, ApplyAll(mem, fs, chains), fs[i].offset, fs[i].srctype, fs[i].target.value);
  }

  /** Record `i`'s fields are as it asks. */
  ghost predicate RecordDone(was: seq<byte>, m: seq<byte>, f: Fixup, cells: seq<nat>)
    requires |was| == |m| && f.Valid()
  {
    && (f.target.Some? && f.additive ==> GainsTarget(was, m, f.offset, f.srctype, f.target.value))
    && (f.target.Some? && !f.additive ==>
          forall j :: 0 <= j < |cells| ==> HoldsTarget(m, cells[j], f.srctype, f.target.value))
  }

  /** Byte `b` lies in one of the fields. */
  ghost predicate Covered(fs: seq<Fixup>, chains: seq<seq<nat>>, n: nat, b: nat)
    requires Ready(fs, chains, n)
  {
    exists i :: 0 <= i < |fs| && Under(chains[i], Width(fs[i]), b)
  }

  /** Every field of a segment is as its own record asks, and nothing else has changed. */
  ghost predicate SegmentDone(was: seq<byte>, m: seq<byte>, fs: seq<Fixup>, chains: seq<seq<nat>>)
    requires |was| == |m| && Ready(fs, chains, |m|)
  {
    && (forall i :: 0 <= i < |fs| ==> RecordDone(was, m, fs[i], chains[i]))
    && (forall b :: 0 <= b < |m| && !Covered(fs, chains, |m|, b) ==> m[b] == was[b])
  }

  lemma RecordIsDone(mem: seq<byte>, size: nat, fs: seq<Fixup>, chains: seq<seq<nat>>, i: nat)
    requires AllUse(mem, size, fs, chains) && i < |fs|
    ensures Ready(fs, chains, |mem|) && RecordDone(mem, ApplyAll(mem, fs, chains), fs[i], chains[i])
  {
    AllReady(mem, size, fs, chains);
    hide AllUse, Uses, ApplyAll, HoldsTarget, GainsTarget;
    if fs[i].target.Some? && fs[i].additive {
      FieldGains(mem, size, fs, chains, i);
    } else if fs[i].target.Some? {
      forall j | 0 <= j < |chains[i]|
        ensures HoldsTarget(ApplyAll(mem, fs, chains), chains[i][j], fs[i].srctype, fs[i].target.value)
      {
        CellHolds(mem, size, fs, chains, i, j);
      }
    }
  }

  lemma SegmentIsDone(mem: seq<byte>, size: nat, fs: seq<Fixup>, chains: seq<seq<nat>>)
    requires AllUse(mem, size, fs, chains)
    ensures Ready(fs, chains, |mem|) && SegmentDone(mem, ApplyAll(mem, fs, chains), fs, chains)
  {
    AllReady(mem, size, fs, chains);
    hide AllUse, ApplyAll, RecordDone, Under;
    forall i | 0 <= i < |fs|
      ensures RecordDone(mem, ApplyAll(mem, fs, chains), fs[i], chains[i])
    {
      RecordIsDone(mem, size, fs, chains, i);
    }
    forall b | 0 <= b < |mem| && !Covered(fs, chains, |mem|, b)
      ensures ApplyAll(mem, fs, chains)[b] == mem[b]
    {
      SegmentElsewhere(mem, size, fs, chains, b);
    }
  }
}
