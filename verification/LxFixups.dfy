/** LX relocation: the fixup record stream of a page. */
module LxFixups {
  import opened Base

  type uint32 = x: int | 0 <= x < 0x1_0000_0000
  type uint16 = x: int | 0 <= x < 0x1_0000
  type sint16 = x: int | -0x8000 <= x < 0x8000

  // Fields of 0, 1, 2 or 4 bytes.

  function Bound(n: nat): nat {
    if n == 0 then 1 else if n == 1 then 0x100 else if n == 2 then TWO16 else TWO32
  }

  function Field(v: nat, n: nat): (s: seq<byte>)
    requires n in {0, 1, 2, 4} && v < Bound(n)
    ensures |s| == n
  {
    if n == 0 then [] else if n == 1 then [v] else if n == 2 then Le16(v) else Le32(v)
  }

  function ReadField(s: seq<byte>, n: nat): (v: nat)
    requires n in {0, 1, 2, 4} && n <= |s|
    ensures v < Bound(n)
  {
    if n == 0 then 0 else if n == 1 then s[0] else if n == 2 then U16(s) else U32(s)
  }

  lemma ReadBack(v: nat, n: nat, rest: seq<byte>)
    requires n in {0, 1, 2, 4} && v < Bound(n)
    ensures ReadField(Field(v, n) + rest, n) == v && (Field(v, n) + rest)[n..] == rest
  {
  }

  function Signed(v: uint16): sint16 {
    if v < 0x8000 then v else v - TWO16
  }

  function Unsigned(v: sint16): uint16 {
    if v < 0 then v + TWO16 else v
  }

  // Records.

  predicate Bit(b: byte, mask: int)
    requires mask > 0
  {
    (b / mask) % 2 == 1
  }

  /** `id` is the object or module ordinal, `operand` the target offset, import ordinal or name offset. */
  datatype Record = Record(srctype: byte, flags: byte, sources: seq<sint16>, id: nat, operand: nat, additive: nat) {
    function Kind(): int {
      srctype % 0x10
    }

    predicate Listed() {
      Bit(srctype, 0x20)
    }

    function Target(): int {
      flags % 4
    }
  }

  function IdWidth(flags: byte): (n: nat)
    ensures n in {0, 1, 2, 4}
  {
    if Bit(flags, 0x40) then 2 else 1
  }

  function OperandWidth(srctype: byte, flags: byte): (n: nat)
    ensures n in {0, 1, 2, 4}
  {
    if flags % 4 == 0 && srctype % 0x10 == 2 then 0
    else if flags % 4 == 1 && Bit(flags, 0x80) then 1
    else if Bit(flags, 0x10) then 4
    else 2
  }

  function AdditiveWidth(flags: byte): (n: nat)
    ensures n in {0, 1, 2, 4}
  {
    if !Bit(flags, 4) then 0 else if Bit(flags, 0x20) then 4 else 2
  }

  predicate Valid(r: Record) {
    && r.Target() != 3
    && (if r.Listed() then |r.sources| < 0x100 else |r.sources| == 1)
    && r.id < Bound(IdWidth(r.flags)) && r.operand < Bound(OperandWidth(r.srctype, r.flags))
    && r.additive < Bound(AdditiveWidth(r.flags))
  }

  function Offsets(os: seq<sint16>): (s: seq<byte>)
    ensures |s| == 2 * |os|
  {
    if os == [] then [] else Le16(Unsigned(os[0])) + Offsets(os[1..])
  }

  /** Source type, flags, a source count or offset, target, additive, source list. */
  function Serial(r: Record): (s: seq<byte>)
    requires Valid(r)
  {
    [r.srctype, r.flags] + (if r.Listed() then [|r.sources|] else Le16(Unsigned(r.sources[0])))
    + Field(r.id, IdWidth(r.flags)) + Field(r.operand, OperandWidth(r.srctype, r.flags))
    + Field(r.additive, AdditiveWidth(r.flags)) + (if r.Listed() then Offsets(r.sources) else [])
  }

  predicate AllValid(rs: seq<Record>) {
    forall i :: 0 <= i < |rs| ==> Valid(rs[i])
  }

  function SerialAll(rs: seq<Record>): seq<byte>
    requires AllValid(rs)
  {
    if rs == [] then [] else Serial(rs[0]) + SerialAll(rs[1..])
  }

  // What a record means.

  datatype Mmap = Mmap(addr: uint32, alias: uint16)
  datatype Export = Export(addr: uint32, obj: Option<Mmap>)

  /** The module being loaded: its objects, how its imports resolve, where the page lies. */
  datatype Env = Env(objects: seq<Mmap>, modules: nat, byOrdinal: (int, int, bool) -> Export,
                     byName: (int, int, bool) -> Export, cs: uint16, page: uint32)

  datatype Value = Abort | Value(v: uint32, v2: uint16)

  function Segment(alias: uint16): uint16 {
    (alias * 8 + 7) % TWO16
  }

  /** Bitwise or. */
  function Or(a: nat, b: nat): nat {
    if a == 0 then b
    else if b == 0 then a
    else 2 * Or(a / 2, b / 2) + if a % 2 == 1 || b % 2 == 1 then 1 else 0
  }

  /** `segment << 16 | offset`. */
  function FarPointer(segment: uint16, offset: uint32): uint32 {
    Or(segment, offset / TWO16) % TWO16 * TWO16 + offset % TWO16
  }

  /** What a record refers to: an address, or an offset in an object that has a 16:16 alias. */
  datatype Named = Flat(address: uint32) | Far(alias: uint16, offset: uint32)

  function ImportOf(target: int, id: nat, operand: nat, alias: bool, env: Env): Export {
    if id == 0 || id > env.modules then Export(0, None)
    else if target == 1 then env.byOrdinal(id, operand, alias)
    else env.byName(id, operand, alias)
  }

  /** A missing alias leaves an import's own address, but 0 for an object of this module. */
  function Names(srctype: byte, flags: byte, id: nat, operand: nat, env: Env): Named
    requires operand < TWO32 && (flags % 4 == 0 ==> 1 <= id <= |env.objects|)
  {
    var alias := Bit(srctype, 0x10);
    if flags % 4 == 0 then
      var obj := env.objects[id - 1];
      if !alias then Flat((obj.addr + operand) % TWO32)
      else if obj.alias == 0xFFFF then Flat(0)
      else Far(obj.alias, operand)
    else
      var e := ImportOf(flags % 4, id, operand, alias, env);
      if alias && e.obj.Some? && e.obj.value.alias != 0xFFFF then
        Far(e.obj.value.alias, (e.addr - e.obj.value.addr) % TWO32)
      else Flat(e.addr)
  }

  /** The value before any additive; only some kinds of field can take an alias. */
  function BaseValue(kind: int, named: Named, cs: uint16): Value {
    var v2 := if kind == 6 then cs else 0;
    match named
    case Flat(address) => Value(address, v2)
    case Far(alias, offset) =>
      match kind
      case 2 => Value(Segment(alias), v2)
      case 3 => Value(FarPointer(Segment(alias), offset), v2)
      case 6 => Value(offset, Segment(alias))
      case _ => Abort
  }

  function Width(kind: int): nat {
    match kind
    case 0 => 1
    case 2 => 2
    case 5 => 2
    case 3 => 4
    case 7 => 4
    case 8 => 4
    case 6 => 6
    case _ => 0
  }

  function Bytes(size: nat, v: uint32, v2: uint16): (s: seq<byte>)
    ensures size in {0, 1, 2, 4, 6} ==> |s| == size
  {
    match size
    case 1 => [v % 0x100]
    case 2 => Le16(v % TWO16)
    case 4 => Le32(v)
    case 6 => Le32(v) + Le16(v2)
    case _ => []
  }

  /** The bytes stored at one source offset. */
  function Stored(kind: int, v: uint32, v2: uint16, page: uint32, offset: sint16): (s: seq<byte>)
    ensures |s| == Width(kind)
  {
    Bytes(Width(kind), if kind == 8 then (v - (page + offset + 4)) % TWO32 else v, v2)
  }

  function Store(mem: seq<byte>, at: int, p: seq<byte>): (r: seq<byte>)
    requires 0 <= at && at + |p| <= |mem|
    ensures |r| == |mem|
  {
    mem[..at] + p + mem[at + |p|..]
  }

  /** Every source of a record lies in object memory, the page being at `at`. */
  predicate InRange(sources: seq<sint16>, kind: int, at: int, n: nat) {
    forall i :: 0 <= i < |sources| ==> 0 <= at + sources[i] && at + sources[i] + Width(kind) <= n
  }

  function StoreAll(mem: seq<byte>, at: int, sources: seq<sint16>, kind: int, v: uint32, v2: uint16, page: uint32)
    : (r: seq<byte>)
    requires InRange(sources, kind, at, |mem|)
    ensures |r| == |mem|
    decreases |sources|
  {
    if sources == [] then mem
    else
      var next := Store(mem, at + sources[0], Stored(kind, v, v2, page, sources[0]));
      StoreAll(next, at, sources[1..], kind, v, v2, page)
  }

  predicate Loadable(r: Record, env: Env, at: int, n: nat) {
    Valid(r) && (r.Target() == 0 ==> 1 <= r.id <= |env.objects|) && InRange(r.sources, r.Kind(), at, n)
  }

  /** Memory after one record; None where the loader gives up. */
  function Apply(mem: seq<byte>, r: Record, env: Env, at: int): (m: Option<seq<byte>>)
    requires Loadable(r, env, at, |mem|)
    ensures m.Some? ==> |m.value| == |mem|
  {
    match BaseValue(r.Kind(), Names(r.srctype, r.flags, r.id, r.operand, env), env.cs)
    case Abort => None
    case Value(v, v2) =>
      if Width(r.Kind()) == 0 && r.sources != [] then None
      else Some(StoreAll(mem, at, r.sources, r.Kind(), (v + r.additive) % TWO32, v2, env.page))
  }

  predicate AllLoadable(rs: seq<Record>, env: Env, at: int, n: nat) {
    forall i :: 0 <= i < |rs| ==> Loadable(rs[i], env, at, n)
  }

  function ApplyAll(mem: seq<byte>, rs: seq<Record>, env: Env, at: int): (m: Option<seq<byte>>)
    requires AllLoadable(rs, env, at, |mem|)
    ensures m.Some? ==> |m.value| == |mem|
    decreases |rs|
  {
    if rs == [] then Some(mem)
    else
      match Apply(mem, rs[0], env, at)
      case None => None
      case Some(next) => ApplyAll(next, rs[1..], env, at)
  }

  // The interpreter.

  function SourceField(r: Record): seq<byte>
    requires Valid(r)
  {
    if r.Listed() then [|r.sources|] else Le16(Unsigned(r.sources[0]))
  }

  function ListField(r: Record): seq<byte>
    requires Valid(r)
  {
    if r.Listed() then Offsets(r.sources) else []
  }

  lemma SerialFields(r: Record, rest: seq<byte>)
    requires Valid(r)
    ensures Serial(r) + rest ==
            [r.srctype, r.flags] + (SourceField(r) + (Field(r.id, IdWidth(r.flags))
            + (Field(r.operand, OperandWidth(r.srctype, r.flags)) + (Field(r.additive, AdditiveWidth(r.flags))
            + (ListField(r) + rest)))))
  {
    hide Field, Offsets, Le16;
  }

  method ReadId(stream: seq<byte>, flags: byte, ghost id: nat, ghost rest: seq<byte>)
    returns (moduleid: nat, fixup: seq<byte>)
    requires id < Bound(IdWidth(flags)) && stream == Field(id, IdWidth(flags)) + rest
    ensures moduleid == id && fixup == rest
  {
    ReadBack(id, IdWidth(flags), rest);
    hide Field, Bit, Le16;
    if Bit(flags, 0x40) {
      moduleid, fixup := U16(stream), stream[2..];
    } else {
      moduleid, fixup := stream[0], stream[1..];
    }
  }

  /** The target's offset, ordinal or name. */
  method ReadOperand(stream: seq<byte>, srctype: byte, flags: byte, ghost operand: nat, ghost rest: seq<byte>)
    returns (v: nat, fixup: seq<byte>)
    requires flags % 4 != 3 && operand < Bound(OperandWidth(srctype, flags))
    requires stream == Field(operand, OperandWidth(srctype, flags)) + rest
    ensures v == operand && fixup == rest
  {
    ReadBack(operand, OperandWidth(srctype, flags), rest);
    hide Field, Bit, Le16, Le32;
    v, fixup := 0, stream;
    match flags % 4 {
      case 0 =>
        if srctype % 0x10 != 2 {
          if Bit(flags, 0x10) {
            v, fixup := U32(stream), stream[4..];
          } else {
            v, fixup := U16(stream), stream[2..];
          }
        }
      case 1 =>
        if Bit(flags, 0x80) {
          v, fixup := stream[0], stream[1..];
        } else if Bit(flags, 0x10) {
          v, fixup := U32(stream), stream[4..];
        } else {
          v, fixup := U16(stream), stream[2..];
        }
      case _ =>
        if Bit(flags, 0x10) {
          v, fixup := U32(stream), stream[4..];
        } else {
          v, fixup := U16(stream), stream[2..];
        }
    }
  }

  method ReadAdditive(stream: seq<byte>, flags: byte, ghost additive: nat, ghost rest: seq<byte>)
    returns (v: nat, fixup: seq<byte>)
    requires additive < Bound(AdditiveWidth(flags)) && stream == Field(additive, AdditiveWidth(flags)) + rest
    ensures v == additive && fixup == rest
  {
    ReadBack(additive, AdditiveWidth(flags), rest);
    hide Field, Bit, Le16, Le32;
    v, fixup := 0, stream;
    if Bit(flags, 4) {
      if Bit(flags, 0x20) {
        v, fixup := U32(stream), stream[4..];
      } else {
        v, fixup := U16(stream), stream[2..];
      }
    }
  }

  /** The source count of a listed record, or the one source. */
  method ReadSource(stream: seq<byte>, srctype: byte, ghost r: Record, ghost rest: seq<byte>)
    returns (count: nat, srcoffset: sint16, fixup: seq<byte>)
    requires Valid(r) && srctype == r.srctype && stream == SourceField(r) + rest
    ensures r.Listed() ==> count == |r.sources|
    ensures !r.Listed() ==> r.sources == [srcoffset]
    ensures fixup == rest
  {
    hide Field, Unsigned, Signed, Le16, U16;
    count, srcoffset, fixup := 0, 0, stream;
    if Bit(srctype, 0x20) {
      count, fixup := fixup[0], fixup[1..];
    } else {
      OffsetBack(r.sources[0], rest);
      srcoffset, fixup := Signed(U16(fixup)), fixup[2..];
    }
  }

  /** Read the fixed part of a record off the stream. */
  method ReadRecord(stream: seq<byte>, ghost r: Record, ghost rest: seq<byte>)
    returns (srctype: byte, flags: byte, count: nat, srcoffset: sint16, id: nat, operand: nat, additive: nat,
             fixup: seq<byte>)
    requires Valid(r) && stream == Serial(r) + rest
    ensures srctype == r.srctype && flags == r.flags && id == r.id && operand == r.operand && additive == r.additive
    ensures r.Listed() ==> count == |r.sources| && fixup == Offsets(r.sources) + rest
    ensures !r.Listed() ==> r.sources == [srcoffset] && fixup == rest
  {
    SerialFields(r, rest);
    ValidFacts(r);
    hide Valid, Serial, Field, Offsets, SourceField, IdWidth, OperandWidth, AdditiveWidth, Bound;
    ghost var t4 := ListField(r) + rest;
    ghost var t3 := Field(r.additive, AdditiveWidth(r.flags)) + t4;
    ghost var t2 := Field(r.operand, OperandWidth(r.srctype, r.flags)) + t3;
    ghost var t1 := Field(r.id, IdWidth(r.flags)) + t2;
    srctype, flags := stream[0], stream[1];
    fixup := stream[2..];
    assert fixup == SourceField(r) + t1;
    count, srcoffset, fixup := ReadSource(fixup, srctype, r, t1);
    id, fixup := ReadId(fixup, flags, r.id, t2);
    operand, fixup := ReadOperand(fixup, srctype, flags, r.operand, t3);
    additive, fixup := ReadAdditive(fixup, flags, r.additive, t4);
    assert [] + rest == rest;
  }

  lemma ValidFacts(r: Record)
    requires Valid(r)
    ensures r.flags % 4 != 3
    ensures r.id < Bound(IdWidth(r.flags)) && r.operand < Bound(OperandWidth(r.srctype, r.flags))
    ensures r.additive < Bound(AdditiveWidth(r.flags))
  {
  }

  lemma OffsetBack(o: sint16, rest: seq<byte>)
    ensures var s := Le16(Unsigned(o)) + rest;
            Signed(U16(s)) == o && s[2..] == rest
  {
  }

  lemma LoadableFacts(r: Record, env: Env, at: int, n: nat)
    requires Loadable(r, env, at, n)
    ensures Valid(r) && r.operand < TWO32 && r.additive < TWO32 && InRange(r.sources, r.Kind(), at, n)
    ensures r.flags % 4 != 3 && (r.flags % 4 == 0 ==> 1 <= r.id <= |env.objects|)
    ensures !r.Listed() ==> |r.sources| == 1 && 0 <= at + r.sources[0] && at + r.sources[0] + Width(r.Kind()) <= n
  {
  }

  /** doFixup. */
  method DoFixup(dst: array<byte>, at: int, finalval: uint32, finalval2: uint16, finalsize: nat) returns (ok: bool)
    requires 0 <= at && at + finalsize <= dst.Length
    modifies dst
    ensures ok <==> finalsize in {1, 2, 4, 6}
    ensures ok ==> dst[..] == Store(old(dst[..]), at, Bytes(finalsize, finalval, finalval2))
    ensures !ok ==> dst[..] == old(dst[..])
  {
    ok := true;
    match finalsize {
      case 1 =>
        dst[at] := finalval % 0x100;
      case 2 =>
        Put16(dst, at, finalval % TWO16);
      case 4 =>
        Put32(dst, at, finalval);
      case 6 =>
        Put32(dst, at, finalval);
        ghost var mid := dst[..];
        Put16(dst, at + 4, finalval2);
        StoreTwice(old(dst[..]), at, Le32(finalval), Le16(finalval2));
      case _ =>
        ok := false;
    }
  }

  method Put16(dst: array<byte>, at: nat, v: uint16)
    requires at + 2 <= dst.Length
    modifies dst
    ensures dst[..] == Store(old(dst[..]), at, Le16(v))
  {
    dst[at], dst[at + 1] := v % 0x100, v / 0x100;
  }

  method Put32(dst: array<byte>, at: nat, v: uint32)
    requires at + 4 <= dst.Length
    modifies dst
    ensures dst[..] == Store(old(dst[..]), at, Le32(v))
  {
    var lo, hi := v % TWO16, v / TWO16;
    dst[at], dst[at + 1], dst[at + 2], dst[at + 3] := lo % 0x100, lo / 0x100, hi % 0x100, hi / 0x100;
    assert Le32(v) == [lo % 0x100, lo / 0x100, hi % 0x100, hi / 0x100];
  }

  lemma StoreTwice(mem: seq<byte>, at: nat, p: seq<byte>, q: seq<byte>)
    requires at + |p| + |q| <= |mem|
    ensures Store(Store(mem, at, p), at + |p|, q) == Store(mem, at, p + q)
  {
  }

  /** One source: a self-relative field takes the distance from its end. */
  method FixSource(dst: array<byte>, at: int, offset: sint16, kind: int, finalval: uint32, finalval2: uint16,
                   finalsize: nat, page: uint32) returns (ok: bool)
    requires finalsize == Width(kind) && 0 <= at + offset && at + offset + finalsize <= dst.Length
    modifies dst
    ensures ok <==> Width(kind) != 0
    ensures ok ==> dst[..] == Store(old(dst[..]), at + offset, Stored(kind, finalval, finalval2, page, offset))
    ensures !ok ==> dst[..] == old(dst[..])
  {
    hide Store, Le32, Le16;
    if kind == 8 {
      ok := DoFixup(dst, at + offset, (finalval - (page + offset + 4)) % TWO32, 0, finalsize);
    } else {
      ok := DoFixup(dst, at + offset, finalval, finalval2, finalsize);
    }
  }

  /** The source list of a record: one store per offset. */
  method FixSources(dst: array<byte>, at: int, stream: seq<byte>, count: nat, kind: int, v: uint32, v2: uint16,
                    finalsize: nat, page: uint32, ghost sources: seq<sint16>, ghost rest: seq<byte>)
    returns (ok: bool, fixup: seq<byte>)
    requires stream == Offsets(sources) + rest && count == |sources| && InRange(sources, kind, at, dst.Length)
    requires finalsize == Width(kind)
    modifies dst
    ensures ok <==> Width(kind) != 0 || sources == []
    ensures ok ==> fixup == rest
    ensures ok ==> dst[..] == StoreAll(old(dst[..]), at, sources, kind, v, v2, page)
  {
    hide Stored, Store, Width;
    ok, fixup := true, stream;
    ghost var left := sources;
    var i := 0;
    while i < count
      invariant 0 <= i <= count && |left| == count - i && fixup == Offsets(left) + rest
      invariant InRange(left, kind, at, dst.Length) && (i > 0 ==> Width(kind) != 0)
      invariant StoreAll(dst[..], at, left, kind, v, v2, page) == StoreAll(old(dst[..]), at, sources, kind, v, v2, page)
    {
      assert fixup == Le16(Unsigned(left[0])) + (Offsets(left[1..]) + rest);
      OffsetBack(left[0], Offsets(left[1..]) + rest);
      var offset := Signed(U16(fixup));
      fixup := fixup[2..];
      ok := FixSource(dst, at, offset, kind, v, v2, finalsize, page);
      if !ok {
        return;
      }
      left := left[1..];
      i := i + 1;
    }
  }

  /** The switch on the source type. */
  method SourceType(srctype: byte, cs: uint16) returns (finalsize: nat, finalval2: uint16)
    ensures finalsize == Width(srctype % 0x10) && finalval2 == if srctype % 0x10 == 6 then cs else 0
  {
    finalsize, finalval2 := 0, 0;
    match srctype % 0x10 {
      case 0 =>
        finalsize := 1;
      case 2 =>
        finalsize := 2;
      case 5 =>
        finalsize := 2;
      case 3 =>
        finalsize := 4;
      case 7 =>
        finalsize := 4;
      case 8 =>
        finalsize := 4;
      case 6 =>
        finalval2 := cs;
        finalsize := 6;
      case _ =>
    }
  }

  /** An internal fixup: an object of the module being loaded. */
  method InternalTarget(srctype: byte, objectid: nat, targetoffset: uint32, env: Env, v2: uint16)
    returns (ok: bool, finalval: uint32, finalval2: uint16)
    requires 1 <= objectid <= |env.objects| && v2 == if srctype % 0x10 == 6 then env.cs else 0
    ensures var b := BaseValue(srctype % 0x10, Names(srctype, 0, objectid, targetoffset, env), env.cs);
            (ok <==> b.Value?) && (ok ==> b == Value(finalval, finalval2))
  {
    hide Bit, FarPointer, Segment;
    ok, finalval, finalval2 := true, 0, v2;
    if !Bit(srctype, 0x10) {
      var base := env.objects[objectid - 1].addr;
      finalval := (base + targetoffset) % TWO32;
    } else if env.objects[objectid - 1].alias != 0xFFFF {
      var segment := Segment(env.objects[objectid - 1].alias);
      match srctype % 0x10 {
        case 2 =>
          finalval := segment;
        case 3 =>
          finalval := FarPointer(segment, targetoffset);
        case 6 =>
          finalval, finalval2 := targetoffset, segment;
        case _ =>
          ok := false;
      }
    }
  }

  /** An import, by ordinal or by name. */
  method ImportTarget(srctype: byte, flags: byte, moduleid: nat, importid: uint32, env: Env, v2: uint16)
    returns (ok: bool, finalval: uint32, finalval2: uint16)
    requires flags % 4 == 1 || flags % 4 == 2
    requires v2 == if srctype % 0x10 == 6 then env.cs else 0
    ensures var b := BaseValue(srctype % 0x10, Names(srctype, flags, moduleid, importid, env), env.cs);
            (ok <==> b.Value?) && (ok ==> b == Value(finalval, finalval2))
  {
    hide Bit, FarPointer, Segment;
    ok, finalval, finalval2 := true, 0, v2;
    var fixupToAlias := Bit(srctype, 0x10);
    var obj: Option<Mmap> := None;
    if 0 < moduleid <= env.modules {
      var lxexp := if flags % 4 == 1 then env.byOrdinal(moduleid, importid, fixupToAlias)
                   else env.byName(moduleid, importid, fixupToAlias);
      finalval, obj := lxexp.addr, lxexp.obj;
    }
    if fixupToAlias && obj.Some? && obj.value.alias != 0xFFFF {
      var segment := Segment(obj.value.alias);
      match srctype % 0x10 {
        case 2 =>
          finalval := segment;
        case 3 =>
          finalval := FarPointer(segment, (finalval - obj.value.addr) % TWO32);
        case 6 =>
          finalval := (finalval - obj.value.addr) % TWO32;
          finalval2 := segment;
        case _ =>
          ok := false;
      }
    }
  }

  lemma NamesInternal(srctype: byte, flags: byte, id: nat, operand: uint32, env: Env)
    requires flags % 4 == 0 && 1 <= id <= |env.objects|
    ensures Names(srctype, flags, id, operand, env) == Names(srctype, 0, id, operand, env)
  {
  }

  /** One record: read it, work out its value, store it at each source. */
  method FixRecord(dst: array<byte>, at: int, stream: seq<byte>, env: Env, ghost r: Record, ghost rest: seq<byte>)
    returns (ok: bool, fixup: seq<byte>)
    requires Loadable(r, env, at, dst.Length) && Valid(r) && stream == Serial(r) + rest
    modifies dst
    ensures ok <==> Apply(old(dst[..]), r, env, at).Some?
    ensures ok ==> dst[..] == Apply(old(dst[..]), r, env, at).value && fixup == rest
  {
    LoadableFacts(r, env, at, dst.Length);
    ghost var before := dst[..];
    hide Loadable, StoreAll, BaseValue, Names, Serial, Valid, InRange, Stored, Store, Offsets, Width, Segment;
    var srctype, flags, count, srcoffset, id, operand, additive;
    srctype, flags, count, srcoffset, id, operand, additive, fixup := ReadRecord(stream, r, rest);
    var kind := srctype % 0x10;
    var finalsize, finalval2 := SourceType(srctype, env.cs);
    var finalval: uint32;
    if flags % 4 == 0 {
      NamesInternal(srctype, flags, id, operand, env);
      ok, finalval, finalval2 := InternalTarget(srctype, id, operand, env, finalval2);
    } else {
      ok, finalval, finalval2 := ImportTarget(srctype, flags, id, operand, env, finalval2);
    }
    if !ok {
      return;
    }
    finalval := (finalval + additive) % TWO32;
    ok, fixup := FixFields(dst, at, fixup, srctype, count, srcoffset, finalval, finalval2, finalsize, env.page, r,
      rest);
  }

  /** The listed sources, or the one source. */
  method FixFields(dst: array<byte>, at: int, stream: seq<byte>, srctype: byte, count: nat, srcoffset: sint16,
                   finalval: uint32, finalval2: uint16, finalsize: nat, page: uint32, ghost r: Record,
                   ghost rest: seq<byte>)
    returns (ok: bool, fixup: seq<byte>)
    requires srctype == r.srctype && InRange(r.sources, r.Kind(), at, dst.Length) && finalsize == Width(r.Kind())
    requires r.Listed() ==> count == |r.sources| && stream == Offsets(r.sources) + rest
    requires !r.Listed() ==> r.sources == [srcoffset] && stream == rest
    modifies dst
    ensures ok <==> Width(r.Kind()) != 0 || r.sources == []
    ensures ok ==> fixup == rest
    ensures ok ==> dst[..] == StoreAll(old(dst[..]), at, r.sources, r.Kind(), finalval, finalval2, page)
  {
    hide StoreAll, Stored, Store, Offsets, Width;
    var kind := srctype % 0x10;
    fixup := stream;
    if Bit(srctype, 0x20) {
      ok, fixup := FixSources(dst, at, fixup, count, kind, finalval, finalval2, finalsize, page, r.sources, rest);
    } else {
      StoreOne(dst[..], at, srcoffset, kind, finalval, finalval2, page);
      ok := FixSource(dst, at, srcoffset, kind, finalval, finalval2, finalsize, page);
    }
  }

  lemma StoreOne(mem: seq<byte>, at: int, o: sint16, kind: int, v: uint32, v2: uint16, page: uint32)
    requires InRange([o], kind, at, |mem|)
    ensures 0 <= at + o && at + o + Width(kind) <= |mem|
    ensures StoreAll(mem, at, [o], kind, v, v2, page) == Store(mem, at + o, Stored(kind, v, v2, page, o))
  {
    assert [o][0] == o && [o][1..] == [];
    hide Stored, Store;
  }

  /** fixupPage: interpret a page's records, the page starting at `at` in the object's memory. */
  method FixupPage(dst: array<byte>, at: int, stream: seq<byte>, env: Env, ghost rs: seq<Record>) returns (ok: bool)
    requires AllLoadable(rs, env, at, dst.Length) && AllValid(rs) && stream == SerialAll(rs)
    modifies dst
    ensures ok <==> AllSupported(rs, env, at, dst.Length)
    ensures ok <==> ApplyAll(old(dst[..]), rs, env, at).Some?
    ensures ok ==> dst[..] == ApplyAll(old(dst[..]), rs, env, at).value
    ensures ok && AllApart(rs, at) ==> PageRight(old(dst[..]), dst[..], rs, env, at)
  {
    PageFinal(dst[..], rs, env, at);
    hide Loadable, Apply, Serial, Valid, AllSupported, AllApart, PageRight;
    var fixup := stream;
    ghost var left := rs;
    while |fixup| > 0
      invariant AllValid(left) && AllLoadable(left, env, at, dst.Length) && fixup == SerialAll(left)
      invariant ApplyAll(dst[..], left, env, at) == ApplyAll(old(dst[..]), rs, env, at)
      decreases |left|
    {
      ok, fixup := FixRecord(dst, at, fixup, env, left[0], SerialAll(left[1..]));
      if !ok {
        return;
      }
      left := left[1..];
    }
    SerialNonempty(left);
    return true;
  }

  lemma PageFinal(mem: seq<byte>, rs: seq<Record>, env: Env, at: int)
    requires AllLoadable(rs, env, at, |mem|)
    ensures ApplyAll(mem, rs, env, at).Some? <==> AllSupported(rs, env, at, |mem|)
    ensures ApplyAll(mem, rs, env, at).Some? && AllApart(rs, at) ==>
              PageRight(mem, ApplyAll(mem, rs, env, at).value, rs, env, at)
  {
    PageSucceeds(mem, rs, env, at);
    hide *;
    if ApplyAll(mem, rs, env, at).Some? && AllApart(rs, at) {
      PageIsRight(mem, rs, env, at);
    }
  }

  lemma SerialNonempty(rs: seq<Record>)
    requires AllValid(rs)
    ensures SerialAll(rs) == [] ==> rs == []
  {
  }

  // Consequences.

  lemma FieldFront(v: nat, w: nat, n: nat, x: seq<byte>, y: seq<byte>)
    requires n in {0, 1, 2, 4} && v < Bound(n) && w < Bound(n) && Field(v, n) + x == Field(w, n) + y
    ensures v == w && x == y
  {
    ReadBack(v, n, x);
    ReadBack(w, n, y);
  }

  lemma {:induction false} OffsetsFront(a: seq<sint16>, b: seq<sint16>, x: seq<byte>, y: seq<byte>)
    requires |a| == |b| && Offsets(a) + x == Offsets(b) + y
    ensures a == b && x == y
    decreases |a|
  {
    if a != [] {
      var s, t := Offsets(a[1..]) + x, Offsets(b[1..]) + y;
      assert Offsets(a) + x == Le16(Unsigned(a[0])) + s && Offsets(b) + y == Le16(Unsigned(b[0])) + t;
      OffsetBack(a[0], s);
      OffsetBack(b[0], t);
      OffsetsFront(a[1..], b[1..], x, y);
      assert a == [a[0]] + a[1..] && b == [b[0]] + b[1..];
    } else {
      assert [] + x == x && [] + y == y;
    }
  }

  lemma SourceFront(a: Record, b: Record, x: seq<byte>, y: seq<byte>)
    requires Valid(a) && Valid(b) && a.srctype == b.srctype && SourceField(a) + x == SourceField(b) + y
    ensures x == y && |a.sources| == |b.sources| && (!a.Listed() ==> a.sources == b.sources)
  {
    hide Le16, U16, Unsigned, Signed;
    if a.Listed() {
      assert (SourceField(a) + x)[0] == |a.sources| && (SourceField(b) + y)[0] == |b.sources|;
      assert (SourceField(a) + x)[1..] == x && (SourceField(b) + y)[1..] == y;
    } else {
      OffsetBack(a.sources[0], x);
      OffsetBack(b.sources[0], y);
    }
  }

  /** The record at the front of a stream, and what follows it, can be read in one way only. */
  lemma RecordFront(a: Record, b: Record, x: seq<byte>, y: seq<byte>)
    requires Valid(a) && Valid(b) && Serial(a) + x == Serial(b) + y
    ensures a == b && x == y
  {
    SerialFields(a, x);
    SerialFields(b, y);
    hide Serial, Field, Offsets, Bit, SourceField;
    var a4, b4 := ListField(a) + x, ListField(b) + y;
    var a3, b3 := Field(a.additive, AdditiveWidth(a.flags)) + a4, Field(b.additive, AdditiveWidth(b.flags)) + b4;
    var a2 := Field(a.operand, OperandWidth(a.srctype, a.flags)) + a3;
    var b2 := Field(b.operand, OperandWidth(b.srctype, b.flags)) + b3;
    var a1, b1 := Field(a.id, IdWidth(a.flags)) + a2, Field(b.id, IdWidth(b.flags)) + b2;
    var s := Serial(a) + x;
    assert s[0] == a.srctype && s[1] == a.flags && s[2..] == SourceField(a) + a1;
    assert s[0] == b.srctype && s[1] == b.flags && s[2..] == SourceField(b) + b1;
    SourceFront(a, b, a1, b1);
    FieldFront(a.id, b.id, IdWidth(a.flags), a2, b2);
    FieldFront(a.operand, b.operand, OperandWidth(a.srctype, a.flags), a3, b3);
    FieldFront(a.additive, b.additive, AdditiveWidth(a.flags), a4, b4);
    if a.Listed() {
      OffsetsFront(a.sources, b.sources, x, y);
    } else {
      assert [] + x == x && [] + y == y;
    }
  }

  /** A whole stream has one reading as a record list. */
  lemma {:induction false} StreamUnique(a: seq<Record>, b: seq<Record>)
    requires AllValid(a) && AllValid(b) && SerialAll(a) == SerialAll(b)
    ensures a == b
    decreases |a|
  {
    SerialNonempty(a);
    SerialNonempty(b);
    hide Serial, Valid;
    if a != [] && b != [] {
      RecordFront(a[0], b[0], SerialAll(a[1..]), SerialAll(b[1..]));
      StreamUnique(a[1..], b[1..]);
    }
  }

  // What a page's bytes mean afterwards.

  /** Byte `x` of object memory lies in one of the fields. */
  ghost predicate Under(sources: seq<sint16>, kind: int, at: int, x: int) {
    exists k :: 0 <= k < |sources| && Covers(sources[k], kind, at, x)
  }

  predicate Covers(source: sint16, kind: int, at: int, x: int) {
    at + source <= x < at + source + Width(kind)
  }

  /** No two fields of a record overlap. */
  predicate Apart(sources: seq<sint16>, kind: int) {
    forall k, l :: 0 <= k < l < |sources| ==> Disjoint(sources[k], sources[l], Width(kind))
  }

  predicate Disjoint(a: sint16, b: sint16, n: nat) {
    a + n <= b || b + n <= a
  }

  ghost predicate UnderSome(rs: seq<Record>, at: int, x: int) {
    exists i :: 0 <= i < |rs| && Under(rs[i].sources, rs[i].Kind(), at, x)
  }

  /** No two fields of a page overlap. */
  ghost predicate AllApart(rs: seq<Record>, at: int) {
    && (forall i :: 0 <= i < |rs| ==> Apart(rs[i].sources, rs[i].Kind()))
    && (forall i, j, x :: 0 <= i < j < |rs| && Under(rs[i].sources, rs[i].Kind(), at, x) ==>
          !Under(rs[j].sources, rs[j].Kind(), at, x))
  }

  lemma StoreByte(mem: seq<byte>, at: int, p: seq<byte>, x: int)
    requires 0 <= at && at + |p| <= |mem| && 0 <= x < |mem|
    ensures Store(mem, at, p)[x] == if at <= x < at + |p| then p[x - at] else mem[x]
  {
  }

  lemma {:induction false} StoreElsewhere(mem: seq<byte>, at: int, sources: seq<sint16>, kind: int, v: uint32,
                                          v2: uint16, page: uint32, x: int)
    requires InRange(sources, kind, at, |mem|) && 0 <= x < |mem| && !Under(sources, kind, at, x)
    ensures StoreAll(mem, at, sources, kind, v, v2, page)[x] == mem[x]
    decreases |sources|
  {
    if sources != [] {
      var p := Stored(kind, v, v2, page, sources[0]);
      var next := Store(mem, at + sources[0], p);
      assert !Covers(sources[0], kind, at, x);
      StoreByte(mem, at + sources[0], p, x);
      hide Store, Stored, Width;
      RestRange(sources, kind, at, |mem|);
      RestUnder(sources, kind, at, x);
      StoreElsewhere(next, at, sources[1..], kind, v, v2, page, x);
    }
  }

  lemma RestRange(sources: seq<sint16>, kind: int, at: int, n: nat)
    requires InRange(sources, kind, at, n) && sources != []
    ensures InRange(sources[1..], kind, at, n)
  {
  }

  lemma RestUnder(sources: seq<sint16>, kind: int, at: int, x: int)
    requires sources != []
    ensures Under(sources[1..], kind, at, x) ==> Under(sources, kind, at, x)
  {
    if Under(sources[1..], kind, at, x) {
      var k :| 0 <= k < |sources[1..]| && Covers(sources[1..][k], kind, at, x);
      assert Covers(sources[k + 1], kind, at, x);
    }
  }

  lemma StoreAllStep(mem: seq<byte>, at: int, sources: seq<sint16>, kind: int, v: uint32, v2: uint16, page: uint32)
    requires InRange(sources, kind, at, |mem|) && sources != []
    ensures InRange(sources[1..], kind, at, |mem|)
    ensures 0 <= at + sources[0] && at + sources[0] + Width(kind) <= |mem|
    ensures StoreAll(mem, at, sources, kind, v, v2, page) ==
            StoreAll(Store(mem, at + sources[0], Stored(kind, v, v2, page, sources[0])), at, sources[1..], kind, v, v2,
                     page)
  {
    hide Store, Stored, Width;
  }

  lemma StoreFirstAt(mem: seq<byte>, at: int, sources: seq<sint16>, kind: int, v: uint32, v2: uint16, page: uint32,
                     x: int)
    requires InRange(sources, kind, at, |mem|) && Apart(sources, kind) && sources != []
    requires 0 <= x < |mem| && Covers(sources[0], kind, at, x)
    ensures StoreAll(mem, at, sources, kind, v, v2, page)[x] ==
            Stored(kind, v, v2, page, sources[0])[x - (at + sources[0])]
  {
    var p := Stored(kind, v, v2, page, sources[0]);
    FirstAlone(sources, kind, at, x);
    RestRange(sources, kind, at, |mem|);
    hide Stored, Width, Apart, Under;
    StoreByte(mem, at + sources[0], p, x);
    hide Store;
    StoreElsewhere(Store(mem, at + sources[0], p), at, sources[1..], kind, v, v2, page, x);
  }

  /** Each byte of a field, once the record is done. */
  lemma {:induction false} StoreAt(mem: seq<byte>, at: int, sources: seq<sint16>, kind: int, v: uint32, v2: uint16,
                                   page: uint32, k: nat, x: int)
    requires InRange(sources, kind, at, |mem|) && Apart(sources, kind) && k < |sources|
    requires 0 <= x < |mem| && Covers(sources[k], kind, at, x)
    ensures StoreAll(mem, at, sources, kind, v, v2, page)[x] ==
            Stored(kind, v, v2, page, sources[k])[x - (at + sources[k])]
    decreases |sources|
  {
    if k == 0 {
      StoreFirstAt(mem, at, sources, kind, v, v2, page, x);
    } else {
      RestRange(sources, kind, at, |mem|);
      RestApart(sources, kind);
      StoreAllStep(mem, at, sources, kind, v, v2, page);
      hide Store, StoreAll, Stored, Width, Covers, Apart, InRange;
      var next := Store(mem, at + sources[0], Stored(kind, v, v2, page, sources[0]));
      StoreAt(next, at, sources[1..], kind, v, v2, page, k - 1, x);
    }
  }

  lemma FirstAlone(sources: seq<sint16>, kind: int, at: int, x: int)
    requires sources != [] && Apart(sources, kind) && Covers(sources[0], kind, at, x)
    ensures !Under(sources[1..], kind, at, x)
  {
    forall l | 0 <= l < |sources[1..]|
      ensures !Covers(sources[1..][l], kind, at, x)
    {
      assert Disjoint(sources[0], sources[l + 1], Width(kind));
    }
  }

  lemma RestApart(sources: seq<sint16>, kind: int)
    requires Apart(sources, kind) && sources != []
    ensures Apart(sources[1..], kind)
  {
    hide Disjoint;
  }

  lemma ApplyElsewhere(mem: seq<byte>, r: Record, env: Env, at: int, x: int)
    requires Loadable(r, env, at, |mem|) && Apply(mem, r, env, at).Some?
    requires 0 <= x < |mem| && !Under(r.sources, r.Kind(), at, x)
    ensures Apply(mem, r, env, at).value[x] == mem[x]
  {
    hide StoreAll, Under, BaseValue, Names;
    var b := BaseValue(r.Kind(), Names(r.srctype, r.flags, r.id, r.operand, env), env.cs);
    StoreElsewhere(mem, at, r.sources, r.Kind(), (b.v + r.additive) % TWO32, b.v2, env.page, x);
  }

  /** Bytes in no field stay as they are. */
  lemma {:induction false} PageElsewhere(mem: seq<byte>, rs: seq<Record>, env: Env, at: int, x: int)
    requires AllLoadable(rs, env, at, |mem|) && ApplyAll(mem, rs, env, at).Some?
    requires 0 <= x < |mem| && !UnderSome(rs, at, x)
    ensures ApplyAll(mem, rs, env, at).value[x] == mem[x]
    decreases |rs|
  {
    if rs != [] {
      hide Loadable, Apply, Under;
      ApplyElsewhere(mem, rs[0], env, at, x);
      assert forall i :: 0 <= i < |rs[1..]| ==> rs[1..][i] == rs[i + 1];
      PageElsewhere(Apply(mem, rs[0], env, at).value, rs[1..], env, at, x);
    }
  }

  /** The value of a record, with its additive. */
  function FinalValue(r: Record, env: Env): Value
    requires r.operand < TWO32 && (r.Target() == 0 ==> 1 <= r.id <= |env.objects|)
  {
    match BaseValue(r.Kind(), Names(r.srctype, r.flags, r.id, r.operand, env), env.cs)
    case Abort => Abort
    case Value(v, v2) => Value((v + r.additive) % TWO32, v2)
  }

  lemma ApplyAt(mem: seq<byte>, r: Record, env: Env, at: int, k: nat, x: int)
    requires Loadable(r, env, at, |mem|) && Apply(mem, r, env, at).Some? && Apart(r.sources, r.Kind())
    requires k < |r.sources| && 0 <= x < |mem| && Covers(r.sources[k], r.Kind(), at, x)
    ensures r.operand < TWO32 && FinalValue(r, env).Value?
    ensures var f := FinalValue(r, env);
            Apply(mem, r, env, at).value[x] ==
            Stored(r.Kind(), f.v, f.v2, env.page, r.sources[k])[x - (at + r.sources[k])]
  {
    hide StoreAll, BaseValue, Names, Stored, Apart, Width;
    var f := FinalValue(r, env);
    StoreAt(mem, at, r.sources, r.Kind(), f.v, f.v2, env.page, k, x);
  }

  /** Every byte of every field of a page whose fields do not overlap is the one its own record stores. */
  lemma {:induction false} PageAt(mem: seq<byte>, rs: seq<Record>, env: Env, at: int, i: nat, k: nat, x: nat)
    requires AllLoadable(rs, env, at, |mem|) && ApplyAll(mem, rs, env, at).Some? && AllApart(rs, at)
    requires i < |rs| && k < |rs[i].sources| && x < |mem| && Fits(rs[i], env, at, k, |mem|)
    ensures ByteAt(ApplyAll(mem, rs, env, at).value, rs[i], env, at, k, x)
    decreases |rs|
  {
    hide Apply, FinalValue, Stored, Apart, Fits;
    if Covers(rs[i].sources[k], rs[i].Kind(), at, x) {
      var next := Apply(mem, rs[0], env, at).value;
      assert forall j :: 0 <= j < |rs[1..]| ==> rs[1..][j] == rs[j + 1];
      hide Loadable, Covers;
      if i == 0 {
        ApplyAt(mem, rs[0], env, at, k, x);
        assert Under(rs[0].sources, rs[0].Kind(), at, x);
        hide Under;
        PageElsewhere(next, rs[1..], env, at, x);
      } else {
        hide Under;
        PageAt(next, rs[1..], env, at, i - 1, k, x);
      }
    }
  }

  // What the stored bytes say.

  /**
   * A field read back. With an address, it holds the low bits of the address plus additive, or the distance to it from
   * the field's end, or it and the loader's code segment; with an alias, the selector, the offset, or both.
   */
  predicate Means(field: seq<byte>, kind: int, named: Named, additive: uint32, cs: uint16, address: int)
    requires |field| == Width(kind)
  {
    match named
    case Flat(target) =>
      var v := (target + additive) % TWO32;
      (match kind
       case 0 => field[0] == v % 0x100
       case 2 => U16(field) == v % TWO16
       case 5 => U16(field) == v % TWO16
       case 3 => U32(field) == v
       case 7 => U32(field) == v
       case 8 => (U32(field) + address + 4) % TWO32 == v
       case 6 => U32(field) == v && U16(field[4..]) == cs
       case _ => true)
    case Far(alias, offset) =>
      (match kind
       case 2 => U16(field) == (Segment(alias) + additive) % TWO16
       case 3 =>
         && U16(field) == (offset + additive) % TWO16
         && U16(field[2..]) ==
            (Or(Segment(alias), offset / TWO16) % TWO16 + (offset % TWO16 + additive) / TWO16) % TWO16
       case 6 => U32(field) == (offset + additive) % TWO32 && U16(field[4..]) == Segment(alias)
       case _ => false)
  }

  lemma FlatMeans(kind: int, target: uint32, additive: uint32, cs: uint16, page: uint32, offset: sint16)
    ensures var f := BaseValue(kind, Flat(target), cs);
            && f.Value?
            && Means(Stored(kind, (f.v + additive) % TWO32, f.v2, page, offset), kind, Flat(target), additive, cs,
                     page + offset)
  {
    hide Le16, Le32;
    var v := (target + additive) % TWO32;
    if kind == 6 {
      LongMeans(v, cs);
    } else if kind == 8 {
      DistanceMeans(v, page + offset);
    }
  }

  lemma LongMeans(v: uint32, w: uint16)
    ensures U32(Le32(v) + Le16(w)) == v && U16((Le32(v) + Le16(w))[4..]) == w
  {
    hide Le16, Le32;
    assert (Le32(v) + Le16(w))[4..] == Le16(w);
    Front32(Le32(v), Le16(w));
  }

  lemma DistanceMeans(v: uint32, address: int)
    ensures ((v - (address + 4)) % TWO32 + address + 4) % TWO32 == v
  {
    var d := v - (address + 4);
    assert d % TWO32 + address + 4 == -(d / TWO32) * TWO32 + v;
    Split(-(d / TWO32), v, TWO32);
  }

  lemma Front32(a: seq<byte>, b: seq<byte>)
    requires |a| == 4
    ensures U32(a + b) == U32(a)
  {
  }

  lemma FarMeans(kind: int, alias: uint16, offset: uint32, additive: uint32, cs: uint16, page: uint32, source: sint16)
    requires BaseValue(kind, Far(alias, offset), cs).Value?
    ensures var f := BaseValue(kind, Far(alias, offset), cs);
            Means(Stored(kind, (f.v + additive) % TWO32, f.v2, page, source), kind, Far(alias, offset), additive, cs,
                  page + source)
  {
    if kind == 2 {
      SelectorMeans(alias, offset, additive, cs, page, source);
    } else if kind == 3 {
      PointerMeans(alias, offset, additive, cs, page, source);
    } else {
      assert kind == 6;
      LongPointerMeans(alias, offset, additive, cs, page, source);
    }
  }

  lemma SelectorMeans(alias: uint16, offset: uint32, additive: uint32, cs: uint16, page: uint32, source: sint16)
    ensures Means(Stored(2, (Segment(alias) + additive) % TWO32, 0, page, source), 2, Far(alias, offset), additive, cs,
                  page + source)
  {
    hide Segment;
    LowWord(Segment(alias) + additive);
  }

  lemma LowWord(x: nat)
    ensures U16(Le16(x % TWO32 % TWO16)) == x % TWO16
  {
    var low := x % TWO16;
    assert x % TWO32 == (x % TWO32 / TWO16) * TWO16 + x % TWO32 % TWO16;
    assert x == (x / TWO32 * TWO16 + x % TWO32 / TWO16) * TWO16 + x % TWO32 % TWO16;
    Split(x / TWO32 * TWO16 + x % TWO32 / TWO16, x % TWO32 % TWO16, TWO16);
  }

  lemma PointerMeans(alias: uint16, offset: uint32, additive: uint32, cs: uint16, page: uint32, source: sint16)
    ensures Means(Stored(3, (FarPointer(Segment(alias), offset) + additive) % TWO32, 0, page, source), 3,
                  Far(alias, offset), additive, cs, page + source)
  {
    hide Segment, FarPointer, Or, Le32, U16;
    FarHalves(Segment(alias), offset, additive);
  }

  lemma LongPointerMeans(alias: uint16, offset: uint32, additive: uint32, cs: uint16, page: uint32, source: sint16)
    ensures Means(Stored(6, (offset + additive) % TWO32, Segment(alias), page, source), 6, Far(alias, offset), additive,
                  cs, page + source)
  {
    hide Le16, Le32, Segment;
    var lo, hi := Le32((offset + additive) % TWO32), Le16(Segment(alias));
    assert (lo + hi)[4..] == hi;
    Front32(lo, hi);
  }

  lemma FarHalves(segment: uint16, offset: uint32, additive: uint32)
    ensures var s := Le32((FarPointer(segment, offset) + additive) % TWO32);
            && U16(s) == (offset + additive) % TWO16
            && U16(s[2..]) == (Or(segment, offset / TWO16) % TWO16 + (offset % TWO16 + additive) / TWO16) % TWO16
  {
    hide Or, Le32, U16;
    var h, low := Or(segment, offset / TWO16) % TWO16, offset % TWO16 + additive;
    LowHalf(offset, additive);
    Halves(h, low);
    LeHalves((h + low / TWO16) % TWO16, low % TWO16);
    FarSum(segment, offset, additive);
  }

  lemma FarSum(segment: uint16, offset: uint32, additive: uint32)
    ensures FarPointer(segment, offset) + additive ==
            Or(segment, offset / TWO16) % TWO16 * TWO16 + (offset % TWO16 + additive)
  {
    hide Or;
  }

  lemma LowHalf(offset: nat, additive: nat)
    ensures (offset % TWO16 + additive) % TWO16 == (offset + additive) % TWO16
  {
    var s := offset % TWO16 + additive;
    assert offset + additive == (offset / TWO16 + s / TWO16) * TWO16 + s % TWO16;
    Split(offset / TWO16 + s / TWO16, s % TWO16, TWO16);
  }

  lemma LeHalves(hi: uint16, lo: uint16)
    ensures U16(Le32(hi * TWO16 + lo)) == lo && U16(Le32(hi * TWO16 + lo)[2..]) == hi
  {
    Split(hi, lo, TWO16);
    hide Le16, U16;
    assert Le32(hi * TWO16 + lo) == Le16(lo) + Le16(hi);
    assert (Le16(lo) + Le16(hi))[2..] == Le16(hi);
    Front16(Le16(lo), Le16(hi));
  }

  lemma Front16(a: seq<byte>, b: seq<byte>)
    requires |a| == 2
    ensures U16(a + b) == U16(a)
  {
  }

  /** The high half of a 32-bit sum takes the carry. */
  lemma Halves(h: uint16, low: nat)
    ensures (h * TWO16 + low) % TWO32 == (h + low / TWO16) % TWO16 * TWO16 + low % TWO16
  {
    var s := h + low / TWO16;
    var c, d := s / TWO16, s % TWO16;
    assert h * TWO16 + low == c * TWO32 + (d * TWO16 + low % TWO16);
    Split(c, d * TWO16 + low % TWO16, TWO32);
  }

  lemma RecordMeans(r: Record, env: Env, source: sint16)
    requires r.operand < TWO32 && r.additive < TWO32 && (r.Target() == 0 ==> 1 <= r.id <= |env.objects|)
    requires FinalValue(r, env).Value?
    ensures var f := FinalValue(r, env);
            Means(Stored(r.Kind(), f.v, f.v2, env.page, source), r.Kind(),
                  Names(r.srctype, r.flags, r.id, r.operand, env), r.additive, env.cs, env.page + source)
  {
    hide Names, BaseValue, Stored, Means;
    match Names(r.srctype, r.flags, r.id, r.operand, env)
    case Flat(target) => FlatMeans(r.Kind(), target, r.additive, env.cs, env.page, source);
    case Far(alias, offset) => FarMeans(r.Kind(), alias, offset, r.additive, env.cs, env.page, source);
  }

  predicate Fits(r: Record, env: Env, at: int, k: nat, n: nat) {
    && k < |r.sources| && 0 <= at + r.sources[k] && at + r.sources[k] + Width(r.Kind()) <= n
    && r.operand < TWO32 && r.additive < TWO32 && (r.Target() == 0 ==> 1 <= r.id <= |env.objects|)
  }

  lemma LoadableFits(r: Record, env: Env, at: int, k: nat, n: nat)
    requires Loadable(r, env, at, n) && k < |r.sources|
    ensures Fits(r, env, at, k, n)
  {
  }

  function FieldOf(m: seq<byte>, r: Record, env: Env, at: int, k: nat): (s: seq<byte>)
    requires Fits(r, env, at, k, |m|)
    ensures |s| == Width(r.Kind())
  {
    m[at + r.sources[k]..at + r.sources[k] + Width(r.Kind())]
  }

  /** Field `k` of a record reads back as what the record refers to. */
  predicate Reads(m: seq<byte>, r: Record, env: Env, at: int, k: nat)
    requires Fits(r, env, at, k, |m|)
  {
    Means(FieldOf(m, r, env, at, k), r.Kind(), Names(r.srctype, r.flags, r.id, r.operand, env), r.additive, env.cs,
          env.page + r.sources[k])
  }

  /** In a page whose fields do not overlap, every field reads back as what its record refers to. */
  lemma FieldMeans(mem: seq<byte>, rs: seq<Record>, env: Env, at: int, i: nat, k: nat)
    requires AllLoadable(rs, env, at, |mem|) && ApplyAll(mem, rs, env, at).Some? && AllApart(rs, at)
    requires i < |rs| && k < |rs[i].sources|
    ensures Fits(rs[i], env, at, k, |mem|) && Reads(ApplyAll(mem, rs, env, at).value, rs[i], env, at, k)
  {
    hide *;
    FieldAt(mem, rs, env, at, i, k);
    RecordReads(ApplyAll(mem, rs, env, at).value, rs[i], env, at, k);
  }

  lemma RecordReads(m: seq<byte>, r: Record, env: Env, at: int, k: nat)
    requires Fits(r, env, at, k, |m|) && HasField(m, r, env, at, k)
    ensures Reads(m, r, env, at, k)
  {
    RecordMeans(r, env, r.sources[k]);
  }

  /** Field `k` of a record holds what the record stores there. */
  predicate HasField(m: seq<byte>, r: Record, env: Env, at: int, k: nat)
    requires Fits(r, env, at, k, |m|)
  {
    var f := FinalValue(r, env);
    f.Value? && FieldOf(m, r, env, at, k) == Stored(r.Kind(), f.v, f.v2, env.page, r.sources[k])
  }

  /** The whole field is the one its own record stores. */
  lemma FieldAt(mem: seq<byte>, rs: seq<Record>, env: Env, at: int, i: nat, k: nat)
    requires AllLoadable(rs, env, at, |mem|) && ApplyAll(mem, rs, env, at).Some? && AllApart(rs, at)
    requires i < |rs| && k < |rs[i].sources|
    ensures Fits(rs[i], env, at, k, |mem|) && HasField(ApplyAll(mem, rs, env, at).value, rs[i], env, at, k)
  {
    LoadableFits(rs[i], env, at, k, |mem|);
    RecordValue(mem, rs, env, at, i);
    var m := ApplyAll(mem, rs, env, at).value;
    hide *;
    forall x | 0 <= x < |m|
      ensures ByteAt(m, rs[i], env, at, k, x)
    {
      PageAt(mem, rs, env, at, i, k, x);
    }
    BytesAt(m, rs[i], env, at, k);
  }

  /** If byte `x` is one of field `k`, it is the one the record stores there. */
  predicate ByteAt(m: seq<byte>, r: Record, env: Env, at: int, k: nat, x: nat)
    requires x < |m| && Fits(r, env, at, k, |m|)
  {
    Covers(r.sources[k], r.Kind(), at, x) ==>
      var f := FinalValue(r, env);
      f.Value? && m[x] == Stored(r.Kind(), f.v, f.v2, env.page, r.sources[k])[x - (at + r.sources[k])]
  }

  lemma BytesAt(m: seq<byte>, r: Record, env: Env, at: int, k: nat)
    requires Fits(r, env, at, k, |m|) && forall x :: 0 <= x < |m| ==> ByteAt(m, r, env, at, k, x)
    requires FinalValue(r, env).Value?
    ensures HasField(m, r, env, at, k)
  {
    hide FinalValue, Stored, Width;
    var f := FinalValue(r, env);
    var p, field := at + r.sources[k], Stored(r.Kind(), f.v, f.v2, env.page, r.sources[k]);
    forall x | p <= x < p + Width(r.Kind())
      ensures m[x] == field[x - p]
    {
      assert ByteAt(m, r, env, at, k, x);
    }
  }

  /** A page is done only if every record has a value and, where it has fields, a size. */
  lemma {:induction false} RecordValue(mem: seq<byte>, rs: seq<Record>, env: Env, at: int, i: nat)
    requires AllLoadable(rs, env, at, |mem|) && ApplyAll(mem, rs, env, at).Some? && i < |rs|
    ensures var r := rs[i];
            && r.operand < TWO32 && (r.Target() == 0 ==> 1 <= r.id <= |env.objects|)
            && BaseValue(r.Kind(), Names(r.srctype, r.flags, r.id, r.operand, env), env.cs).Value?
            && (r.sources != [] ==> Width(r.Kind()) != 0)
    decreases |rs|
  {
    LoadableFacts(rs[i], env, at, |mem|);
    hide BaseValue, Names, StoreAll;
    if i > 0 {
      RecordValue(Apply(mem, rs[0], env, at).value, rs[1..], env, at, i - 1);
    }
  }

  /** A self-relative fixup stores the distance from the end of its field: added to that address it gives the target. */
  lemma SelfRelative(mem: seq<byte>, at: int, offset: sint16, v: uint32, v2: uint16, page: uint32)
    requires 0 <= at + offset && at + offset + 4 <= |mem|
    ensures var r := Store(mem, at + offset, Stored(8, v, v2, page, offset));
            (U32(r[at + offset..]) + (page + offset + 4)) % TWO32 == v
  {
  }

  // What the fields hold afterwards, in terms of the record and the environment alone.

  function BitAt(n: nat, k: nat): bool {
    if k == 0 then n % 2 == 1 else BitAt(n / 2, k - 1)
  }

  lemma {:induction false} OrBits(a: nat, b: nat, k: nat)
    ensures BitAt(Or(a, b), k) <==> BitAt(a, k) || BitAt(b, k)
    decreases k
  {
    if a == 0 || b == 0 {
      NoBits(k);
    } else if k > 0 {
      OrBits(a / 2, b / 2, k - 1);
    }
  }

  lemma {:induction false} NoBits(k: nat)
    ensures !BitAt(0, k)
  {
    if k > 0 {
      NoBits(k - 1);
    }
  }

  /**
   * A field of each kind that holds `target`: its low bits, all of it, the distance to it from the field's end, or all
   * of it and the loader's code segment. `linear` is the field's own address.
   */
  predicate HoldsAddress(m: seq<byte>, p: nat, kind: int, target: int, cs: uint16, linear: int) {
    match kind
    case 0 => p < |m| && m[p] as int == target % 0x100
    case 2 => p + 2 <= |m| && U16(m[p..]) == target % TWO16
    case 5 => p + 2 <= |m| && U16(m[p..]) == target % TWO16
    case 3 => p + 4 <= |m| && U32(m[p..]) == target % TWO32
    case 7 => p + 4 <= |m| && U32(m[p..]) == target % TWO32
    case 8 => p + 4 <= |m| && (U32(m[p..]) + linear + 4) % TWO32 == target % TWO32
    case 6 => p + 6 <= |m| && U32(m[p..]) == target % TWO32 && U16(m[p + 4..]) == cs
    case _ => true
  }

  /** A field that holds a selector, an offset below it, or both; an offset of 64K and more runs into the selector. */
  predicate HoldsPointer(m: seq<byte>, p: nat, kind: int, selector: uint16, offset: uint32, additive: uint32) {
    match kind
    case 2 => p + 2 <= |m| && U16(m[p..]) == (selector + additive) % TWO16
    case 3 =>
      && p + 4 <= |m| && U16(m[p..]) == (offset + additive) % TWO16
      && (offset < TWO16 ==> U16(m[p + 2..]) == (selector + (offset + additive) / TWO16) % TWO16)
      && U16(m[p + 2..]) == (Or(selector, offset / TWO16) % TWO16 + (offset % TWO16 + additive) / TWO16) % TWO16
    case 6 => p + 6 <= |m| && U32(m[p..]) == (offset + additive) % TWO32 && U16(m[p + 4..]) == selector
    case _ => false
  }

  /** The selector of the LDT entry with a given index. */
  function Selector(alias: uint16): uint16 {
    (8 * alias + 7) % TWO16
  }

  /** Field `k` of a record: an object's address plus offset, or what an import resolves to, or its alias. */
  predicate FieldRight(m: seq<byte>, r: Record, env: Env, at: int, k: nat)
    requires Fits(r, env, at, k, |m|)
  {
    var p, kind, alias := at + r.sources[k], r.srctype % 0x10, r.srctype as int / 0x10 % 2 == 1;
    var linear := env.page + r.sources[k];
    if r.flags % 4 == 0 then
      var obj := env.objects[r.id - 1];
      if !alias then HoldsAddress(m, p, kind, obj.addr + r.operand + r.additive, env.cs, linear)
      else if obj.alias == 0xFFFF then HoldsAddress(m, p, kind, r.additive, env.cs, linear)
      else HoldsPointer(m, p, kind, Selector(obj.alias), r.operand, r.additive)
    else if r.id == 0 || r.id > env.modules then HoldsAddress(m, p, kind, r.additive, env.cs, linear)
    else
      var e := if r.flags % 4 == 1 then env.byOrdinal(r.id, r.operand, alias) else env.byName(r.id, r.operand, alias);
      if alias && e.obj.Some? && e.obj.value.alias != 0xFFFF then
        HoldsPointer(m, p, kind, Selector(e.obj.value.alias), (e.addr - e.obj.value.addr) % TWO32, r.additive)
      else HoldsAddress(m, p, kind, e.addr + r.additive, env.cs, linear)
  }

  lemma Word(m: seq<byte>, p: nat, n: nat)
    requires p + n <= |m| && n >= 2
    ensures U16(m[p..p + n]) == U16(m[p..])
  {
  }

  lemma DoubleWord(m: seq<byte>, p: nat, n: nat)
    requires p + n <= |m| && n >= 4
    ensures U32(m[p..p + n]) == U32(m[p..])
  {
    Word(m, p, n);
    Word(m, p + 2, n - 2);
    assert m[p..p + n][2..] == m[p + 2..p + n] && m[p..][2..] == m[p + 2..];
  }

  lemma WordBehind(m: seq<byte>, p: nat, n: nat, k: nat)
    requires p + n <= |m| && k + 2 <= n
    ensures U16(m[p..p + n][k..]) == U16(m[p + k..])
  {
    assert m[p..p + n][k..] == m[p + k..p + n];
    Word(m, p + k, n - k);
  }

  lemma SameTarget(x: int, target: uint32, additive: uint32)
    requires target == x % TWO32
    ensures (target + additive) % TWO32 == (x + additive) % TWO32
  {
    var y := target + additive;
    assert x + additive == (x / TWO32 + y / TWO32) * TWO32 + y % TWO32;
    Split(x / TWO32 + y / TWO32, y % TWO32, TWO32);
  }

  lemma LowByte(x: int)
    ensures x % TWO32 % 0x100 == x % 0x100 && x % TWO32 % TWO16 == x % TWO16
  {
    var v := x % TWO32;
    assert x == (x / TWO32 * 0x100_0000 + v / 0x100) * 0x100 + v % 0x100;
    Split(x / TWO32 * 0x100_0000 + v / 0x100, v % 0x100, 0x100);
    assert x == (x / TWO32 * TWO16 + v / TWO16) * TWO16 + v % TWO16;
    Split(x / TWO32 * TWO16 + v / TWO16, v % TWO16, TWO16);
  }

  lemma AddressHeld(m: seq<byte>, p: nat, kind: int, x: int, target: uint32, additive: uint32, cs: uint16, linear: int)
    requires p + Width(kind) <= |m| && target == x % TWO32
    requires Means(m[p..p + Width(kind)], kind, Flat(target), additive, cs, linear)
    ensures HoldsAddress(m, p, kind, x + additive, cs, linear)
  {
    SameTarget(x, target, additive);
    LowByte(x + additive);
    var n := Width(kind);
    if n == 6 {
      WordBehind(m, p, n, 4);
    }
    hide U16, U32;
    if n >= 2 {
      Word(m, p, n);
    }
    if n >= 4 {
      DoubleWord(m, p, n);
    }
  }

  lemma PointerHeld(m: seq<byte>, p: nat, kind: int, alias: uint16, offset: uint32, additive: uint32, cs: uint16,
                    linear: int)
    requires p + Width(kind) <= |m|
    requires Means(m[p..p + Width(kind)], kind, Far(alias, offset), additive, cs, linear)
    ensures HoldsPointer(m, p, kind, Selector(alias), offset, additive)
  {
    hide U16, U32;
    if kind == 2 {
      Word(m, p, 2);
    } else if kind == 3 {
      Word(m, p, 4);
      WordBehind(m, p, 4, 2);
      FarHeld(m, p, alias, offset, additive);
    } else {
      assert kind == 6;
      DoubleWord(m, p, 6);
      WordBehind(m, p, 6, 4);
    }
  }

  lemma FarHeld(m: seq<byte>, p: nat, alias: uint16, offset: uint32, additive: uint32)
    requires p + 4 <= |m| && U16(m[p..]) == (offset + additive) % TWO16
    requires U16(m[p + 2..]) ==
             (Or(Segment(alias), offset / TWO16) % TWO16 + (offset % TWO16 + additive) / TWO16) % TWO16
    ensures HoldsPointer(m, p, 3, Selector(alias), offset, additive)
  {
    hide U16, U32;
    assert Segment(alias) == Selector(alias);
    hide Segment, Selector;
    if offset < TWO16 {
      assert offset / TWO16 == 0 && offset % TWO16 == offset;
      assert Or(Selector(alias), 0) == Selector(alias);
    }
    hide Or;
  }

  lemma FieldIsRight(mem: seq<byte>, rs: seq<Record>, env: Env, at: int, i: nat, k: nat)
    requires AllLoadable(rs, env, at, |mem|) && ApplyAll(mem, rs, env, at).Some? && AllApart(rs, at)
    requires i < |rs| && k < |rs[i].sources|
    ensures Fits(rs[i], env, at, k, |mem|) && FieldRight(ApplyAll(mem, rs, env, at).value, rs[i], env, at, k)
  {
    FieldMeans(mem, rs, env, at, i, k);
    hide AllLoadable, AllApart, ApplyAll, Fits, Reads, FieldRight;
    LoadableTarget(rs, env, at, |mem|, i);
    ReadsRight(ApplyAll(mem, rs, env, at).value, rs[i], env, at, k);
  }

  lemma LoadableTarget(rs: seq<Record>, env: Env, at: int, n: nat, i: nat)
    requires AllLoadable(rs, env, at, n) && i < |rs|
    ensures rs[i].flags % 4 != 3
  {
    LoadableFacts(rs[i], env, at, n);
  }

  lemma ReadsRight(m: seq<byte>, r: Record, env: Env, at: int, k: nat)
    requires Fits(r, env, at, k, |m|) && Reads(m, r, env, at, k) && r.flags % 4 != 3
    ensures FieldRight(m, r, env, at, k)
  {
    hide Means, HoldsAddress, HoldsPointer, Width, Segment, Selector;
    var named := Names(r.srctype, r.flags, r.id, r.operand, env);
    var p, linear := at + r.sources[k], env.page + r.sources[k];
    match named
    case Flat(target) =>
      if r.flags % 4 == 0 && r.srctype as int / 0x10 % 2 == 0 {
        AddressHeld(m, p, r.Kind(), env.objects[r.id - 1].addr + r.operand, target, r.additive, env.cs, linear);
      } else {
        AddressHeld(m, p, r.Kind(), target, target, r.additive, env.cs, linear);
      }
    case Far(alias, offset) =>
      PointerHeld(m, p, r.Kind(), alias, offset, r.additive, env.cs, linear);
  }

  /** The record names an alias, which only three kinds of field can take. */
  predicate UsesAlias(r: Record, env: Env)
    requires r.flags % 4 == 0 ==> 1 <= r.id <= |env.objects|
  {
    && r.srctype as int / 0x10 % 2 == 1
    && if r.flags % 4 == 0 then env.objects[r.id - 1].alias != 0xFFFF
       else
         && 1 <= r.id <= env.modules
         && var e := if r.flags % 4 == 1 then env.byOrdinal(r.id, r.operand, true)
                     else env.byName(r.id, r.operand, true);
         e.obj.Some? && e.obj.value.alias != 0xFFFF
  }

  /** The loader can work a record out. */
  predicate Supported(r: Record, env: Env)
    requires r.flags % 4 == 0 ==> 1 <= r.id <= |env.objects|
  {
    var kind := r.srctype % 0x10;
    && (UsesAlias(r, env) ==> kind in {2, 3, 6})
    && (r.sources != [] ==> kind in {0, 2, 3, 5, 6, 7, 8})
  }

  lemma ApplySucceeds(mem: seq<byte>, r: Record, env: Env, at: int)
    requires Loadable(r, env, at, |mem|)
    ensures r.flags % 4 == 0 ==> 1 <= r.id <= |env.objects|
    ensures Apply(mem, r, env, at).Some? <==> Supported(r, env)
  {
    LoadableFacts(r, env, at, |mem|);
    hide StoreAll, Segment, FarPointer;
  }

  ghost predicate AllSupported(rs: seq<Record>, env: Env, at: int, n: nat)
    requires AllLoadable(rs, env, at, n)
  {
    forall i :: 0 <= i < |rs| ==> Loadable(rs[i], env, at, n) && Supported(rs[i], env)
  }

  /** A page is done exactly if every record is supported. */
  lemma {:induction false} PageSucceeds(mem: seq<byte>, rs: seq<Record>, env: Env, at: int)
    requires AllLoadable(rs, env, at, |mem|)
    ensures ApplyAll(mem, rs, env, at).Some? <==> AllSupported(rs, env, at, |mem|)
    decreases |rs|
  {
    hide Loadable, Apply, Supported;
    if rs != [] {
      ApplySucceeds(mem, rs[0], env, at);
      SupportedRest(rs, env, at, |mem|);
      if Apply(mem, rs[0], env, at).Some? {
        PageSucceeds(Apply(mem, rs[0], env, at).value, rs[1..], env, at);
      }
    }
  }

  lemma SupportedRest(rs: seq<Record>, env: Env, at: int, n: nat)
    requires AllLoadable(rs, env, at, n) && rs != []
    ensures AllLoadable(rs[1..], env, at, n) && Loadable(rs[0], env, at, n)
    ensures rs[0].flags % 4 == 0 ==> 1 <= rs[0].id <= |env.objects|
    ensures AllSupported(rs, env, at, n) <==> Supported(rs[0], env) && AllSupported(rs[1..], env, at, n)
  {
    LoadableFacts(rs[0], env, at, n);
    hide Loadable, Supported;
    assert forall i :: 0 <= i < |rs[1..]| ==> rs[1..][i] == rs[i + 1];
    if Supported(rs[0], env) && AllSupported(rs[1..], env, at, n) {
      forall i | 0 <= i < |rs|
        ensures Loadable(rs[i], env, at, n) && Supported(rs[i], env)
      {
        if i > 0 {
          assert rs[i] == rs[1..][i - 1];
        }
      }
    }
  }

  /** Every field of a page is right, and all other bytes are as before. */
  ghost predicate PageRight(was: seq<byte>, m: seq<byte>, rs: seq<Record>, env: Env, at: int)
    requires |was| == |m|
  {
    && (forall i, k :: 0 <= i < |rs| && 0 <= k < |rs[i].sources| ==>
          Fits(rs[i], env, at, k, |m|) && FieldRight(m, rs[i], env, at, k))
    && (forall x :: 0 <= x < |m| && !UnderSome(rs, at, x) ==> m[x] == was[x])
  }

  lemma PageIsRight(mem: seq<byte>, rs: seq<Record>, env: Env, at: int)
    requires AllLoadable(rs, env, at, |mem|) && ApplyAll(mem, rs, env, at).Some? && AllApart(rs, at)
    ensures PageRight(mem, ApplyAll(mem, rs, env, at).value, rs, env, at)
  {
    hide AllLoadable, ApplyAll, AllApart, Fits, FieldRight, UnderSome;
    var m := ApplyAll(mem, rs, env, at).value;
    forall i, k | 0 <= i < |rs| && 0 <= k < |rs[i].sources|
      ensures Fits(rs[i], env, at, k, |m|) && FieldRight(m, rs[i], env, at, k)
    {
      FieldIsRight(mem, rs, env, at, i, k);
    }
    forall x | 0 <= x < |m| && !UnderSome(rs, at, x)
      ensures m[x] == mem[x]
    {
      PageElsewhere(mem, rs, env, at, x);
    }
  }

  // The layout of a record, counted off from the bits of its first two bytes.

  function ValueAt(s: seq<byte>, at: nat, width: nat): int
    requires at + width <= |s| && width in {0, 1, 2, 4}
  {
    if width == 0 then 0 else if width == 1 then s[at] else if width == 2 then U16(s[at..]) else U32(s[at..])
  }

  /** A bit of a byte by its value. */
  predicate Has(b: byte, bit: int)
    requires bit > 0
  {
    b as int / bit % 2 == 1
  }

  /** Where the source, the id, the operand, the additive and the source list begin, and where the record ends. */
  function Layout(srctype: byte, flags: byte, sources: nat): (r: (nat, nat, nat, nat, nat))
    ensures 3 <= r.0 && r.1 - r.0 in {1, 2} && r.2 - r.1 in {0, 1, 2, 4} && r.3 - r.2 in {0, 2, 4} && r.3 <= r.4
  {
    var id := if Has(srctype, 0x20) then 3 else 4;
    var operand := id + if Has(flags, 0x40) then 2 else 1;
    var additive := operand +
      if flags % 4 == 0 && srctype % 0x10 == 2 then 0
      else if flags % 4 == 1 && Has(flags, 0x80) then 1
      else if Has(flags, 0x10) then 4 else 2;
    var list := additive + if !Has(flags, 4) then 0 else if Has(flags, 0x20) then 4 else 2;
    (id, operand, additive, list, if Has(srctype, 0x20) then list + 2 * sources else list)
  }

  /** Every part of record `r` is where the layout says. */
  predicate Laid(s: seq<byte>, r: Record) {
    var at := Layout(r.srctype, r.flags, |r.sources|);
    && |s| == at.4 && |s| >= 4 && s[0] == r.srctype && s[1] == r.flags
    && (Has(r.srctype, 0x20) ==> s[2] as int == |r.sources| && s[at.3..] == Offsets(r.sources))
    && (!Has(r.srctype, 0x20) ==> r.sources == [Signed(U16(s[2..]))] && s[at.3..] == [])
    && ValueAt(s, at.0, at.1 - at.0) == r.id && ValueAt(s, at.1, at.2 - at.1) == r.operand
    && ValueAt(s, at.2, at.3 - at.2) == r.additive
  }

  lemma SerialParts(r: Record)
    requires Valid(r)
    ensures var s, at := Serial(r), Layout(r.srctype, r.flags, |r.sources|);
            && |s| == at.4 && |s| >= 4 && s[0] == r.srctype && s[1] == r.flags
            && s[2..] == SourceField(r) + s[at.0..]
            && s[at.0..] == Field(r.id, IdWidth(r.flags)) + s[at.1..]
            && s[at.1..] == Field(r.operand, OperandWidth(r.srctype, r.flags)) + s[at.2..]
            && s[at.2..] == Field(r.additive, AdditiveWidth(r.flags)) + s[at.3..]
            && s[at.3..] == ListField(r)
  {
    SerialFields(r, []);
    ValidFacts(r);
    assert Serial(r) == Serial(r) + [] && ListField(r) == ListField(r) + [];
    WidthsAre(r.srctype, r.flags, |r.sources|);
    SourceBack(r, []);
    var at := Layout(r.srctype, r.flags, |r.sources|);
    hide *;
    Cut(Serial(r), [r.srctype, r.flags], SourceField(r), Field(r.id, IdWidth(r.flags)),
      Field(r.operand, OperandWidth(r.srctype, r.flags)), Field(r.additive, AdditiveWidth(r.flags)), ListField(r),
      at.0, at.1, at.2, at.3);
  }

  lemma SerialLayout(r: Record)
    requires Valid(r)
    ensures Laid(Serial(r), r)
  {
    SerialParts(r);
    ValidFacts(r);
    WidthsAre(r.srctype, r.flags, |r.sources|);
    hide Serial, Valid, Field, SourceField, ListField, Offsets, Layout, IdWidth, OperandWidth, AdditiveWidth;
    hide Has, U16, U32, Signed, Bound, ValueAt;
    var s, at := Serial(r), Layout(r.srctype, r.flags, |r.sources|);
    SourceBack(r, s[at.0..]);
    FieldIs(s, at.0, r.id, IdWidth(r.flags), s[at.1..]);
    FieldIs(s, at.1, r.operand, OperandWidth(r.srctype, r.flags), s[at.2..]);
    FieldIs(s, at.2, r.additive, AdditiveWidth(r.flags), s[at.3..]);
    assert s[2] == s[2..][0];
  }

  lemma Cut(s: seq<byte>, head: seq<byte>, a: seq<byte>, b: seq<byte>, c: seq<byte>, d: seq<byte>, e: seq<byte>,
            i: nat, j: nat, k: nat, l: nat)
    requires |head| == 2 && s == head + (a + (b + (c + (d + e))))
    requires i == 2 + |a| && j == i + |b| && k == j + |c| && l == k + |d|
    ensures |s| == l + |e| && s[0] == head[0] && s[1] == head[1]
    ensures s[2..] == a + s[i..] && s[i..] == b + s[j..] && s[j..] == c + s[k..] && s[k..] == d + s[l..] && s[l..] == e
  {
    assert s[2..] == a + (b + (c + (d + e)));
    assert s[i..] == b + (c + (d + e));
    assert s[j..] == c + (d + e);
    assert s[k..] == d + e;
  }

  lemma WidthsAre(srctype: byte, flags: byte, sources: nat)
    ensures var at := Layout(srctype, flags, sources);
            && at.0 == (if Has(srctype, 0x20) then 3 else 4) && at.1 == at.0 + IdWidth(flags)
            && at.2 == at.1 + OperandWidth(srctype, flags) && at.3 == at.2 + AdditiveWidth(flags)
            && at.4 == if Has(srctype, 0x20) then at.3 + 2 * sources else at.3
  {
  }

  lemma SourceBack(r: Record, rest: seq<byte>)
    requires Valid(r)
    ensures r.Listed() <==> Has(r.srctype, 0x20)
    ensures var s := SourceField(r) + rest;
            && |SourceField(r)| == (if Has(r.srctype, 0x20) then 1 else 2)
            && ListField(r) == (if Has(r.srctype, 0x20) then Offsets(r.sources) else [])
            && (Has(r.srctype, 0x20) ==> s[0] == SourceField(r)[0])
            && if Has(r.srctype, 0x20) then s[0] as int == |r.sources| else r.sources == [Signed(U16(s))]
  {
    if !r.Listed() {
      OffsetBack(r.sources[0], rest);
    }
  }

  lemma FieldIs(s: seq<byte>, at: nat, v: nat, n: nat, rest: seq<byte>)
    requires n in {0, 1, 2, 4} && v < Bound(n) && at <= |s| && s[at..] == Field(v, n) + rest
    ensures at + n <= |s| && ValueAt(s, at, n) == v
  {
    ReadBack(v, n, rest);
    hide Field, U16, U32;
    if n == 1 {
      assert s[at] == s[at..][0];
    }
  }
}
