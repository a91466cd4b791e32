/** A whole .debug_line section: every unit's prologue, file table and program, read in two passes. */
module DwarfSection {
  import opened Base
  import opened Leb128
  import opened DwarfLines
  import opened DwarfPasses

  datatype File = File(name: seq<byte>, dir: nat, time: nat, size: nat)

  predicate Name(s: seq<byte>) {
    s != [] && 0 !in s
  }

  function EncodeNames(names: seq<seq<byte>>): seq<byte> {
    if names == [] then [] else names[0] + [0] + EncodeNames(names[1..])
  }

  function EncodeFiles(files: seq<File>): seq<byte> {
    if files == [] then []
    else files[0].name + [0] + EncodeU(files[0].dir) + EncodeU(files[0].time) + EncodeU(files[0].size)
         + EncodeFiles(files[1..])
  }

  /** A unit as section 6.2.4 lays it out; `h` leaves the numbering of files to the reader. */
  datatype Unit = Unit(version: int, isStmt: byte, h: Header, dirs: seq<seq<byte>>, files: seq<File>, ops: seq<Op>) {

    function Tables(): seq<byte> {
      EncodeNames(dirs) + [0] + EncodeFiles(files) + [0]
    }

    function Fixed(): (s: seq<byte>)
      requires h.Valid()
      ensures |s| == 5
    {
      [h.minInst, isStmt, h.lineBase % 0x100, h.lineRange, h.opcodeBase]
    }

    function Prologue(): (s: seq<byte>)
      requires h.Valid()
      ensures |s| >= 5 + |h.lengths|
    {
      Fixed() + h.lengths + Tables()
    }

    predicate Sound() {
      && h.Valid() && 0 <= version < TWO16 && AllWellFormed(h, ops)
      && (forall i :: 0 <= i < |dirs| ==> Name(dirs[i]))
      && (forall i :: 0 <= i < |files| ==> Name(files[i].name))
      && |Prologue()| + |EncodeAll(h, ops)| + 6 < TWO32
    }

    function Encoded(): (s: seq<byte>)
      requires Sound()
      ensures |s| >= 10
    {
      Le32(6 + |Prologue()| + |EncodeAll(h, ops)|) + Le16(version) + Le32(|Prologue()|) + Prologue() + EncodeAll(h, ops)
    }

    /** The header with the unit's files numbered after `start` earlier ones. */
    function HeaderAt(start: nat): (r: Header)
      ensures h.Valid() ==> r.Valid()
    {
      h.(fileStart := start, files := |files|)
    }
  }

  lemma PrologueLayout(u: Unit)
    requires u.h.Valid()
    ensures var p, n := u.Prologue(), |u.h.lengths|;
            && |p| == 5 + n + |u.Tables()| && p[0] == u.h.minInst && p[1] == u.isStmt
            && (if p[2] < 0x80 then p[2] as int else p[2] as int - 0x100) == u.h.lineBase
            && p[3] == u.h.lineRange && p[4] == u.h.opcodeBase && p[5..5 + n] == u.h.lengths && p[5 + n..] == u.Tables()
  {
    hide Unit.Tables;
    assert forall k :: 0 <= k < 5 ==> u.Prologue()[k] == u.Fixed()[k];
  }

  /** Where a unit's fields lie: its length, version and prologue length, then the prologue and the program. */
  lemma UnitLayout(u: Unit)
    requires u.Sound()
    ensures var e := u.Encoded();
            && |e| >= 10 && U32(e) == |e| - 4 && U16(e[4..]) == u.version
            && 10 + U32(e[6..]) <= |e| && e[10..10 + U32(e[6..])] == u.Prologue()
            && e[10 + U32(e[6..])..] == EncodeAll(u.h, u.ops)
  {
    var e, p, q := u.Encoded(), u.Prologue(), EncodeAll(u.h, u.ops);
    hide Unit.Prologue, EncodeAll, Le16, Le32, U16, U32;
    var a, b, c := Le32(6 + |p| + |q|), Le16(u.version), Le32(|p|);
    assert e == a + b + c + p + q;
    LayoutOf(a, b, c, p, q);
    U32Front(a, e);
    U16Of(b, e[4..]);
    U32Front(c, e[6..]);
  }

  lemma U16Of(a: seq<byte>, s: seq<byte>)
    requires |a| == 2 && a <= s
    ensures U16(s) == U16(a)
  {
  }

  lemma LayoutOf(a: seq<byte>, b: seq<byte>, c: seq<byte>, d: seq<byte>, e: seq<byte>)
    ensures var s, i, j := a + b + c + d + e, |a| + |b|, |a| + |b| + |c|;
            && a <= s && b <= s[|a|..] && c <= s[i..] && s[j..j + |d|] == d && s[j + |d|..] == e
  {
  }

  predicate AllSound(units: seq<Unit>) {
    forall i :: 0 <= i < |units| ==> units[i].Sound()
  }

  function EncodeUnits(units: seq<Unit>): seq<byte>
    requires AllSound(units)
  {
    if units == [] then [] else units[0].Encoded() + EncodeUnits(units[1..])
  }

  function FileCount(units: seq<Unit>): nat {
    if units == [] then 0 else |units[0].files| + FileCount(units[1..])
  }

  function LineCount(units: seq<Unit>): nat {
    if units == [] then 0 else Count(units[0].ops) + LineCount(units[1..])
  }

  function NamesOf(files: seq<File>): (s: seq<seq<byte>>)
    ensures |s| == |files|
  {
    seq(|files|, i requires 0 <= i < |files| => files[i].name)
  }

  function SectionNames(units: seq<Unit>): (s: seq<seq<byte>>)
    ensures |s| == FileCount(units)
  {
    if units == [] then [] else NamesOf(units[0].files) + SectionNames(units[1..])
  }

  /** The rows of all units, their files numbered through. */
  function SectionRows(units: seq<Unit>, start: nat): seq<Row>
    requires AllSound(units)
  {
    if units == [] then []
    else Rows(units[0].HeaderAt(start), Reset(), units[0].ops) + SectionRows(units[1..], start + |units[0].files|)
  }

  /** The same from the DWARF 2 machine. */
  function SectionMatrix(units: seq<Unit>, start: nat): seq<Row>
    requires AllSound(units)
  {
    if units == [] then []
    else
      DwarfRows(units[0].HeaderAt(start), Start(), units[0].ops) + SectionMatrix(units[1..], start + |units[0].files|)
  }

  lemma {:induction false} SectionCountBounds(units: seq<Unit>, start: nat)
    requires AllSound(units)
    ensures |SectionRows(units, start)| <= LineCount(units)
  {
    if units != [] {
      CountBounds(units[0].HeaderAt(start), Reset(), units[0].ops);
      SectionCountBounds(units[1..], start + |units[0].files|);
    }
  }

  /** Renumbering files changes neither what is well formed nor the bytes. */
  lemma {:induction false} Renumbered(u: Unit, start: nat, ops: seq<Op>)
    requires u.h.Valid() && AllWellFormed(u.h, ops)
    ensures AllWellFormed(u.HeaderAt(start), ops) && EncodeAll(u.HeaderAt(start), ops) == EncodeAll(u.h, ops)
  {
    if ops != [] {
      Renumbered(u, start, ops[1..]);
      RenumberedOne(u, start, ops[0]);
      hide WellFormed, Encode;
      forall i | 0 <= i < |ops| ensures WellFormed(u.HeaderAt(start), ops[i]) {
        assert i > 0 ==> ops[i] == ops[1..][i - 1];
      }
    }
  }

  lemma RenumberedOne(u: Unit, start: nat, op: Op)
    requires u.h.Valid() && WellFormed(u.h, op)
    ensures WellFormed(u.HeaderAt(start), op) && Encode(u.HeaderAt(start), op) == Encode(u.h, op)
  {
    hide EncodeU, EncodeS, EncodeArgs, Extended;
  }

  /** No unit has a row carrying a drift. */
  predicate DriftFree(units: seq<Unit>)
    requires AllSound(units)
  {
    forall i :: 0 <= i < |units| ==> NoDrift(units[i].h, Drift(0, 0), units[i].ops)
  }

  lemma DriftFreeFirst(units: seq<Unit>)
    requires AllSound(units) && units != []
    ensures DriftFree(units) <==> NoDrift(units[0].h, Drift(0, 0), units[0].ops) && DriftFree(units[1..])
  {
  }

  lemma UnitAgrees(u: Unit, start: nat)
    requires u.Sound()
    ensures var x, y := Rows(u.HeaderAt(start), Reset(), u.ops), DwarfRows(u.HeaderAt(start), Start(), u.ops);
            |x| == |y| && (x == y <==> NoDrift(u.h, Drift(0, 0), u.ops))
  {
    hide WellFormed, NoDrift, Rows, DwarfRows, Drifted;
    Renumbered(u, start, u.ops);
    UnitIsDwarf(u.HeaderAt(start), u.ops);
    NoDriftRenumbered(u, start, Drift(0, 0), u.ops);
  }

  /** The section's table is the DWARF 2 matrix exactly when no unit has a row carrying a drift. */
  lemma {:induction false} SectionIsDwarf(units: seq<Unit>, start: nat)
    requires AllSound(units)
    ensures |SectionRows(units, start)| == |SectionMatrix(units, start)|
    ensures SectionRows(units, start) == SectionMatrix(units, start)
            <==> DriftFree(units)
  {
    hide *;
    if units == [] {
      SectionNone(start);
    } else {
      SectionFirst(units, start);
      DriftFreeFirst(units);
      UnitAgrees(units[0], start);
      SectionIsDwarf(units[1..], start + |units[0].files|);
    }
  }

  lemma SectionNone(start: nat)
    ensures SectionRows([], start) == SectionMatrix([], start) && DriftFree([])
  {
  }

  lemma HeaderSound(u: Unit, start: nat)
    requires u.Sound()
    ensures u.HeaderAt(start).Valid()
  {
  }

  lemma SoundRest(units: seq<Unit>)
    requires AllSound(units) && units != []
    ensures units[0].Sound() && AllSound(units[1..])
  {
    hide Unit.Sound;
  }

  lemma FirstRows(units: seq<Unit>, start: nat)
    requires AllSound(units) && units != [] && units[0].HeaderAt(start).Valid() && AllSound(units[1..])
    ensures SectionRows(units, start)
            == Rows(units[0].HeaderAt(start), Reset(), units[0].ops) + SectionRows(units[1..], start + |units[0].files|)
    ensures SectionMatrix(units, start)
            == DwarfRows(units[0].HeaderAt(start), Start(), units[0].ops)
               + SectionMatrix(units[1..], start + |units[0].files|)
  {
    hide Unit.Sound, Unit.HeaderAt, Header.Valid, AllSound, Rows, DwarfRows;
  }

  /** The first unit against the rest. */
  lemma SectionFirst(units: seq<Unit>, start: nat)
    requires AllSound(units) && units != []
    ensures units[0].Sound() && AllSound(units[1..]) && units[0].HeaderAt(start).Valid()
    ensures var u, next := units[0], start + |units[0].files|;
            var x, y := Rows(u.HeaderAt(start), Reset(), u.ops), DwarfRows(u.HeaderAt(start), Start(), u.ops);
            var a, b := SectionRows(units[1..], next), SectionMatrix(units[1..], next);
            && |SectionRows(units, start)| == |x| + |a| && |SectionMatrix(units, start)| == |y| + |b|
            && (|x| == |y| ==> (SectionRows(units, start) == SectionMatrix(units, start) <==> x == y && a == b))
  {
    hide *;
    SoundRest(units);
    HeaderSound(units[0], start);
    FirstRows(units, start);
    var u, next := units[0], start + |units[0].files|;
    var x, y := Rows(u.HeaderAt(start), Reset(), u.ops), DwarfRows(u.HeaderAt(start), Start(), u.ops);
    if |x| == |y| {
      BothParts(x, SectionRows(units[1..], next), y, SectionMatrix(units[1..], next));
    }
  }

  lemma BothParts<T>(x: seq<T>, a: seq<T>, y: seq<T>, b: seq<T>)
    requires |x| == |y|
    ensures x + a == y + b <==> x == y && a == b
  {
    assert (x + a)[..|x|] == x && (x + a)[|x|..] == a;
    assert (y + b)[..|y|] == y && (y + b)[|y|..] == b;
  }

  lemma {:induction false} NoDriftRenumbered(u: Unit, start: nat, d: Drift, ops: seq<Op>)
    requires u.h.Valid()
    ensures NoDrift(u.HeaderAt(start), d, ops) == NoDrift(u.h, d, ops)
    decreases |ops|
  {
    if ops != [] {
      assert AddressError(u.HeaderAt(start)) == AddressError(u.h);
      NoDriftRenumbered(u, start, DriftStep(d, ops[0]), ops[1..]);
    }
  }

  // The prologue.

  /** A NUL-terminated string and the bytes after it. */
  method ReadName(stream: seq<byte>, ghost name: seq<byte>, ghost rest: seq<byte>) returns (s: seq<byte>, p: seq<byte>)
    requires Name(name) && stream == name + [0] + rest
    ensures s == name && p == rest
  {
    var n := 0;
    assert forall i :: 0 <= i < |name| ==> name[i] in name && stream[i] == name[i];
    while stream[n] != 0
      invariant n <= |name|
      decreases |name| - n
    {
      assert n < |name|;
      n := n + 1;
    }
    s, p := stream[..n], stream[n + 1..];
  }

  /** A LEB128 field, whatever its value. */
  method SkipField(stream: seq<byte>, ghost v: nat, ghost rest: seq<byte>) returns (p: seq<byte>)
    requires stream == EncodeU(v) + rest
    ensures p == rest
  {
    p := stream;
    ghost var w := v;
    while p != [] && p[0] >= 0x80
      invariant p == EncodeU(w) + rest
      decreases w
    {
      assert EncodeU(w)[1..] == EncodeU(w / 0x80);
      p := p[1..];
      w := w / 0x80;
    }
    if p != [] {
      p := p[1..];
    }
  }

  /** Past the include directories and their terminator. */
  method SkipDirs(stream: seq<byte>, ghost dirs: seq<seq<byte>>, ghost rest: seq<byte>) returns (p: seq<byte>)
    requires forall i :: 0 <= i < |dirs| ==> Name(dirs[i])
    requires stream == EncodeNames(dirs) + [0] + rest
    ensures p == rest
  {
    p := stream;
    ghost var done: nat := 0;
    forall i | 0 <= i < |dirs| ensures dirs[i][0] != 0 {
      assert dirs[i][0] in dirs[i];
    }
    while p != [] && p[0] != 0
      invariant done <= |dirs| && p == EncodeNames(dirs[done..]) + [0] + rest
      decreases |dirs| - done
    {
      assert dirs[done..][1..] == dirs[done + 1..];
      assert p == dirs[done] + [0] + (EncodeNames(dirs[done + 1..]) + [0] + rest);
      var _, q := ReadName(p, dirs[done], EncodeNames(dirs[done + 1..]) + [0] + rest);
      p := q;
      done := done + 1;
    }
    if p != [] {
      p := p[1..];
    }
  }

  /** One entry of the file table. */
  method ReadFile(stream: seq<byte>, ghost f: File, ghost rest: seq<byte>) returns (name: seq<byte>, p: seq<byte>)
    requires Name(f.name)
    requires stream == f.name + [0] + EncodeU(f.dir) + EncodeU(f.time) + EncodeU(f.size) + rest
    ensures name == f.name && p == rest
  {
    hide EncodeU;
    ghost var afterTime := EncodeU(f.size) + rest;
    ghost var afterDir := EncodeU(f.time) + afterTime;
    assert stream == f.name + [0] + (EncodeU(f.dir) + afterDir);
    name, p := ReadName(stream, f.name, EncodeU(f.dir) + afterDir);
    p := SkipField(p, f.dir, afterDir);
    p := SkipField(p, f.time, afterTime);
    p := SkipField(p, f.size, rest);
  }

  predicate AllNamed(files: seq<File>) {
    forall i :: 0 <= i < |files| ==> Name(files[i].name)
  }

  /** The stream after `done` entries of the table. */
  ghost predicate AtEntry(p: seq<byte>, files: seq<File>, done: nat, rest: seq<byte>): (at: bool)
    ensures at ==> done <= |files| && p != [] && (p[0] != 0 <==> done < |files|)
  {
    && done <= |files| && p != [] && p == EncodeFiles(files[done..]) + ([0] + rest)
    && (p[0] != 0 <==> done < |files|)
  }

  /** The table stops at its terminator: a name does not start with NUL. */
  lemma EntryOrEnd(p: seq<byte>, files: seq<File>, done: nat, rest: seq<byte>)
    requires AllNamed(files) && done <= |files| && p == EncodeFiles(files[done..]) + ([0] + rest)
    ensures AtEntry(p, files, done, rest)
  {
  }

  method NextFile(stream: seq<byte>, ghost files: seq<File>, ghost done: nat, ghost rest: seq<byte>)
    returns (name: seq<byte>, p: seq<byte>)
    requires AllNamed(files) && AtEntry(stream, files, done, rest) && stream[0] != 0
    ensures done < |files| && name == files[done].name && AtEntry(p, files, done + 1, rest)
  {
    hide EncodeU;
    ghost var f, after := files[done], EncodeFiles(files[done + 1..]) + ([0] + rest);
    assert files[done..][1..] == files[done + 1..];
    assert stream == f.name + [0] + EncodeU(f.dir) + EncodeU(f.time) + EncodeU(f.size) + after;
    name, p := ReadFile(stream, f, after);
    EntryOrEnd(p, files, done + 1, rest);
  }

  method SkipUnitDirs(unit: seq<byte>, opcodeBase: byte, ghost u: Unit, ghost rest: seq<byte>) returns (p: seq<byte>)
    requires u.Sound() && opcodeBase >= 1 && |unit| >= 14 + opcodeBase as int
    requires unit[14 + opcodeBase as int..] == u.Tables() + rest
    ensures AllNamed(u.files) && AtEntry(p, u.files, 0, rest)
  {
    hide EncodeNames, EncodeFiles, Name, WellFormed, Header.Valid, AtEntry;
    p := unit[14 + opcodeBase as int..];
    Regroup(EncodeNames(u.dirs) + [0], EncodeFiles(u.files), [0], rest);
    p := SkipDirs(p, u.dirs, EncodeFiles(u.files) + ([0] + rest));
    assert u.files[0..] == u.files;
    EntryOrEnd(p, u.files, 0, rest);
  }

  lemma Regroup(a: seq<byte>, b: seq<byte>, c: seq<byte>, d: seq<byte>)
    ensures a + b + c + d == a + (b + (c + d))
  {
  }

  method CountUnitFiles(unit: seq<byte>, opcodeBase: byte, ghost u: Unit, ghost rest: seq<byte>) returns (count: nat)
    requires u.Sound() && opcodeBase >= 1 && |unit| >= 14 + opcodeBase as int
    requires unit[14 + opcodeBase as int..] == u.Tables() + rest
    ensures count == |u.files|
  {
    var p := SkipUnitDirs(unit, opcodeBase, u, rest);
    count := 0;
    while p != [] && p[0] != 0
      invariant AtEntry(p, u.files, count, rest)
      decreases |u.files| - count
    {
      var _, q := NextFile(p, u.files, count, rest);
      p := q;
      count := count + 1;
    }
  }

  /** Appends the unit's names to the global table and maps its file numbers to global ones. */
  method ParseUnitFiles(unit: seq<byte>, opcodeBase: byte, names: array<seq<byte>>, start: nat, fileMap: array<int>,
                        ghost u: Unit, ghost rest: seq<byte>)
    returns (fileCount: nat)
    requires u.Sound() && opcodeBase >= 1 && |unit| >= 14 + opcodeBase as int
    requires unit[14 + opcodeBase as int..] == u.Tables() + rest
    requires start + |u.files| <= names.Length < 0x100
    requires fileMap.Length == 0x100 && forall i :: 0 <= i < 0x100 ==> fileMap[i] == 0
    modifies names, fileMap
    ensures fileCount == start + |u.files|
    ensures names[..] == old(names[..start]) + NamesOf(u.files) + old(names[fileCount..])
    ensures Maps(fileMap, u.HeaderAt(start))
  {
    hide Unit.Sound, AtEntry, NamesOf;
    var p := SkipUnitDirs(unit, opcodeBase, u, rest);
    var local: nat := 0;
    fileCount := start;
    ghost var before := names[..];
    assert before == before[..start] + NamesOf(u.files[..0]) + before[start..];
    while p != [] && p[0] != 0 && local < 0x100
      invariant fileCount == start + local && AtEntry(p, u.files, local, rest) && local <= |u.files|
      invariant names[..] == before[..start] + NamesOf(u.files[..local]) + before[fileCount..]
      invariant forall i :: 0 < i < 0x100 ==> fileMap[i] == if i <= local then start + i else 0
      decreases |u.files| - local
    {
      var fname, q := NextFile(p, u.files, local, rest);
      p := q;
      if fileCount < 0x100 {
        NameStored(before, start, u.files, local);
        names[fileCount] := fname;
        fileMap[local + 1] := fileCount + 1;
        fileCount := fileCount + 1;
        local := local + 1;
      }
    }
    assert u.files[..local] == u.files;
  }

  lemma NameStored(before: seq<seq<byte>>, start: nat, files: seq<File>, local: nat)
    requires local < |files| && start + |files| <= |before|
    ensures (before[..start] + NamesOf(files[..local]) + before[start + local..])[start + local := files[local].name]
            == before[..start] + NamesOf(files[..local + 1]) + before[start + local + 1..]
  {
  }

  // The section.

  function Program(u: Unit): seq<byte>
    requires u.Sound()
  {
    EncodeAll(u.h, u.ops)
  }

  /** Where the parts of a unit lie. */
  lemma UnitForm(u: Unit)
    requires u.Sound()
    ensures var e := u.Encoded();
            && |e| == 10 + |u.Prologue()| + |Program(u)| && |e| >= 14 + u.h.opcodeBase as int
            && U32(e) == |e| - 4 && U32(e[6..]) == |u.Prologue()|
            && e[10..15] == u.Fixed() && e[15..14 + u.h.opcodeBase as int] == u.h.lengths
            && e[14 + u.h.opcodeBase as int..] == u.Tables() + Program(u)
            && e[10 + |u.Prologue()|..] == Program(u)
  {
    hide Le16, Le32, EncodeNames, EncodeFiles, EncodeAll, WellFormed, Unit.Fixed, Unit.Tables, U32;
    var e, size, program := u.Encoded(), |u.Prologue()|, EncodeAll(u.h, u.ops);
    var a, b, c := Le32(6 + size + |program|), Le16(u.version), Le32(size);
    Parts(a, b, c, u.Prologue() + program);
    Regrouped(a + b + c, u.Fixed(), u.h.lengths, u.Tables(), program);
    Parts(a + b + c, u.Fixed(), u.h.lengths, u.Tables() + program);
    U32Front(a, e);
    U32Front(c, e[6..]);
  }

  lemma Regrouped(head: seq<byte>, a: seq<byte>, b: seq<byte>, c: seq<byte>, d: seq<byte>)
    ensures head + (a + b + c) + d == head + ((a + b + c) + d) == head + a + b + (c + d)
    ensures (head + (a + b + c) + d)[|head| + |a| + |b| + |c|..] == d
  {
  }

  lemma Parts(a: seq<byte>, b: seq<byte>, c: seq<byte>, d: seq<byte>)
    ensures var s := a + b + c + d;
            && s[..|a|] == a && s[|a|..|a| + |b|] == b && s[|a| + |b|..|a| + |b| + |c|] == c
            && s[|a| + |b|..] == c + d && s[|a| + |b| + |c|..] == d
  {
  }

  lemma U32Front(a: seq<byte>, s: seq<byte>)
    requires |a| == 4 && |s| >= 4 && s[..4] == a
    ensures U32(s) == U32(a)
  {
    assert s[0] == s[..4][0] && s[1] == s[..4][1] && s[2] == s[..4][2] && s[3] == s[..4][3];
  }

  /** The prologue fields the passes use. */
  method ReadHeader(unit: seq<byte>, start: nat, files: nat, ghost u: Unit) returns (h: Header)
    requires u.Sound() && unit == u.Encoded() && files == |u.files|
    ensures h == u.HeaderAt(start)
  {
    hide Unit.Encoded, Unit.Tables, Unit.Prologue, WellFormed, EncodeAll;
    UnitForm(u);
    var opcodeBase := unit[14];
    assert forall i :: 0 <= i < 5 ==> unit[10 + i] == u.Fixed()[i];
    assert unit[12] == u.Fixed()[2] && unit[13] == u.Fixed()[3] && unit[14] == u.Fixed()[4] && unit[10] == u.Fixed()[0];
    var lineBase: int := unit[12];
    h := Header(unit[10], if lineBase < 0x80 then lineBase else lineBase - 0x100, unit[13], opcodeBase,
      unit[15..14 + opcodeBase as int], start, files);
  }

  method CountUnit(unit: seq<byte>, ghost u: Unit) returns (files: nat, rows: nat)
    requires u.Sound() && unit == u.Encoded()
    ensures files == |u.files| && rows == Count(u.ops)
  {
    hide Unit.Encoded, Unit.Tables, Unit.Prologue, WellFormed, EncodeAll;
    UnitForm(u);
    assert unit[14] == u.Fixed()[4];
    files := CountUnitFiles(unit, unit[14], u, Program(u));
    var h := ReadHeader(unit, 0, files, u);
    Renumbered(u, 0, u.ops);
    rows := CountRows(h, unit[10 + U32(unit[6..])..], u.ops);
  }

  method FillUnit(unit: seq<byte>, lines: array<Row>, idx: nat, names: array<seq<byte>>, start: nat, ghost u: Unit)
    returns (idx': nat, start': nat)
    requires u.Sound() && unit == u.Encoded()
    requires idx + Count(u.ops) <= lines.Length && start + |u.files| <= names.Length < 0x100
    modifies lines, names
    ensures idx' == idx + |Rows(u.HeaderAt(start), Reset(), u.ops)| && idx' <= idx + Count(u.ops)
    ensures start' == start + |u.files|
    ensures Stored(old(lines[..]), lines[..], idx, Rows(u.HeaderAt(start), Reset(), u.ops))
    ensures names[..] == old(names[..start]) + NamesOf(u.files) + old(names[start'..])
  {
    hide Unit.Encoded, Unit.Tables, Unit.Prologue, WellFormed, EncodeAll, Stored, NamesOf;
    UnitForm(u);
    assert unit[14] == u.Fixed()[4];
    var fileMap := new int[0x100](_ => 0);
    start' := ParseUnitFiles(unit, unit[14], names, start, fileMap, u, Program(u));
    var h := ReadHeader(unit, start, start' - start, u);
    Renumbered(u, start, u.ops);
    idx' := FillRows(h, unit[10 + U32(unit[6..])..], lines, idx, fileMap, u.ops);
  }

  /** The bytes of the unit under the cursor, and those after it. */
  lemma FirstUnit(units: seq<Unit>, done: nat)
    requires AllSound(units) && done < |units|
    ensures var s, e := EncodeUnits(units[done..]), units[done].Encoded();
            && |s| >= |e| && U32(s) == |e| - 4 && s[..|e|] == e && s[|e|..] == EncodeUnits(units[done + 1..])
  {
  }

  /** The first pass over all units. */
  method CountAll(section: seq<byte>, ghost units: seq<Unit>) returns (rows: nat, files: nat)
    requires AllSound(units) && section == EncodeUnits(units)
    ensures rows == LineCount(units) && files == FileCount(units)
  {
    hide Unit.Encoded, Unit.Sound;
    var cursor := section;
    rows, files := 0, 0;
    ghost var done: nat := 0;
    while |cursor| >= 4
      invariant done <= |units| && cursor == EncodeUnits(units[done..])
      invariant rows + LineCount(units[done..]) == LineCount(units)
      invariant files + FileCount(units[done..]) == FileCount(units)
      decreases |units| - done
    {
      FirstUnit(units, done);
      assert units[done..][1..] == units[done + 1..];
      var totalLength := U32(cursor);
      if totalLength == 0 || 4 + totalLength > |cursor| {
        break;
      }
      var f, r := CountUnit(cursor[..4 + totalLength], units[done]);
      rows, files := rows + r, files + f;
      cursor := cursor[4 + totalLength..];
      done := done + 1;
    }
  }

  /** The state of the second pass after `done` units. */
  ghost predicate Filling(before: seq<Row>, table: seq<Row>, names: seq<seq<byte>>, units: seq<Unit>, done: nat,
                          start: nat, emitted: seq<Row>)
    requires AllSound(units)
  {
    && done <= |units|
    && start + FileCount(units[done..]) == |names| == FileCount(units)
    && names[..start] + SectionNames(units[done..]) == SectionNames(units)
    && |emitted| + LineCount(units[done..]) <= LineCount(units) <= |table|
    && emitted + SectionRows(units[done..], start) == SectionRows(units, 0)
    && Stored(before, table, 0, emitted)
  }

  lemma FillStarts(table: seq<Row>, names: seq<seq<byte>>, units: seq<Unit>)
    requires AllSound(units) && |table| == LineCount(units) && |names| == FileCount(units)
    ensures Filling(table, table, names, units, 0, 0, [])
  {
  }

  lemma FillStep(before: seq<Row>, table: seq<Row>, names: seq<seq<byte>>, units: seq<Unit>, done: nat, start: nat,
                 emitted: seq<Row>, rows: seq<Row>, table': seq<Row>, names': seq<seq<byte>>)
    requires AllSound(units) && Filling(before, table, names, units, done, start, emitted) && done < |units|
    requires units[done].HeaderAt(start).Valid()
    requires rows == Rows(units[done].HeaderAt(start), Reset(), units[done].ops) && |rows| <= Count(units[done].ops)
    requires start + |units[done].files| <= |names|
    requires Stored(table, table', |emitted|, rows)
    requires names' == names[..start] + NamesOf(units[done].files) + names[start + |units[done].files|..]
    ensures Filling(before, table', names', units, done + 1, start + |units[done].files|, emitted + rows)
  {
    hide Unit.Sound, Unit.HeaderAt, Header.Valid, NamesOf, Rows, Stored;
    var u, next := units[done], start + |units[done].files|;
    assert units[done..][1..] == units[done + 1..];
    StoredTwice(before, table, table', 0, emitted, rows);
    Joined(emitted, rows, SectionRows(units[done + 1..], next));
    assert names'[..next] == names[..start] + NamesOf(u.files);
    Joined(names[..start], NamesOf(u.files), SectionNames(units[done + 1..]));
    StoredLength(table, table', |emitted|, rows);
  }

  lemma StoredLength(before: seq<Row>, after: seq<Row>, idx: nat, rows: seq<Row>)
    requires Stored(before, after, idx, rows)
    ensures |after| == |before|
  {
  }

  lemma FillRoom(before: seq<Row>, table: seq<Row>, names: seq<seq<byte>>, units: seq<Unit>, done: nat, start: nat,
                 emitted: seq<Row>)
    requires AllSound(units) && Filling(before, table, names, units, done, start, emitted) && done < |units|
    ensures |emitted| + Count(units[done].ops) <= |table| && start + |units[done].files| <= |names|
    ensures units[done].HeaderAt(start).Valid()
  {
  }

  lemma FillEnds(before: seq<Row>, table: seq<Row>, names: seq<seq<byte>>, units: seq<Unit>, start: nat,
                 emitted: seq<Row>)
    requires AllSound(units) && Filling(before, table, names, units, |units|, start, emitted)
    ensures Stored(before, table, 0, SectionRows(units, 0)) && names == SectionNames(units)
  {
    hide Stored;
    assert emitted + [] == emitted && names[..start] == names;
  }

  /** The second pass over all units: every row and every name, in order. */
  method FillAll(section: seq<byte>, lines: array<Row>, names: array<seq<byte>>, ghost units: seq<Unit>)
    requires AllSound(units) && section == EncodeUnits(units)
    requires lines.Length == LineCount(units) && names.Length == FileCount(units) < 0x100
    modifies lines, names
    ensures Stored(old(lines[..]), lines[..], 0, SectionRows(units, 0))
    ensures names[..] == SectionNames(units)
  {
    hide Unit.Encoded, Unit.Sound, Unit.HeaderAt, Header.Valid, NamesOf, Rows, Filling, Stored;
    var cursor := section;
    var idx: nat, start: nat := 0, 0;
    ghost var done: nat, emitted: seq<Row> := 0, [];
    FillStarts(lines[..], names[..], units);
    while |cursor| >= 4
      invariant done <= |units| && cursor == EncodeUnits(units[done..]) && idx == |emitted|
      invariant Filling(old(lines[..]), lines[..], names[..], units, done, start, emitted)
      decreases |units| - done
    {
      hide EncodeUnits;
      FirstUnit(units, done);
      var totalLength := U32(cursor);
      if totalLength == 0 || 4 + totalLength > |cursor| {
        break;
      }
      ghost var u, table, named := units[done], lines[..], names[..];
      FillRoom(old(lines[..]), table, named, units, done, start, emitted);
      ghost var rows := Rows(u.HeaderAt(start), Reset(), u.ops);
      var idx', start' := FillUnit(cursor[..4 + totalLength], lines, idx, names, start, u);
      FillStep(old(lines[..]), table, named, units, done, start, emitted, rows, lines[..], names[..]);
      emitted := emitted + rows;
      idx, start := idx', start';
      cursor := cursor[4 + totalLength..];
      done := done + 1;
    }
    FillEnds(old(lines[..]), lines[..], names[..], units, start, emitted);
  }

  lemma Joined<T>(a: seq<T>, b: seq<T>, c: seq<T>)
    ensures a + (b + c) == (a + b) + c
  {
  }

  /**
   * parse_debug_line: the table holds the section's rows followed by zero rows for whatever the first pass counted but
   * the second did not append, and the file names of all units; without file names no table is built.
   */
  method ParseDebugLine(section: seq<byte>, ghost units: seq<Unit>) returns (lines: array<Row>, names: array<seq<byte>>)
    requires AllSound(units) && section == EncodeUnits(units) && FileCount(units) < 0x100
    ensures names[..] == SectionNames(units)
    ensures names.Length == 0 ==> lines.Length == 0
    ensures names.Length > 0 ==> |SectionRows(units, 0)| <= lines.Length == LineCount(units)
    ensures names.Length > 0 ==>
      lines[..] == SectionRows(units, 0) + seq(lines.Length - |SectionRows(units, 0)|, _ => ZERO_ROW)
  {
    hide SectionRows, EncodeUnits, Unit.Sound;
    lines, names := new Row[0], new seq<byte>[0];
    if |section| < 10 {
      NoUnits(units);
      return;
    }
    var rows, files := CountAll(section, units);
    if files == 0 {
      return;
    }
    names := new seq<byte>[files](_ => []);
    lines := new Row[rows](_ => ZERO_ROW);
    FillAll(section, lines, names, units);
  }

  lemma NoUnits(units: seq<Unit>)
    requires AllSound(units) && |EncodeUnits(units)| < 10
    ensures units == []
  {
  }

  // Which file a row belongs to.

  /** The name a file register stands for: the unit's own file of that number, counted from 1. */
  function NameFor(u: Unit, file: int): Option<seq<byte>> {
    if 1 <= file <= |u.files| then Some(u.files[file - 1].name) else None
  }

  /** The name that goes with row `k` of a section: the one its unit gave to the file register at that row. */
  function FileName(units: seq<Unit>, k: nat): Option<seq<byte>>
    requires AllSound(units)
  {
    if units == [] then None
    else
      var regs := RowRegs(units[0].h, Reset(), units[0].ops);
      if k < |regs| then NameFor(units[0], regs[k].file) else FileName(units[1..], k - |regs|)
  }

  /** The name that a table gives to a row's file number. */
  function NameAt(names: seq<seq<byte>>, file: int): Option<seq<byte>> {
    if 0 < file <= |names| then Some(names[file - 1]) else None
  }

  lemma StepRenumbered(u: Unit, start: nat, r: Regs, op: Op)
    requires u.h.Valid()
    ensures Step(u.HeaderAt(start), r, op).0 == Step(u.h, r, op).0
    ensures Appending(u.HeaderAt(start), r, op) == Appending(u.h, r, op)
  {
    hide Int32, Emit;
  }

  lemma {:induction false} RegsRenumbered(u: Unit, start: nat, r: Regs, ops: seq<Op>)
    requires u.h.Valid()
    ensures RowRegs(u.HeaderAt(start), r, ops) == RowRegs(u.h, r, ops)
    decreases |ops|
  {
    if ops != [] {
      StepRenumbered(u, start, r, ops[0]);
      hide Step, Appending, Unit.HeaderAt;
      RegsRenumbered(u, start, Step(u.h, r, ops[0]).0, ops[1..]);
    }
  }

  /** The rows of one unit, numbered through, name the unit's own files. */
  lemma UnitNamed(u: Unit, start: nat, names: seq<seq<byte>>, k: nat)
    requires u.h.Valid() && |names| < 0x100 && start + |u.files| <= |names|
    requires names[start..start + |u.files|] == NamesOf(u.files)
    requires k < |RowRegs(u.h, Reset(), u.ops)|
    ensures k < |Rows(u.HeaderAt(start), Reset(), u.ops)|
    ensures NameAt(names, Rows(u.HeaderAt(start), Reset(), u.ops)[k].file) ==
            NameFor(u, RowRegs(u.h, Reset(), u.ops)[k].file)
  {
    hide Rows, RowRegs;
    var h := u.HeaderAt(start);
    RowsShow(h, Reset(), u.ops);
    RegsRenumbered(u, start, Reset(), u.ops);
    var row, r := Rows(h, Reset(), u.ops)[k], RowRegs(u.h, Reset(), u.ops)[k];
    assert Shows(h, row, r);
    if 1 <= r.file <= |u.files| {
      assert names[start + r.file - 1] == names[start..start + |u.files|][r.file - 1] == NamesOf(u.files)[r.file - 1];
    }
  }

  /** In the whole table, every row names the file that its own unit gave to its file register. */
  lemma {:induction false} SectionNamed(units: seq<Unit>, start: nat, names: seq<seq<byte>>, k: nat)
    requires AllSound(units) && |names| < 0x100 && start <= |names| && names[start..] == SectionNames(units)
    requires k < |SectionRows(units, start)|
    ensures NameAt(names, SectionRows(units, start)[k].file) == FileName(units, k)
    decreases |units|
  {
    hide Unit.Sound, Unit.HeaderAt, Header.Valid, NamesOf, Rows, RowRegs, NameAt, NameFor;
    assert units != [];
    var u, next := units[0], start + |units[0].files|;
    SoundRest(units);
    HeaderSound(u, start);
    UnitValid(u);
    FirstRows(units, start);
    assert names[start..next] == names[start..][..|u.files|] == NamesOf(u.files);
    assert names[next..] == names[start..][|u.files|..] == SectionNames(units[1..]);
    RegsCount(u, start);
    var n := |RowRegs(u.h, Reset(), u.ops)|;
    if k < n {
      UnitNamed(u, start, names, k);
    } else {
      SectionNamed(units[1..], next, names, k - n);
    }
  }

  lemma UnitValid(u: Unit)
    requires u.Sound()
    ensures u.h.Valid()
  {
  }

  lemma RegsCount(u: Unit, start: nat)
    requires u.h.Valid()
    ensures u.HeaderAt(start).Valid()
    ensures |Rows(u.HeaderAt(start), Reset(), u.ops)| == |RowRegs(u.h, Reset(), u.ops)|
  {
    hide Rows, RowRegs;
    RowsShow(u.HeaderAt(start), Reset(), u.ops);
    RegsRenumbered(u, start, Reset(), u.ops);
  }
}
