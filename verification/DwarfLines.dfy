/** The DWARF 2 line number program (section 6.2) with Open Watcom's segment opcode. */
module DwarfLines {
  import opened Base
  import opened Leb128

  /** The prologue fields a unit's program depends on; `files` names start after `fileStart` earlier ones. */
  datatype Header = Header(minInst: byte, lineBase: int, lineRange: byte, opcodeBase: byte, lengths: seq<byte>,
                           fileStart: nat, files: nat) {
    predicate Valid() {
      -0x80 <= lineBase < 0x80 && lineRange != 0 && opcodeBase >= 1 && |lengths| == opcodeBase - 1
    }
  }

  datatype Op =
    | Copy
    | AdvancePc(n: int)
    | AdvanceLine(d: int)
    | SetFile(n: int)
    | SetColumn(n: int)
    | NegateStmt
    | SetBasicBlock
    | ConstAddPc
    | FixedAdvancePc(n: int)
    | OtherStandard(opcode: int, args: seq<int>)
    | Special(opcode: int)
    | EndSequence
    | SetAddress(wide: bool, a: int)
    | SetSegment(sub: int, wide: bool, s: int)
    | Unknown(sub: int, payload: seq<byte>)

  /** The standard opcode number. */
  function Number(op: Op): int {
    match op
    case Copy => 1
    case AdvancePc(_) => 2
    case AdvanceLine(_) => 3
    case SetFile(_) => 4
    case SetColumn(_) => 5
    case NegateStmt => 6
    case SetBasicBlock => 7
    case ConstAddPc => 8
    case FixedAdvancePc(_) => 9
    case OtherStandard(opcode, _) => opcode
    case _ => 0
  }

  predicate IsExtended(op: Op) {
    op.EndSequence? || op.SetAddress? || op.SetSegment? || op.Unknown?
  }

  predicate U32s(args: seq<int>) {
    forall i :: 0 <= i < |args| ==> 0 <= args[i] < TWO32
  }

  /** Operands in range and opcodes in their class under this header; DW_LNE_define_file is not used. */
  predicate WellFormed(h: Header, op: Op) {
    match op
    case AdvancePc(n) => 0 <= n < TWO32 && 2 < h.opcodeBase
    case AdvanceLine(d) => -0x8000_0000 <= d < 0x8000_0000 && 3 < h.opcodeBase
    case SetFile(n) => 0 <= n < TWO32 && 4 < h.opcodeBase
    case SetColumn(n) => 0 <= n < TWO32 && 5 < h.opcodeBase
    case FixedAdvancePc(n) => 0 <= n < TWO16 && 9 < h.opcodeBase
    case OtherStandard(opcode, args) =>
      10 <= opcode < h.opcodeBase && h.Valid() && |args| == h.lengths[opcode - 1] && U32s(args)
    case Special(opcode) => h.opcodeBase <= opcode < 0x100 && opcode != 0
    case EndSequence => true
    case SetAddress(wide, a) => 0 <= a < if wide then TWO32 else TWO16
    case SetSegment(sub, wide, s) => (sub == 4 || sub == 0x80) && 0 <= s < if wide then TWO32 else TWO16
    case Unknown(sub, payload) =>
      0 <= sub < 0x100 && sub !in {1, 2, 3, 4, 0x80} && |payload| + 1 < TWO32
    case _ => Number(op) < h.opcodeBase
  }

  predicate AllWellFormed(h: Header, ops: seq<Op>) {
    forall i :: 0 <= i < |ops| ==> WellFormed(h, ops[i])
  }

  function EncodeArgs(args: seq<int>): seq<byte>
    requires U32s(args)
  {
    if args == [] then [] else EncodeU(args[0]) + EncodeArgs(args[1..])
  }

  function Extended(sub: byte, payload: seq<byte>): seq<byte> {
    [0] + EncodeU(|payload| + 1) + [sub] + payload
  }

  /** The operand bytes after a standard or special opcode. */
  function Operands(op: Op): seq<byte>
    requires op.AdvancePc? || op.SetFile? || op.SetColumn? ==> op.n >= 0
    requires op.FixedAdvancePc? ==> 0 <= op.n < TWO16
    requires op.OtherStandard? ==> U32s(op.args)
  {
    match op
    case AdvancePc(n) => EncodeU(n)
    case AdvanceLine(d) => EncodeS(d)
    case SetFile(n) => EncodeU(n)
    case SetColumn(n) => EncodeU(n)
    case FixedAdvancePc(n) => Le16(n)
    case OtherStandard(_, args) => EncodeArgs(args)
    case _ => []
  }

  function Encode(h: Header, op: Op): (s: seq<byte>)
    requires WellFormed(h, op)
    ensures |s| >= 1
  {
    match op
    case EndSequence => Extended(1, [])
    case SetAddress(wide, a) => Extended(2, if wide then Le32(a) else Le16(a))
    case SetSegment(sub, wide, s) => Extended(sub, if wide then Le32(s) else Le16(s))
    case Unknown(sub, payload) => Extended(sub, payload)
    case Special(opcode) => [opcode]
    case _ => [Number(op)] + Operands(op)
  }

  function EncodeAll(h: Header, ops: seq<Op>): (s: seq<byte>)
    requires AllWellFormed(h, ops)
  {
    if ops == [] then [] else Encode(h, ops[0]) + EncodeAll(h, ops[1..])
  }

  /** The instructions as bytes, with the opcode numbers of sections 7.21 and of Open Watcom. */
  lemma InstructionBytes(h: Header, op: Op)
    requires WellFormed(h, op)
    ensures var s := Encode(h, op);
            match op
            case Copy => s == [1]
            case AdvancePc(n) => s == [2] + EncodeU(n)
            case AdvanceLine(d) => s == [3] + EncodeS(d)
            case SetFile(n) => s == [4] + EncodeU(n)
            case SetColumn(n) => s == [5] + EncodeU(n)
            case NegateStmt => s == [6]
            case SetBasicBlock => s == [7]
            case ConstAddPc => s == [8]
            case FixedAdvancePc(n) => |s| == 3 && s[0] == 9 && U16(s[1..]) == n
            case OtherStandard(opcode, args) => s[0] == opcode >= 10 && s[1..] == EncodeArgs(args)
            case Special(opcode) => s == [opcode] && opcode >= h.opcodeBase
            case EndSequence => s == [0, 1, 1]
            case SetAddress(wide, a) =>
              s[0] == 0 && s[2] == 2 && if wide then s[1] == 5 && s[3..] == Le32(a) else s[1] == 3 && s[3..] == Le16(a)
            case SetSegment(sub, wide, a) =>
              && s[0] == 0 && s[2] == sub
              && if wide then s[1] == 5 && s[3..] == Le32(a) else s[1] == 3 && s[3..] == Le16(a)
            case Unknown(sub, payload) => s[0] == 0 && s == [0] + EncodeU(1 + |payload|) + [sub] + payload
  {
    SmallU(1);
    SmallU(3);
    SmallU(5);
  }

  lemma SmallU(n: nat)
    requires n < 0x80
    ensures EncodeU(n) == [n]
  {
  }

  // The state machine of section 6.2.2, with all its registers.

  datatype Machine = Machine(address: int, segment: int, file: int, line: int, column: int, isStmt: bool,
                             basicBlock: bool)

  /** A row of the matrix, without the columns the debugger drops. */
  datatype Row = Row(segment: int, address: int, line: int, file: int, endSequence: bool)

  const ZERO_ROW := Row(0, 0, 0, 0, false)

  function Start(): Machine {
    Machine(0, 0, 1, 1, 0, true, false)
  }

  /** The name a file register stands for: the unit's names are numbered after those of earlier units. */
  function FileOf(h: Header, file: int): int {
    if 0 < file < 0x100 then (if file <= h.files then h.fileStart + file else 0) else file
  }

  function RowOf(h: Header, m: Machine, end: bool): Row {
    Row(m.segment, m.address, Int32(m.line % TWO32), FileOf(h, Int32(m.file % TWO32)), end)
  }

  /** The address advance of special opcode `opcode`, in units of the minimum instruction length. */
  function AddressAdvance(h: Header, opcode: int): int
    requires h.Valid()
  {
    (opcode - h.opcodeBase) / h.lineRange as int
  }

  /** One instruction of section 6.2.5: the new registers and the rows appended. */
  function DwarfStep(h: Header, m: Machine, op: Op): (Machine, seq<Row>)
    requires h.Valid()
  {
    match op
    case Special(opcode) =>
      var m' := m.(address := (m.address + AddressAdvance(h, opcode) * h.minInst) % TWO32,
                   line := m.line + h.lineBase + (opcode - h.opcodeBase) % h.lineRange as int, basicBlock := false);
      (m', [RowOf(h, m', false)])
    case Copy => (m.(basicBlock := false), [RowOf(h, m, false)])
    case AdvancePc(n) => (m.(address := (m.address + n * h.minInst) % TWO32), [])
    case AdvanceLine(d) => (m.(line := m.line + d), [])
    case SetFile(n) => (m.(file := n), [])
    case SetColumn(n) => (m.(column := n), [])
    case NegateStmt => (m.(isStmt := !m.isStmt), [])
    case SetBasicBlock => (m.(basicBlock := true), [])
    case ConstAddPc => (m.(address := (m.address + AddressAdvance(h, 255) * h.minInst) % TWO32), [])
    case FixedAdvancePc(n) => (m.(address := (m.address + n) % TWO32), [])
    case EndSequence => (Start(), [RowOf(h, m, true)])
    case SetAddress(_, a) => (m.(address := a), [])
    case SetSegment(_, _, s) => (m.(segment := s % TWO16), [])
    case OtherStandard(_, _) => (m, [])
    case Unknown(_, _) => (m, [])
  }

  function DwarfRows(h: Header, m: Machine, ops: seq<Op>): seq<Row>
    requires h.Valid()
    decreases |ops|
  {
    if ops == [] then []
    else
      var (m', rows) := DwarfStep(h, m, ops[0]);
      rows + DwarfRows(h, m', ops[1..])
  }

  // The debugger's reader.

  datatype Regs = Regs(address: int, segment: int, line: int, file: int)

  function Reset(): Regs {
    Regs(0, 0, 1, 1)
  }

  function Emit(h: Header, r: Regs, end: bool): Row {
    Row(r.segment, r.address, r.line, FileOf(h, r.file), end)
  }

  /** Signed 32-bit addition. */
  function Add32(a: int, b: int): int {
    Int32((a + b) % TWO32)
  }

  function Step(h: Header, r: Regs, op: Op): (Regs, seq<Row>)
    requires h.Valid()
  {
    match op
    case Copy => (r, [Emit(h, r, false)])
    case AdvancePc(n) => (r.(address := (r.address + n * h.minInst) % TWO32), [])
    case AdvanceLine(d) => (r.(line := Add32(r.line, d)), [])
    case SetFile(n) => (r.(file := Int32(n % TWO32)), [])
    case ConstAddPc =>
      (r.(address := (r.address + (h.opcodeBase - 1) * h.minInst) % TWO32, line := Add32(r.line, h.lineRange)), [])
    case FixedAdvancePc(n) => (r.(address := (r.address + n) % TWO32), [])
    case Special(opcode) =>
      var adjusted := opcode - h.opcodeBase;
      var r' := r.(line := Add32(r.line, h.lineBase + adjusted % h.lineRange as int),
                   address := (r.address + adjusted / h.lineRange as int * h.minInst) % TWO32);
      (r', [Emit(h, r', false)])
    case EndSequence => (Reset(), [Emit(h, r, true)])
    case SetAddress(_, a) => (r.(address := a), [])
    case SetSegment(_, _, s) => (r.(segment := s % TWO16), [])
    case _ => (r, [])
  }

  function Rows(h: Header, r: Regs, ops: seq<Op>): seq<Row>
    requires h.Valid()
    decreases |ops|
  {
    if ops == [] then []
    else
      var (r', rows) := Step(h, r, ops[0]);
      rows + Rows(h, r', ops[1..])
  }

  // Which registers each row was appended with, and what it shows of them.

  function Appending(h: Header, r: Regs, op: Op): seq<Regs>
    requires h.Valid()
  {
    match op
    case Copy => [r]
    case EndSequence => [r]
    case Special(_) => [Step(h, r, op).0]
    case _ => []
  }

  function RowRegs(h: Header, r: Regs, ops: seq<Op>): seq<Regs>
    requires h.Valid()
    decreases |ops|
  {
    if ops == [] then [] else Appending(h, r, ops[0]) + RowRegs(h, Step(h, r, ops[0]).0, ops[1..])
  }

  /**
   * A row shows the registers as they were, with the file number counted on from those of earlier units; a number past
   * the unit's own files becomes 0, unless it has more than eight bits.
   */
  predicate Shows(h: Header, row: Row, r: Regs) {
    && row.segment == r.segment && row.address == r.address && row.line == r.line
    && (1 <= r.file <= h.files && r.file < 0x100 ==> row.file == h.fileStart + r.file)
    && (h.files < r.file < 0x100 ==> row.file == 0)
    && (r.file <= 0 || r.file >= 0x100 ==> row.file == r.file)
  }

  predicate AllShow(h: Header, rows: seq<Row>, regs: seq<Regs>) {
    |rows| == |regs| && forall i :: 0 <= i < |rows| ==> Shows(h, rows[i], regs[i])
  }

  lemma {:induction false} RowsShow(h: Header, r: Regs, ops: seq<Op>)
    requires h.Valid()
    ensures AllShow(h, Rows(h, r, ops), RowRegs(h, r, ops))
    decreases |ops|
  {
    if ops != [] {
      StepShows(h, r, ops[0]);
      hide Step, Appending, Shows;
      RowsShow(h, Step(h, r, ops[0]).0, ops[1..]);
    }
  }

  lemma StepShows(h: Header, r: Regs, op: Op)
    requires h.Valid()
    ensures AllShow(h, Step(h, r, op).1, Appending(h, r, op))
  {
    hide Int32;
  }

  /** What the first pass counts: every standard and special opcode and every end of sequence. */
  function Count(ops: seq<Op>): nat {
    if ops == [] then 0
    else (if ops[0].SetAddress? || ops[0].SetSegment? || ops[0].Unknown? then 0 else 1) + Count(ops[1..])
  }

  /** The count bounds the rows, so the second pass never runs out of room. */
  lemma {:induction false} CountBounds(h: Header, r: Regs, ops: seq<Op>)
    requires h.Valid()
    ensures |Rows(h, r, ops)| <= Count(ops)
    decreases |ops|
  {
    if ops != [] {
      CountBounds(h, Step(h, r, ops[0]).0, ops[1..]);
    }
  }

  // Where the reader agrees with the machine. DW_LNS_const_add_pc advances the address by opcode_base - 1 instead of
  // the advance of special opcode 255, and also moves the line; the errors add up until the registers are set again.

  /** How many DW_LNS_const_add_pc the address and the line registers carry. */
  datatype Drift = Drift(address: nat, line: nat)

  function DriftStep(d: Drift, op: Op): Drift {
    match op
    case ConstAddPc => Drift(d.address + 1, d.line + 1)
    case SetAddress(_, _) => d.(address := 0)
    case EndSequence => Drift(0, 0)
    case _ => d
  }

  predicate AppendsRow(op: Op) {
    op.Copy? || op.Special? || op.EndSequence?
  }

  /** Error in the address per DW_LNS_const_add_pc. */
  function AddressError(h: Header): int
    requires h.Valid()
  {
    (h.opcodeBase - 1 - AddressAdvance(h, 255)) * h.minInst
  }

  predicate Harmless(h: Header, d: Drift)
    requires h.Valid()
  {
    (d.address * AddressError(h)) % TWO32 == 0 && (d.line * h.lineRange) % TWO32 == 0
  }

  /** Wherever a row is appended the accumulated errors vanish modulo 2^32. */
  predicate NoDrift(h: Header, d: Drift, ops: seq<Op>)
    requires h.Valid()
    decreases |ops|
  {
    ops == [] || ((AppendsRow(ops[0]) ==> Harmless(h, d)) && NoDrift(h, DriftStep(d, ops[0]), ops[1..]))
  }

  /** The reader's registers are the machine's plus the drift. */
  ghost predicate Drifted(h: Header, m: Machine, r: Regs, d: Drift)
    requires h.Valid()
  {
    && 0 <= m.address < TWO32 && r.address == (m.address + d.address * AddressError(h)) % TWO32
    && r.line == Int32((m.line + d.line * h.lineRange) % TWO32)
    && r.segment == m.segment && r.file == Int32(m.file % TWO32)
  }

  lemma ModShift(a: int, d: int, n: int)
    requires n > 0
    ensures (a + d) % n == a % n <==> d % n == 0
  {
    if (a + d) % n == a % n {
      assert d == ((a + d) / n - a / n) * n;
      Split((a + d) / n - a / n, 0, n);
    }
    if d % n == 0 {
      assert a + d == a - (-(d / n)) * n;
      SameMod(a, -(d / n), n);
    }
  }

  /** Adding to both sides of a drifted register. */
  lemma ModBoth(m: int, k: int, x: int)
    ensures ((m + k) % TWO32 + x) % TWO32 == ((m + x) % TWO32 + k) % TWO32
  {
  }

  lemma Int32Mod(u: int)
    requires 0 <= u < TWO32
    ensures Int32(u) % TWO32 == u
  {
  }

  /** Signed addition is addition modulo 2^32. */
  lemma Add32Mod(u: int, x: int)
    ensures Add32(Int32(u % TWO32), x) == Int32((u + x) % TWO32)
  {
  }

  lemma RowsAgree(h: Header, m: Machine, r: Regs, d: Drift, end: bool)
    requires h.Valid() && Drifted(h, m, r, d)
    ensures RowOf(h, m, end) == Emit(h, r, end) <==> Harmless(h, d)
  {
    var e, k := d.address * AddressError(h), d.line * h.lineRange;
    ModShift(m.address, e, TWO32);
    ModShift(m.line, k, TWO32);
    Int32Mod((m.line + k) % TWO32);
    Int32Mod(m.line % TWO32);
  }

  lemma ConstDrifts(h: Header, m: Machine, r: Regs, d: Drift)
    requires h.Valid() && Drifted(h, m, r, d)
    ensures Drifted(h, DwarfStep(h, m, ConstAddPc).0, Step(h, r, ConstAddPc).0, DriftStep(d, ConstAddPc))
  {
    var e, k := d.address * AddressError(h), d.line * h.lineRange;
    var right, wrong := AddressAdvance(h, 255) * h.minInst, (h.opcodeBase - 1) * h.minInst;
    assert wrong == right + AddressError(h);
    assert (d.address + 1) * AddressError(h) == e + AddressError(h);
    assert (d.line + 1) * h.lineRange == k + h.lineRange;
    ModAdd(m.address + e, wrong, TWO32);
    ModAdd(m.address + right, e + AddressError(h), TWO32);
    Add32Mod(m.line + k, h.lineRange);
  }

  lemma SpecialDrifts(h: Header, m: Machine, r: Regs, d: Drift, opcode: int)
    requires h.Valid() && Drifted(h, m, r, d)
    ensures var (m', rows) := DwarfStep(h, m, Special(opcode));
            var (r', rows') := Step(h, r, Special(opcode));
            Drifted(h, m', r', d) && |rows| == |rows'| == 1 && (rows == rows' <==> Harmless(h, d))
  {
    var e, k := d.address * AddressError(h), d.line * h.lineRange;
    var a, l := AddressAdvance(h, opcode) * h.minInst, h.lineBase + (opcode - h.opcodeBase) % h.lineRange as int;
    ModBoth(m.address, e, a);
    Add32Mod(m.line + k, l);
    var m', r' := DwarfStep(h, m, Special(opcode)).0, Step(h, r, Special(opcode)).0;
    assert Drifted(h, m', r', d);
    hide Drifted, Harmless, RowOf, Emit;
    RowsAgree(h, m', r', d, false);
  }

  lemma MoveDrifts(h: Header, m: Machine, r: Regs, d: Drift, op: Op)
    requires h.Valid() && WellFormed(h, op) && Drifted(h, m, r, d)
    requires op.AdvancePc? || op.FixedAdvancePc? || op.AdvanceLine?
    ensures Drifted(h, DwarfStep(h, m, op).0, Step(h, r, op).0, d)
  {
    var e, k := d.address * AddressError(h), d.line * h.lineRange;
    match op {
      case AdvancePc(n) => ModBoth(m.address, e, n * h.minInst);
      case AdvanceLine(l) => Add32Mod(m.line + k, l);
      case FixedAdvancePc(n) => ModBoth(m.address, e, n);
    }
  }

  lemma SetDrifts(h: Header, m: Machine, r: Regs, d: Drift, op: Op)
    requires h.Valid() && WellFormed(h, op) && Drifted(h, m, r, d)
    requires !(op.AdvancePc? || op.FixedAdvancePc? || op.AdvanceLine? || op.ConstAddPc? || op.Special?)
    ensures Drifted(h, DwarfStep(h, m, op).0, Step(h, r, op).0, DriftStep(d, op))
  {
  }

  /** One instruction keeps the relation, and the rows it appends agree exactly when the drift is harmless. */
  lemma StepDrifts(h: Header, m: Machine, r: Regs, d: Drift, op: Op)
    requires h.Valid() && WellFormed(h, op) && Drifted(h, m, r, d)
    ensures var (m', rows) := DwarfStep(h, m, op);
            var (r', rows') := Step(h, r, op);
            && Drifted(h, m', r', DriftStep(d, op))
            && |rows| == |rows'| && (rows == rows' <==> (AppendsRow(op) ==> Harmless(h, d)))
  {
    hide WellFormed, Drifted, Harmless, RowOf, Emit, Int32, AddressAdvance;
    if op.Special? {
      SpecialDrifts(h, m, r, d, op.opcode);
    } else if op.ConstAddPc? {
      ConstDrifts(h, m, r, d);
    } else if op.AdvancePc? || op.FixedAdvancePc? || op.AdvanceLine? {
      MoveDrifts(h, m, r, d, op);
    } else {
      SetDrifts(h, m, r, d, op);
      RowsAgree(h, m, r, d, op.EndSequence?);
    }
  }

  /** The rows read are the DWARF 2 matrix exactly when no row carries a drift. */
  lemma {:induction false} RowsAreDwarf(h: Header, m: Machine, r: Regs, d: Drift, ops: seq<Op>)
    requires h.Valid() && AllWellFormed(h, ops) && Drifted(h, m, r, d)
    ensures |Rows(h, r, ops)| == |DwarfRows(h, m, ops)|
    ensures Rows(h, r, ops) == DwarfRows(h, m, ops) <==> NoDrift(h, d, ops)
    decreases |ops|
  {
    if ops != [] {
      var op := ops[0];
      StepDrifts(h, m, r, d, op);
      hide DwarfStep, Step, Drifted, WellFormed, Harmless;
      var (m', rows) := DwarfStep(h, m, op);
      var (r', rows') := Step(h, r, op);
      RowsAreDwarf(h, m', r', DriftStep(d, op), ops[1..]);
      var a, b := Rows(h, r', ops[1..]), DwarfRows(h, m', ops[1..]);
      assert (rows' + a)[..|rows'|] == rows' && (rows' + a)[|rows'|..] == a;
      assert (rows + b)[..|rows|] == rows && (rows + b)[|rows|..] == b;
    }
  }

  /** A whole unit starts without drift. */
  lemma UnitIsDwarf(h: Header, ops: seq<Op>)
    requires h.Valid() && AllWellFormed(h, ops)
    ensures |Rows(h, Reset(), ops)| == |DwarfRows(h, Start(), ops)|
    ensures Rows(h, Reset(), ops) == DwarfRows(h, Start(), ops) <==> NoDrift(h, Drift(0, 0), ops)
  {
    RowsAreDwarf(h, Start(), Reset(), Drift(0, 0), ops);
  }

  /** In particular when DW_LNS_const_add_pc is not used. */
  lemma {:induction false} WithoutConstAdd(h: Header, ops: seq<Op>)
    requires h.Valid() && forall i :: 0 <= i < |ops| ==> !ops[i].ConstAddPc?
    ensures NoDrift(h, Drift(0, 0), ops)
    decreases |ops|
  {
    if ops != [] {
      WithoutConstAdd(h, ops[1..]);
    }
  }

  /** Until 2^24 of them have accumulated, a row after DW_LNS_const_add_pc in its sequence is always wrong. */
  lemma ConstAddHarms(h: Header, d: Drift)
    requires h.Valid() && 0 < d.line < 0x100_0000
    ensures !Harmless(h, d)
  {
    assert 0 < d.line * h.lineRange <= d.line * 255;
  }
}
