/** The two byte-level passes of the debugger's line reader over one line number program. */
module DwarfPasses {
  import opened Base
  import opened Leb128
  import opened DwarfLines

  /** The first byte of an instruction tells its class and, for a standard one, its number. */
  lemma Lead(h: Header, op: Op, rest: seq<byte>)
    requires h.Valid() && WellFormed(h, op)
    ensures var s := Encode(h, op) + rest;
            && (s[0] == 0 <==> IsExtended(op))
            && (s[0] >= h.opcodeBase <==> op.Special?)
            && (0 < s[0] < h.opcodeBase ==> s[0] as int == Number(op))
            && (op.Special? ==> s[0] == op.opcode && s[1..] == rest)
  {
  }

  /** The payload of an extended instruction. */
  function Payload(op: Op): seq<byte>
    requires op.SetAddress? ==> 0 <= op.a < if op.wide then TWO32 else TWO16
    requires op.SetSegment? ==> 0 <= op.s < if op.wide then TWO32 else TWO16
  {
    match op
    case SetAddress(wide, a) => if wide then Le32(a) else Le16(a)
    case SetSegment(_, wide, s) => if wide then Le32(s) else Le16(s)
    case Unknown(_, payload) => payload
    case _ => []
  }

  function Sub(op: Op): int {
    match op
    case EndSequence => 1
    case SetAddress(_, _) => 2
    case SetSegment(sub, _, _) => sub
    case Unknown(sub, _) => sub
    case _ => 0
  }

  lemma StandardTail(h: Header, op: Op, rest: seq<byte>)
    requires h.Valid() && WellFormed(h, op) && !IsExtended(op) && !op.Special?
    ensures (Encode(h, op) + rest)[1..] == Operands(op) + rest
  {
    hide EncodeU, EncodeS, EncodeArgs, Le16;
  }

  lemma ExtendedForm(h: Header, op: Op)
    requires h.Valid() && WellFormed(h, op) && IsExtended(op)
    ensures 0 <= Sub(op) < 0x100 && |Payload(op)| + 1 < TWO32
    ensures Encode(h, op) == Extended(Sub(op) as byte, Payload(op))
  {
    hide Extended;
  }

  lemma SubClass(h: Header, op: Op)
    requires h.Valid() && WellFormed(h, op) && IsExtended(op)
    ensures Sub(op) == 1 <==> op.EndSequence?
    ensures Sub(op) == 2 <==> op.SetAddress?
    ensures Sub(op) == 4 || Sub(op) == 0x80 <==> op.SetSegment?
    ensures op.EndSequence? ==> Payload(op) == []
  {
  }

  lemma ExtendedTail(sub: byte, payload: seq<byte>, rest: seq<byte>)
    requires |payload| + 1 < TWO32
    ensures LoopU((Extended(sub, payload) + rest)[1..], 0, 0) == Some((|payload| + 1, [sub] + payload + rest))
  {
    hide EncodeU, LoopU;
    assert (Extended(sub, payload) + rest)[1..] == EncodeU(|payload| + 1) + ([sub] + payload + rest);
    DecodeU(|payload| + 1, [sub] + payload + rest);
  }

  /** The length, the sub-opcode and the payload of an extended instruction; the length then excludes the sub-opcode. */
  method OpenExtended(h: Header, stream: seq<byte>, ghost op: Op, ghost rest: seq<byte>)
    returns (len: int, sub: byte, p: seq<byte>)
    requires h.Valid() && WellFormed(h, op) && IsExtended(op)
    requires stream == (Encode(h, op) + rest)[1..]
    ensures len == |Payload(op)| && sub as int == Sub(op) && p == Payload(op) + rest
  {
    hide LoopU, Payload, Sub, Encode, Extended;
    ExtendedForm(h, op);
    ExtendedTail(Sub(op) as byte, Payload(op), rest);
    len, p := ReadULEB(stream);
    sub := p[0];
    p := p[1..];
    len := (len - 1) % TWO32;
  }

  /** The operands of a standard opcode this reader does not know. */
  method SkipArgs(n: nat, stream: seq<byte>, ghost args: seq<int>, ghost rest: seq<byte>) returns (p: seq<byte>)
    requires U32s(args) && |args| == n && stream == EncodeArgs(args) + rest
    ensures p == rest
  {
    hide LoopU;
    p := stream;
    for i := 0 to n
      invariant p == EncodeArgs(args[i..]) + rest
    {
      assert p == EncodeU(args[i]) + (EncodeArgs(args[i + 1..]) + rest);
      DecodeU(args[i], EncodeArgs(args[i + 1..]) + rest);
      var _, q := ReadULEB(p);
      p := q;
    }
  }

  lemma UnsignedOperand(op: Op, rest: seq<byte>)
    requires (op.AdvancePc? || op.SetFile? || op.SetColumn?) && 0 <= op.n < TWO32
    ensures LoopU(Operands(op) + rest, 0, 0) == Some((op.n, rest))
  {
    hide LoopU, EncodeU;
    DecodeU(op.n, rest);
  }

  // Pass 1.

  method SkipStandard(h: Header, opcode: byte, stream: seq<byte>, ghost op: Op, ghost rest: seq<byte>)
    returns (p: seq<byte>)
    requires h.Valid() && WellFormed(h, op) && !IsExtended(op) && !op.Special?
    requires opcode as int == Number(op) && stream == Operands(op) + rest
    ensures p == rest
  {
    hide LoopU, LoopS, EncodeU, EncodeS, EncodeArgs;
    p := stream;
    match opcode {
      case 1 =>
      case 2 => UnsignedOperand(op, rest); var _, q := ReadULEB(p); p := q;
      case 3 => DecodeS(op.d, rest); var _, q := ReadSLEB(p); p := q;
      case 4 => UnsignedOperand(op, rest); var _, q := ReadULEB(p); p := q;
      case 5 => UnsignedOperand(op, rest); var _, q := ReadULEB(p); p := q;
      case 6 =>
      case 7 =>
      case 8 =>
      case 9 => p := p[2..];
      case _ => p := SkipArgs(h.lengths[opcode - 1] as int, p, op.args, rest);
    }
  }

  /** The first pass over a program: it consumes it exactly and counts the instructions that may append a row. */
  method CountRows(h: Header, prog: seq<byte>, ghost ops: seq<Op>) returns (total: nat)
    requires h.Valid() && AllWellFormed(h, ops) && prog == EncodeAll(h, ops)
    ensures total == Count(ops)
  {
    hide WellFormed, Encode, Operands;
    var p := prog;
    total := 0;
    ghost var done: nat := 0;
    while p != []
      invariant done <= |ops| && p == EncodeAll(h, ops[done..])
      invariant total + Count(ops[done..]) == Count(ops)
      decreases |ops| - done
    {
      ghost var op := ops[done];
      ghost var rest := EncodeAll(h, ops[done + 1..]);
      assert ops[done..][1..] == ops[done + 1..];
      assert p == Encode(h, op) + rest;
      Lead(h, op, rest);
      var opcode := p[0];
      p := p[1..];
      if opcode == 0 {
        var len, sub, q := OpenExtended(h, p, op, rest);
        p := q;
        SubClass(h, op);
        if sub == 1 {
          total := total + 1;
        } else {
          p := p[len..];
        }
      } else if opcode < h.opcodeBase {
        total := total + 1;
        StandardTail(h, op, rest);
        p := SkipStandard(h, opcode, p, op, rest);
      } else {
        total := total + 1;
      }
      done := done + 1;
    }
  }

  // Pass 2.

  /** The table with `rows` stored from `idx` on. */
  ghost predicate Stored(before: seq<Row>, after: seq<Row>, idx: nat, rows: seq<Row>) {
    && |after| == |before| && idx + |rows| <= |before|
    && after == before[..idx] + rows + before[idx + |rows|..]
  }

  /** The unit's file map holds the table's number for each of its own. */
  ghost predicate Maps(fileMap: array<int>, h: Header)
    reads fileMap
  {
    fileMap.Length == 0x100 && forall file :: 0 < file < 0x100 ==> fileMap[file] == FileOf(h, file)
  }

  method StoreRow(lines: array<Row>, idx: nat, r: Regs, end: bool, fileMap: array<int>, ghost h: Header)
    requires idx < lines.Length && Maps(fileMap, h)
    modifies lines
    ensures Stored(old(lines[..]), lines[..], idx, [Emit(h, r, end)])
  {
    lines[idx] := Row(r.segment, r.address, r.line, if 0 < r.file < 0x100 then fileMap[r.file] else r.file, end);
  }

  /** A standard opcode, from the byte after it. */
  method RunStandard(h: Header, opcode: byte, stream: seq<byte>, r: Regs, lines: array<Row>, idx: nat,
                     fileMap: array<int>, ghost op: Op, ghost rest: seq<byte>)
    returns (r': Regs, idx': nat, p: seq<byte>)
    requires h.Valid() && WellFormed(h, op) && !IsExtended(op) && !op.Special?
    requires opcode as int == Number(op) && stream == Operands(op) + rest
    requires idx < lines.Length && Maps(fileMap, h)
    modifies lines
    ensures r' == Step(h, r, op).0 && p == rest
    ensures idx' == idx + |Step(h, r, op).1| && Stored(old(lines[..]), lines[..], idx, Step(h, r, op).1)
  {
    hide LoopU, LoopS, EncodeU, EncodeS, EncodeArgs, Int32, Emit, Maps;
    r', idx', p := r, idx, stream;
    var n;
    match opcode {
      case 1 =>
        StoreRow(lines, idx, r, false, fileMap, h);
        idx' := idx + 1;
      case 2 =>
        UnsignedOperand(op, rest);
        n, p := ReadULEB(p);
        r' := r.(address := (r.address + n * h.minInst) % TWO32);
      case 3 =>
        DecodeS(op.d, rest);
        n, p := ReadSLEB(p);
        r' := r.(line := Add32(r.line, n));
      case 4 =>
        UnsignedOperand(op, rest);
        n, p := ReadULEB(p);
        r' := r.(file := Int32(n));
      case 5 =>
        UnsignedOperand(op, rest);
        n, p := ReadULEB(p);
      case 6 =>
      case 7 =>
      case 8 =>
        r' := r.(address := (r.address + (h.opcodeBase - 1) * h.minInst) % TWO32, line := Add32(r.line, h.lineRange));
      case 9 =>
        assert p[..2] == Le16(op.n);
        n := U16(p);
        p := p[2..];
        r' := r.(address := (r.address + n) % TWO32);
      case _ =>
        p := SkipArgs(h.lengths[opcode - 1] as int, p, op.args, rest);
    }
  }

  /** An extended instruction, from the byte after its zero. */
  method RunExtended(h: Header, stream: seq<byte>, r: Regs, lines: array<Row>, idx: nat, fileMap: array<int>,
                     ghost op: Op, ghost rest: seq<byte>)
    returns (r': Regs, idx': nat, p: seq<byte>)
    requires h.Valid() && WellFormed(h, op) && IsExtended(op)
    requires stream == (Encode(h, op) + rest)[1..]
    requires idx < lines.Length && Maps(fileMap, h)
    modifies lines
    ensures r' == Step(h, r, op).0 && p == rest
    ensures idx' == idx + |Step(h, r, op).1| && Stored(old(lines[..]), lines[..], idx, Step(h, r, op).1)
  {
    hide LoopU, EncodeU, Encode, Int32, Emit, Maps;
    r', idx' := r, idx;
    var len, sub, q := OpenExtended(h, stream, op, rest);
    SubClass(h, op);
    assert q[..len] == Payload(op) && q[len..] == rest;
    if sub == 1 {
      StoreRow(lines, idx, r, true, fileMap, h);
      idx' := idx + 1;
      r' := Reset();
    } else if sub == 2 {
      if len == 2 {
        r' := r.(address := U16(q));
      } else if len == 4 {
        r' := r.(address := U32(q));
      }
    } else if sub == 4 || sub == 0x80 {
      if len == 2 {
        r' := r.(segment := U16(q));
      } else if len == 4 {
        r' := r.(segment := U32(q) % TWO16);
      }
    }
    p := q[len..];
  }

  /** A special opcode. */
  method RunSpecial(h: Header, opcode: byte, r: Regs, lines: array<Row>, idx: nat, fileMap: array<int>)
    returns (r': Regs, idx': nat)
    requires h.Valid() && opcode >= h.opcodeBase
    requires idx < lines.Length && Maps(fileMap, h)
    modifies lines
    ensures r' == Step(h, r, Special(opcode as int)).0
    ensures idx' == idx + 1 && Stored(old(lines[..]), lines[..], idx, Step(h, r, Special(opcode as int)).1)
  {
    hide Int32, Emit, Maps;
    var adjusted := opcode - h.opcodeBase;
    r' := r.(line := Add32(r.line, h.lineBase + adjusted % h.lineRange as int),
      address := (r.address + adjusted / h.lineRange as int * h.minInst) % TWO32);
    StoreRow(lines, idx, r', false, fileMap, h);
    idx' := idx + 1;
  }

  lemma StoredTwice(a: seq<Row>, b: seq<Row>, c: seq<Row>, idx: nat, x: seq<Row>, y: seq<Row>)
    requires Stored(a, b, idx, x) && Stored(b, c, idx + |x|, y)
    ensures Stored(a, c, idx, x + y)
  {
  }

  /** One instruction of the second pass. */
  method RunOne(h: Header, stream: seq<byte>, r: Regs, lines: array<Row>, idx: nat, fileMap: array<int>, ghost op: Op,
                ghost rest: seq<byte>)
    returns (r': Regs, idx': nat, p: seq<byte>)
    requires h.Valid() && WellFormed(h, op) && stream == Encode(h, op) + rest
    requires idx < lines.Length && Maps(fileMap, h)
    modifies lines
    ensures r' == Step(h, r, op).0 && p == rest
    ensures idx' == idx + |Step(h, r, op).1| && Stored(old(lines[..]), lines[..], idx, Step(h, r, op).1)
  {
    hide WellFormed, Encode, Operands, Step, Stored, Maps;
    Lead(h, op, rest);
    var opcode := stream[0];
    p := stream[1..];
    if opcode == 0 {
      r', idx', p := RunExtended(h, p, r, lines, idx, fileMap, op, rest);
    } else if opcode < h.opcodeBase {
      StandardTail(h, op, rest);
      r', idx', p := RunStandard(h, opcode, p, r, lines, idx, fileMap, op, rest);
    } else {
      assert op == Special(opcode as int);
      SpecialAppends(h, r, op);
      r', idx' := RunSpecial(h, opcode, r, lines, idx, fileMap);
    }
  }

  lemma SpecialAppends(h: Header, r: Regs, op: Op)
    requires h.Valid() && op.Special?
    ensures |Step(h, r, op).1| == 1
  {
  }

  /**
   * The second pass over a program: the rows of `Rows` go into the table from `start` on, nothing else changes, and
   * although the loop stops when the table is full, no row is lost.
   */
  method FillRows(h: Header, prog: seq<byte>, lines: array<Row>, start: nat, fileMap: array<int>, ghost ops: seq<Op>)
    returns (idx: nat)
    requires h.Valid() && AllWellFormed(h, ops) && prog == EncodeAll(h, ops)
    requires start + Count(ops) <= lines.Length && Maps(fileMap, h)
    modifies lines
    ensures idx == start + |Rows(h, Reset(), ops)| && idx <= start + Count(ops)
    ensures Stored(old(lines[..]), lines[..], start, Rows(h, Reset(), ops))
  {
    hide WellFormed, Encode, Operands, Step, Rows, EncodeAll, Count, Maps;
    var p, r := prog, Reset();
    idx := start;
    assert ops[0..] == ops && ops[|ops|..] == [];
    NoOps(h, r);
    ghost var done: nat, emitted: seq<Row> := 0, [];
    ghost var all := Rows(h, Reset(), ops);
    CountBounds(h, r, ops);
    while p != [] && idx < lines.Length
      invariant done <= |ops| && p == EncodeAll(h, ops[done..])
      invariant idx == start + |emitted| && idx + Count(ops[done..]) <= start + Count(ops)
      invariant emitted + Rows(h, r, ops[done..]) == all
      invariant Stored(old(lines[..]), lines[..], start, emitted)
      decreases |ops| - done
    {
      hide Stored;
      ghost var op, table := ops[done], lines[..];
      ghost var rows := Step(h, r, op).1;
      FillUnfold(h, r, ops, done);
      r, idx, p := RunOne(h, p, r, lines, idx, fileMap, op, EncodeAll(h, ops[done + 1..]));
      StoredTwice(old(lines[..]), table, lines[..], start, emitted, rows);
      assert emitted + (rows + Rows(h, r, ops[done + 1..])) == (emitted + rows) + Rows(h, r, ops[done + 1..]);
      emitted := emitted + rows;
      done := done + 1;
    }
    CountBounds(h, r, ops[done..]);
    NothingLeft(h, r, ops[done..]);
    assert emitted + [] == emitted;
  }

  lemma NoOps(h: Header, r: Regs)
    requires h.Valid()
    ensures EncodeAll(h, []) == [] && Rows(h, r, []) == []
  {
  }

  lemma NothingLeft(h: Header, r: Regs, ops: seq<Op>)
    requires h.Valid() && AllWellFormed(h, ops)
    ensures EncodeAll(h, ops) == [] ==> Rows(h, r, ops) == []
  {
  }

  lemma FillUnfold(h: Header, r: Regs, ops: seq<Op>, done: nat)
    requires h.Valid() && AllWellFormed(h, ops) && done < |ops|
    ensures WellFormed(h, ops[done])
    ensures Rows(h, r, ops[done..]) == Step(h, r, ops[done]).1 + Rows(h, Step(h, r, ops[done]).0, ops[done + 1..])
    ensures EncodeAll(h, ops[done..]) == Encode(h, ops[done]) + EncodeAll(h, ops[done + 1..])
    ensures |Step(h, r, ops[done]).1| + Count(ops[done + 1..]) <= Count(ops[done..])
  {
    StepBounds(h, r, ops[done]);
    hide Step, Encode;
    assert ops[done..][1..] == ops[done + 1..];
  }

  lemma StepBounds(h: Header, r: Regs, op: Op)
    requires h.Valid()
    ensures |Step(h, r, op).1| <= if op.SetAddress? || op.SetSegment? || op.Unknown? then 0 else 1
  {
  }
}
