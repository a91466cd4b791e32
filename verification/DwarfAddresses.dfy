/** The two halves together: what a lookup in the table of a parsed .debug_line section answers. */
module DwarfAddresses {
  import opened Base
  import opened DwarfLines
  import opened DwarfSection
  import opened DwarfLookup

  predicate RowInRange(row: Row) {
    0 <= row.address < TWO32 && 0 <= row.segment < TWO16
  }

  predicate InRange(rows: seq<Row>) {
    forall i :: 0 <= i < |rows| ==> RowInRange(rows[i])
  }

  predicate RegsInRange(r: Regs) {
    0 <= r.address < TWO32 && 0 <= r.segment < TWO16
  }

  lemma StepInRange(h: Header, r: Regs, op: Op)
    requires h.Valid() && RegsInRange(r) && WellFormed(h, op)
    ensures RegsInRange(Step(h, r, op).0) && InRange(Step(h, r, op).1)
    ensures op.EndSequence? ==> |Step(h, r, op).1| == 1 && Step(h, r, op).1[0].endSequence
  {
  }

  lemma {:induction false} RowsInRange(h: Header, r: Regs, ops: seq<Op>)
    requires h.Valid() && RegsInRange(r) && AllWellFormed(h, ops)
    ensures InRange(Rows(h, r, ops))
    decreases |ops|
  {
    if ops != [] {
      assert forall i :: 0 <= i < |ops[1..]| ==> ops[1..][i] == ops[i + 1];
      hide Step, Header.Valid, WellFormed;
      StepInRange(h, r, ops[0]);
      RowsInRange(h, Step(h, r, ops[0]).0, ops[1..]);
    }
  }

  /** Every row of a section has a 32-bit address and a 16-bit segment, as the lookup assumes. */
  lemma {:induction false} SectionInRange(units: seq<Unit>, start: nat)
    requires AllSound(units)
    ensures InRange(SectionRows(units, start))
  {
    hide Unit.Sound, Unit.HeaderAt, Header.Valid, AllWellFormed, Rows, InRange, SectionRows;
    SectionUnfold(units, start);
    if units != [] {
      var u := units[0];
      RowsInRange(u.HeaderAt(start), Reset(), u.ops);
      SectionInRange(units[1..], start + |u.files|);
      InRangeAppend(Rows(u.HeaderAt(start), Reset(), u.ops), SectionRows(units[1..], start + |u.files|));
    }
  }

  lemma InRangeAppend(a: seq<Row>, b: seq<Row>)
    requires InRange(a) && InRange(b)
    ensures InRange(a + b)
  {
  }

  /** Every program ends its last sequence. */
  predicate AllEnded(units: seq<Unit>) {
    forall i :: 0 <= i < |units| ==> Ended(units[i].ops)
  }

  predicate Ended(ops: seq<Op>) {
    ops != [] ==> ops[|ops| - 1].EndSequence?
  }

  lemma {:induction false} RowsClosed(h: Header, r: Regs, ops: seq<Op>)
    requires h.Valid() && Ended(ops)
    ensures Closed(Rows(h, r, ops)) && (ops != [] ==> Rows(h, r, ops) != [])
    decreases |ops|
  {
    if ops != [] {
      RowsClosed(h, Step(h, r, ops[0]).0, ops[1..]);
    }
  }

  lemma {:induction false} SectionClosed(units: seq<Unit>, start: nat)
    requires AllSound(units) && AllEnded(units)
    ensures Closed(SectionRows(units, start))
  {
    hide Unit.Sound, Unit.HeaderAt, Header.Valid, Rows, Ended, Closed, SectionRows;
    SectionUnfold(units, start);
    if units != [] {
      var u := units[0];
      RowsClosed(u.HeaderAt(start), Reset(), u.ops);
      SectionClosed(units[1..], start + |u.files|);
      ClosedAppend(Rows(u.HeaderAt(start), Reset(), u.ops), SectionRows(units[1..], start + |u.files|));
    }
  }

  lemma SectionUnfold(units: seq<Unit>, start: nat)
    requires AllSound(units)
    ensures units == [] ==> SectionRows(units, start) == [] && Closed([]) && InRange([])
    ensures units != [] ==> units[0].HeaderAt(start).Valid() && AllSound(units[1..])
    ensures units != [] ==> AllWellFormed(units[0].HeaderAt(start), units[0].ops)
    ensures units != [] ==>
              SectionRows(units, start) ==
              Rows(units[0].HeaderAt(start), Reset(), units[0].ops) + SectionRows(units[1..], start + |units[0].files|)
  {
    if units != [] {
      assert units[0].Sound();
      Renumbered(units[0], start, units[0].ops);
    }
    hide Unit.Encoded, Rows, EncodeAll;
  }

  lemma ClosedAppend(a: seq<Row>, b: seq<Row>)
    requires Closed(a) && Closed(b)
    ensures Closed(a + b)
  {
  }

  /** In each sequence of the rows one segment, and addresses that do not fall. */
  ghost predicate Ascending(rows: seq<Row>) {
    forall s :: s in SequencesOf(rows) ==> s.Ascends()
  }

  lemma FirstSequence(rows: seq<Row>)
    ensures var e := EndIn(rows);
            SequencesOf(rows) == if e == |rows| then []
              else [Sequence(rows[0].segment, rows[..e], rows[e])] + SequencesOf(rows[e + 1..])
  {
    hide EndIn;
  }

  lemma FirstValid(rows: seq<Row>, e: nat)
    requires InRange(rows) && e == EndIn(rows) < |rows|
    requires Sequence(rows[0].segment, rows[..e], rows[e]).Ascends()
    ensures Sequence(rows[0].segment, rows[..e], rows[e]).Valid() && InRange(rows[e + 1..])
  {
    assert RowInRange(rows[0]) && RowInRange(rows[e]);
    hide Sequence.Ascends;
  }

  lemma {:induction false} SequencesValid(rows: seq<Row>)
    requires InRange(rows) && Ascending(rows)
    ensures AllValid(SequencesOf(rows))
    decreases |rows|
  {
    hide EndIn, SequencesOf, Sequence.Valid, Sequence.Ascends, InRange;
    var e := EndIn(rows);
    FirstSequence(rows);
    if e < |rows| {
      var s, rest := Sequence(rows[0].segment, rows[..e], rows[e]), SequencesOf(rows[e + 1..]);
      assert s in SequencesOf(rows) && forall q :: q in rest ==> q in SequencesOf(rows);
      FirstValid(rows, e);
      SequencesValid(rows[e + 1..]);
    }
  }

  /** The table that the section's reader leaves. */
  function Loaded(units: seq<Unit>, pad: nat): seq<Row>
    requires AllSound(units)
  {
    SectionRows(units, 0) + Padding(pad)
  }

  /** The sequences of a section. */
  function Sequences(units: seq<Unit>): seq<Sequence>
    requires AllSound(units)
  {
    SequencesOf(SectionRows(units, 0))
  }

  lemma LoadedTable(units: seq<Unit>, pad: nat)
    requires AllSound(units) && AllEnded(units) && Ascending(SectionRows(units, 0))
    ensures Loaded(units, pad) == Table(Sequences(units), pad) && AllValid(Sequences(units))
  {
    hide SequencesOf, Table, SectionRows, Closed, InRange, AllValid;
    SectionInRange(units, 0);
    SectionClosed(units, 0);
    SplitTable(SectionRows(units, 0), pad);
    SequencesValid(SectionRows(units, 0));
  }

  /** What the lookup assumes of the addresses holds of every parsed section. */
  lemma LoadedAddresses(units: seq<Unit>, pad: nat)
    requires AllSound(units)
    ensures Addresses(Loaded(units, pad))
  {
    hide SectionRows;
    SectionInRange(units, 0);
    assert forall i :: 0 <= i < |SectionRows(units, 0)| ==> RowInRange(SectionRows(units, 0)[i]);
  }

  /**
   * A parsed section whose programs end their sequences, with ascending addresses: a lookup finds a row exactly when a
   * sequence covers the address, but for segment 0 and padding.
   */
  lemma SectionFound(units: seq<Unit>, pad: nat, segment: int, offset: int)
    requires AllSound(units) && AllEnded(units) && Ascending(SectionRows(units, 0))
    requires 0 <= segment < TWO16 && 0 <= offset < TWO32
    ensures Covered(Sequences(units), segment, offset) || (segment == 0 && pad > 0 && offset < NO_END)
            <==> exists i :: 0 <= i < |Loaded(units, pad)| && Candidate(Loaded(units, pad), segment, offset, i)
  {
    hide Loaded, Sequences, Table, Candidate, SectionRows, Ascending;
    LoadedTable(units, pad);
    FoundIff(Sequences(units), pad, segment, offset);
  }

  /** And if its sequences are disjoint, outside segment 0 the row found is the one whose range contains the address. */
  lemma SectionLookup(units: seq<Unit>, pad: nat, segment: int, offset: int, best: nat)
    requires AllSound(units) && AllEnded(units) && Ascending(SectionRows(units, 0)) && Disjoint(Sequences(units))
    requires 0 < segment < TWO16 && 0 <= offset < TWO32 && best < |Loaded(units, pad)|
    ensures Best(Loaded(units, pad), segment, offset, best)
            <==> exists j: nat, k: nat :: j < |Sequences(units)| && k < |Sequences(units)[j].rows|
                                       && best == FirstRow(Sequences(units), j) + k
                                       && Contains(Sequences(units), segment, offset, j, k)
  {
    hide Loaded, Sequences, Table, Best, Contains, FirstRow, SectionRows, Ascending, Disjoint;
    LoadedTable(units, pad);
    LookupMeans(Sequences(units), pad, segment, offset, best);
  }

  /** The name that goes with a row of the loaded table; the padding has none. */
  lemma LoadedNamed(units: seq<Unit>, pad: nat, k: nat)
    requires AllSound(units) && FileCount(units) < 0x100 && k < |Loaded(units, pad)|
    ensures NameAt(SectionNames(units), Loaded(units, pad)[k].file) ==
            if k < |SectionRows(units, 0)| then FileName(units, k) else None
  {
    hide SectionRows, SectionNames, FileName;
    if k < |SectionRows(units, 0)| {
      assert SectionNames(units)[0..] == SectionNames(units);
      SectionNamed(units, 0, SectionNames(units), k);
    }
  }

  ghost predicate HasCandidate(lines: seq<Row>, segment: int, offset: int) {
    exists i :: 0 <= i < |lines| && Candidate(lines, segment, offset, i)
  }

  /**
   * Loading a section and looking an address up in it: the line is that of the best row, and the name is that of the
   * file which the row's own unit gave to the file register there.
   */
  method Locate(section: seq<byte>, segment: int, offset: int, ghost units: seq<Unit>)
    returns (found: bool, line: int, name: Option<seq<byte>>, ghost pad: nat, ghost best: nat)
    requires AllSound(units) && section == EncodeUnits(units) && FileCount(units) < 0x100
    requires 0 <= segment < TWO16 && 0 <= offset < TWO32
    ensures FileCount(units) > 0 ==> pad == LineCount(units) - |SectionRows(units, 0)|
    ensures found <==> FileCount(units) > 0 && HasCandidate(Loaded(units, pad), segment, offset)
    ensures found ==> best < |Loaded(units, pad)| && Best(Loaded(units, pad), segment, offset, best)
    ensures found ==> line == Loaded(units, pad)[best].line
    ensures found ==> name == if best < |SectionRows(units, 0)| then FileName(units, best) else None
  {
    hide SectionRows, SectionNames, EncodeUnits, Candidate, Best, FileName;
    pad := 0;
    var lines, names := ParseDebugLine(section, units);
    if names.Length > 0 {
      pad := lines.Length - |SectionRows(units, 0)|;
      assert lines[..] == Loaded(units, pad);
      LoadedAddresses(units, pad);
    }
    found, line, name, best := AddrToLine(true, lines, names, segment, offset);
    assert found <==> HasCandidate(lines[..], segment, offset);
    assert names.Length == |SectionNames(units)| == FileCount(units);
    if found {
      LoadedNamed(units, pad, best);
    }
  }
}
