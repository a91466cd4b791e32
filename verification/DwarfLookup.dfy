/** From an address to a source line: the search over the rows of .debug_line. */
module DwarfLookup {
  import opened Base
  import opened DwarfLines

  const NO_END := 0xFFFF_FFFF

  /** The address closing the sequence of row `i`: the next end-of-sequence row's. */
  function EndAfter(lines: seq<Row>, i: nat): int
    decreases |lines| - i
  {
    if i + 1 >= |lines| then NO_END
    else if lines[i + 1].endSequence then lines[i + 1].address
    else EndAfter(lines, i + 1)
  }

  predicate Candidate(lines: seq<Row>, segment: int, offset: int, i: nat)
    requires i < |lines|
  {
    && !lines[i].endSequence && lines[i].segment == segment && lines[i].address <= offset
    && offset < EndAfter(lines, i)
  }

  /** The candidate with the highest address, the last one among equals. */
  predicate Best(lines: seq<Row>, segment: int, offset: int, best: nat)
    requires best < |lines|
  {
    && Candidate(lines, segment, offset, best)
    && forall i :: 0 <= i < |lines| && Candidate(lines, segment, offset, i) ==>
         lines[i].address < lines[best].address || (lines[i].address == lines[best].address && i <= best)
  }

  method FindEnd(lines: array<Row>, i: nat) returns (endAddr: int)
    requires i < lines.Length
    ensures endAddr == EndAfter(lines[..], i)
  {
    endAddr := NO_END;
    var j := i + 1;
    while j < lines.Length
      invariant i < j <= lines.Length && endAddr == NO_END
      invariant EndAfter(lines[..], i) == EndAfter(lines[..], j - 1)
    {
      if lines[j].endSequence {
        endAddr := lines[j].address;
        break;
      }
      j := j + 1;
    }
  }

  predicate Addresses(lines: seq<Row>) {
    forall i :: 0 <= i < |lines| ==> 0 <= lines[i].address < TWO32
  }

  /** dwarf_addr_to_line: the line and file name of the best row. */
  method AddrToLine(loaded: bool, lines: array<Row>, names: array<seq<byte>>, segment: int, offset: int)
    returns (found: bool, line: int, name: Option<seq<byte>>, ghost best: nat)
    requires 0 <= segment < TWO16 && 0 <= offset < TWO32 && Addresses(lines[..])
    ensures !found <==> !loaded || forall i :: 0 <= i < lines.Length ==> !Candidate(lines[..], segment, offset, i)
    ensures found ==> best < lines.Length && Best(lines[..], segment, offset, best) && line == lines[best].line
    ensures found ==> name == if 0 < lines[best].file <= names.Length then Some(names[lines[best].file - 1]) else None
  {
    found, line, name, best := false, 0, None, 0;
    if !loaded || lines.Length == 0 {
      return;
    }
    var bestIdx, bestAddr := -1, 0;
    for i := 0 to lines.Length
      invariant -1 <= bestIdx < i
      invariant bestIdx == -1 ==> bestAddr == 0 && forall k :: 0 <= k < i ==> !Candidate(lines[..], segment, offset, k)
      invariant bestIdx >= 0 ==> Candidate(lines[..], segment, offset, bestIdx) && bestAddr == lines[bestIdx].address
      invariant bestIdx >= 0 ==> forall k :: 0 <= k < i && Candidate(lines[..], segment, offset, k) ==>
        lines[k].address < bestAddr || (lines[k].address == bestAddr && k <= bestIdx)
    {
      assert lines[..][i] == lines[i];
      if lines[i].endSequence { continue; }
      if lines[i].segment != segment { continue; }
      if lines[i].address > offset { continue; }
      var endAddr := FindEnd(lines, i);
      if offset >= endAddr { continue; }
      if lines[i].address >= bestAddr {
        bestIdx, bestAddr := i, lines[i].address;
      }
    }
    if bestIdx < 0 {
      return;
    }
    best := bestIdx;
    found, line := true, lines[bestIdx].line;
    if 0 < lines[bestIdx].file <= names.Length {
      name := Some(names[lines[bestIdx].file - 1]);
    }
  }

  // Tables made of sequences.

  /** A contiguous run of instructions in one segment, closed by the first address past it. */
  datatype Sequence = Sequence(segment: int, rows: seq<Row>, end: Row) {
    ghost predicate Valid() {
      && 0 <= segment < TWO16 && end.endSequence && 0 <= end.address < TWO32
      && (forall i :: 0 <= i < |rows| ==> !rows[i].endSequence && 0 <= rows[i].address)
      && Ascends()
    }

    /** One segment, and addresses that do not fall. */
    ghost predicate Ascends() {
      && (forall i :: 0 <= i < |rows| ==> rows[i].segment == segment && rows[i].address <= end.address)
      && (forall i, j :: 0 <= i < j < |rows| ==> rows[i].address <= rows[j].address)
    }

    /** The half-open range of addresses it describes. */
    predicate Covers(s: int, offset: int) {
      rows != [] && segment == s && rows[0].address <= offset < end.address
    }

    /** Where row `k`'s range ends: at the next row, or at the end of the sequence. */
    function Next(k: nat): int
      requires k < |rows|
    {
      if k + 1 < |rows| then rows[k + 1].address else end.address
    }
  }

  ghost predicate AllValid(seqs: seq<Sequence>) {
    forall j :: 0 <= j < |seqs| ==> seqs[j].Valid()
  }

  /** No address lies in two sequences. */
  ghost predicate Disjoint(seqs: seq<Sequence>) {
    forall j, k, s, a :: 0 <= j < |seqs| && 0 <= k < |seqs| && seqs[j].Covers(s, a) && seqs[k].Covers(s, a) ==> j == k
  }

  /** The table the reader leaves: the sequences' rows, then `pad` zero rows. */
  function Table(seqs: seq<Sequence>, pad: nat): seq<Row> {
    if seqs == [] then Padding(pad) else seqs[0].rows + [seqs[0].end] + Table(seqs[1..], pad)
  }

  /** Where sequence `j` starts in the table. */
  function FirstRow(seqs: seq<Sequence>, j: nat): nat
    requires j <= |seqs|
  {
    if j == 0 then 0 else |seqs[0].rows| + 1 + FirstRow(seqs[1..], j - 1)
  }

  lemma {:induction false} PadEnds(pad: nat, i: nat)
    requires i < pad
    ensures EndAfter(Table([], pad), i) == NO_END
    decreases pad - i
  {
    if i + 1 < pad {
      PadEnds(pad, i + 1);
    }
  }

  lemma {:induction false} EndInFront(rows: seq<Row>, end: Row, rest: seq<Row>, i: nat)
    requires i < |rows| && end.endSequence && forall k :: 0 <= k < |rows| ==> !rows[k].endSequence
    ensures EndAfter(rows + [end] + rest, i) == end.address
    decreases |rows| - i
  {
    if i + 1 < |rows| {
      EndInFront(rows, end, rest, i + 1);
    }
  }

  lemma {:induction false} EndBehind(front: seq<Row>, rest: seq<Row>, i: nat)
    requires i < |rest|
    ensures EndAfter(front + rest, |front| + i) == EndAfter(rest, i)
    decreases |rest| - i
  {
    if i + 1 < |rest| {
      EndBehind(front, rest, i + 1);
    }
  }

  lemma SequenceShape(s: Sequence)
    requires s.Valid()
    ensures s.end.endSequence && forall k :: 0 <= k < |s.rows| ==> !s.rows[k].endSequence
  {
  }

  /** Row `k` of sequence `j`. */
  lemma {:induction false} RowOfSequence(seqs: seq<Sequence>, pad: nat, j: nat, k: nat)
    requires AllValid(seqs) && j < |seqs| && k < |seqs[j].rows|
    ensures FirstRow(seqs, j) + k < |Table(seqs, pad)|
    ensures Table(seqs, pad)[FirstRow(seqs, j) + k] == seqs[j].rows[k]
    ensures EndAfter(Table(seqs, pad), FirstRow(seqs, j) + k) == seqs[j].end.address
  {
    hide Sequence.Valid, Sequence.Ascends, Table, EndAfter, FirstRow;
    TableStep(seqs, pad);
    FirstRowStep(seqs, j);
    var front, rest := seqs[0].rows + [seqs[0].end], Table(seqs[1..], pad);
    if j == 0 {
      SequenceShape(seqs[0]);
      EndInFront(seqs[0].rows, seqs[0].end, rest, k);
    } else {
      assert seqs[1..][j - 1] == seqs[j];
      RowOfSequence(seqs[1..], pad, j - 1, k);
      EndBehind(front, rest, FirstRow(seqs[1..], j - 1) + k);
    }
  }

  lemma TableStep(seqs: seq<Sequence>, pad: nat)
    requires seqs != []
    ensures Table(seqs, pad) == seqs[0].rows + [seqs[0].end] + Table(seqs[1..], pad)
  {
  }

  lemma FirstRowStep(seqs: seq<Sequence>, j: nat)
    requires j <= |seqs|
    ensures FirstRow(seqs, j) == if j == 0 then 0 else |seqs[0].rows| + 1 + FirstRow(seqs[1..], j - 1)
  {
  }

  /** Every row of the table is a row of a sequence, the end of one, or padding. */
  lemma {:induction false} RowFrom(seqs: seq<Sequence>, pad: nat, i: nat) returns (j: nat, k: nat)
    requires AllValid(seqs) && i < |Table(seqs, pad)|
    ensures |Table(seqs, pad)| == FirstRow(seqs, |seqs|) + pad
    ensures j <= |seqs| && i == FirstRow(seqs, j) + k
    ensures j < |seqs| ==> k <= |seqs[j].rows| && (k == |seqs[j].rows| ==> Table(seqs, pad)[i] == seqs[j].end)
    ensures j == |seqs| ==> Table(seqs, pad)[i] == ZERO_ROW && EndAfter(Table(seqs, pad), i) == NO_END
  {
    if seqs == [] {
      PadEnds(pad, i);
      return 0, i;
    }
    var front, rest := seqs[0].rows + [seqs[0].end], Table(seqs[1..], pad);
    TableLength(seqs, pad);
    if i < |front| {
      return 0, i;
    }
    j, k := RowFrom(seqs[1..], pad, i - |front|);
    EndBehind(front, rest, i - |front|);
    j := j + 1;
  }

  lemma {:induction false} TableLength(seqs: seq<Sequence>, pad: nat)
    ensures |Table(seqs, pad)| == FirstRow(seqs, |seqs|) + pad
  {
    if seqs != [] {
      TableLength(seqs[1..], pad);
    }
  }

  /** The rows a search considers: those of covering sequences at or below the offset, and padding when segment is 0. */
  lemma CandidateInSequence(seqs: seq<Sequence>, pad: nat, segment: int, offset: int, j: nat, k: nat)
    requires AllValid(seqs) && j < |seqs| && k < |seqs[j].rows|
    ensures FirstRow(seqs, j) + k < |Table(seqs, pad)|
    ensures Candidate(Table(seqs, pad), segment, offset, FirstRow(seqs, j) + k)
            <==> seqs[j].Covers(segment, offset) && seqs[j].rows[k].address <= offset
  {
    hide Table, FirstRow, EndAfter;
    RowOfSequence(seqs, pad, j, k);
    assert seqs[j].Valid();
  }

  lemma CandidateInPadding(seqs: seq<Sequence>, pad: nat, segment: int, offset: int, i: nat)
    requires AllValid(seqs) && 0 <= offset < TWO32
    requires FirstRow(seqs, |seqs|) <= i < FirstRow(seqs, |seqs|) + pad
    ensures i < |Table(seqs, pad)| && Table(seqs, pad)[i] == ZERO_ROW
    ensures Candidate(Table(seqs, pad), segment, offset, i) <==> segment == 0 && offset < NO_END
  {
    PaddingRow(seqs, pad, i);
    hide Table, FirstRow, EndAfter;
  }

  lemma {:induction false} PaddingRow(seqs: seq<Sequence>, pad: nat, i: nat)
    requires AllValid(seqs) && FirstRow(seqs, |seqs|) <= i < FirstRow(seqs, |seqs|) + pad
    ensures i < |Table(seqs, pad)| && Table(seqs, pad)[i] == ZERO_ROW && EndAfter(Table(seqs, pad), i) == NO_END
  {
    TableLength(seqs, pad);
    if seqs == [] {
      PadEnds(pad, i);
    } else {
      var front := seqs[0].rows + [seqs[0].end];
      PaddingRow(seqs[1..], pad, i - |front|);
      EndBehind(front, Table(seqs[1..], pad), i - |front|);
    }
  }

  /** A candidate is a row of a covering sequence, or padding. */
  lemma CandidateFrom(seqs: seq<Sequence>, pad: nat, segment: int, offset: int, i: nat) returns (j: nat, k: nat)
    requires AllValid(seqs) && 0 <= offset < TWO32
    requires i < |Table(seqs, pad)| && Candidate(Table(seqs, pad), segment, offset, i)
    ensures j <= |seqs| && i == FirstRow(seqs, j) + k
    ensures j == |seqs| ==> segment == 0 && k < pad && offset < NO_END
    ensures j < |seqs| ==> k < |seqs[j].rows| && seqs[j].Covers(segment, offset) && seqs[j].rows[k].address <= offset
  {
    j, k := RowFrom(seqs, pad, i);
    if j < |seqs| {
      assert seqs[j].Valid();
      hide Table, FirstRow, EndAfter;
      if k < |seqs[j].rows| {
        CandidateInSequence(seqs, pad, segment, offset, j, k);
      }
    }
  }

  /** Some sequence covers the address. */
  ghost predicate Covered(seqs: seq<Sequence>, segment: int, offset: int) {
    exists j :: 0 <= j < |seqs| && seqs[j].Covers(segment, offset)
  }

  /**
   * The search finds a row exactly when a sequence covers the address; but in segment 0 the padding answers for every
   * address but the last.
   */
  lemma FoundIff(seqs: seq<Sequence>, pad: nat, segment: int, offset: int)
    requires AllValid(seqs) && 0 <= segment < TWO16 && 0 <= offset < TWO32
    ensures Covered(seqs, segment, offset) || (segment == 0 && pad > 0 && offset < NO_END)
            <==> exists i :: 0 <= i < |Table(seqs, pad)| && Candidate(Table(seqs, pad), segment, offset, i)
  {
    hide Candidate, Table, FirstRow;
    if Covered(seqs, segment, offset) {
      var j :| 0 <= j < |seqs| && seqs[j].Covers(segment, offset);
      CandidateInSequence(seqs, pad, segment, offset, j, 0);
    }
    if segment == 0 && pad > 0 && offset < NO_END {
      CandidateInPadding(seqs, pad, 0, offset, FirstRow(seqs, |seqs|));
    }
    forall i | 0 <= i < |Table(seqs, pad)| && Candidate(Table(seqs, pad), segment, offset, i)
      ensures Covered(seqs, segment, offset) || (segment == 0 && pad > 0 && offset < NO_END)
    {
      var j, k := CandidateFrom(seqs, pad, segment, offset, i);
    }
  }

  /** Outside segment 0 the search finds a row exactly when a sequence covers the address. */
  lemma FoundIffCovered(seqs: seq<Sequence>, pad: nat, segment: int, offset: int)
    requires AllValid(seqs) && 0 < segment < TWO16 && 0 <= offset < TWO32
    ensures Covered(seqs, segment, offset)
            <==> exists i :: 0 <= i < |Table(seqs, pad)| && Candidate(Table(seqs, pad), segment, offset, i)
  {
    hide Candidate, Table, FirstRow;
    FoundIff(seqs, pad, segment, offset);
  }

  /** Row `k` of sequence `j` is the one whose half-open range contains the address. */
  ghost predicate Contains(seqs: seq<Sequence>, segment: int, offset: int, j: nat, k: nat)
    requires j < |seqs| && k < |seqs[j].rows|
  {
    seqs[j].segment == segment && seqs[j].rows[k].address <= offset < seqs[j].Next(k)
  }

  /** The best row outside the padding has the address in its range. */
  lemma BestContains(seqs: seq<Sequence>, pad: nat, segment: int, offset: int, j: nat, k: nat)
    requires AllValid(seqs) && 0 <= offset < TWO32 && j < |seqs| && k < |seqs[j].rows|
    requires FirstRow(seqs, j) + k < |Table(seqs, pad)|
    requires Best(Table(seqs, pad), segment, offset, FirstRow(seqs, j) + k)
    ensures Contains(seqs, segment, offset, j, k)
  {
    hide Candidate, Table, FirstRow, EndAfter;
    assert seqs[j].Valid();
    CandidateInSequence(seqs, pad, segment, offset, j, k);
    RowOfSequence(seqs, pad, j, k);
    if k + 1 < |seqs[j].rows| {
      CandidateInSequence(seqs, pad, segment, offset, j, k + 1);
      RowOfSequence(seqs, pad, j, k + 1);
    }
  }

  /** Only one row's range contains an address. */
  lemma ContainsUnique(seqs: seq<Sequence>, segment: int, offset: int, j: nat, k: nat, j': nat, k': nat)
    requires AllValid(seqs) && Disjoint(seqs)
    requires j < |seqs| && k < |seqs[j].rows| && j' < |seqs| && k' < |seqs[j'].rows|
    requires Contains(seqs, segment, offset, j, k) && Contains(seqs, segment, offset, j', k')
    ensures j == j' && k == k'
  {
    assert seqs[j].Valid() && seqs[j'].Valid();
    assert seqs[j].Covers(segment, offset) && seqs[j'].Covers(segment, offset);
    var rows := seqs[j].rows;
    assert forall q :: k < q < |rows| ==> rows[q].address >= seqs[j].Next(k);
    assert forall q :: k' < q < |rows| ==> rows[q].address >= seqs[j].Next(k');
  }

  /**
   * Outside segment 0, on disjoint sequences, the row found is the unique one whose half-open range contains the
   * address, whatever padding follows.
   */
  lemma LookupMeans(seqs: seq<Sequence>, pad: nat, segment: int, offset: int, best: nat)
    requires AllValid(seqs) && Disjoint(seqs) && 0 < segment < TWO16 && 0 <= offset < TWO32
    requires best < |Table(seqs, pad)|
    ensures Best(Table(seqs, pad), segment, offset, best)
            <==> exists j: nat, k: nat :: j < |seqs| && k < |seqs[j].rows| && best == FirstRow(seqs, j) + k
                                       && Contains(seqs, segment, offset, j, k)
  {
    hide Candidate, Table, FirstRow, Contains;
    if Best(Table(seqs, pad), segment, offset, best) {
      var j, k := CandidateFrom(seqs, pad, segment, offset, best);
      BestContains(seqs, pad, segment, offset, j, k);
    }
    forall j: nat, k: nat
      | j < |seqs| && k < |seqs[j].rows| && best == FirstRow(seqs, j) + k && Contains(seqs, segment, offset, j, k)
      ensures Best(Table(seqs, pad), segment, offset, best)
    {
      ContainingIsBest(seqs, pad, segment, offset, j, k);
    }
  }

  lemma ContainingIsBest(seqs: seq<Sequence>, pad: nat, segment: int, offset: int, j: nat, k: nat)
    requires AllValid(seqs) && Disjoint(seqs) && 0 < segment < TWO16 && 0 <= offset < TWO32
    requires j < |seqs| && k < |seqs[j].rows| && Contains(seqs, segment, offset, j, k)
    ensures FirstRow(seqs, j) + k < |Table(seqs, pad)| && Best(Table(seqs, pad), segment, offset, FirstRow(seqs, j) + k)
  {
    hide Table, FirstRow, EndAfter, Candidate;
    var t, best := Table(seqs, pad), FirstRow(seqs, j) + k;
    assert seqs[j].Valid() && seqs[j].Covers(segment, offset);
    RowOfSequence(seqs, pad, j, k);
    CandidateInSequence(seqs, pad, segment, offset, j, k);
    forall i | 0 <= i < |t| && Candidate(t, segment, offset, i)
      ensures t[i].address < t[best].address || (t[i].address == t[best].address && i <= best)
    {
      var j', k' := CandidateFrom(seqs, pad, segment, offset, i);
      assert j' == j;
      RowOfSequence(seqs, pad, j, k');
      assert forall q :: k < q < |seqs[j].rows| ==> seqs[j].rows[q].address >= seqs[j].Next(k);
    }
  }

  /** A sequence that covers the address has a row above 0 at or below it. */
  ghost predicate CoveredAbove(seqs: seq<Sequence>, segment: int, offset: int) {
    exists j: nat, k: nat :: j < |seqs| && k < |seqs[j].rows| && RowAbove(seqs[j], segment, offset, k)
  }

  predicate RowAbove(s: Sequence, segment: int, offset: int, k: nat)
    requires k < |s.rows|
  {
    s.Covers(segment, offset) && 0 < s.rows[k].address <= offset
  }

  /**
   * In segment 0 the padding takes part: with padding present, the search answers with a zero row exactly when no
   * sequence covers the address with a row above 0 and the address is not the last of all.
   */
  lemma PaddingWins(seqs: seq<Sequence>, pad: nat, offset: int, best: nat)
    requires AllValid(seqs) && 0 <= offset < TWO32 && pad > 0
    requires best < |Table(seqs, pad)| && Best(Table(seqs, pad), 0, offset, best)
    ensures best >= FirstRow(seqs, |seqs|) <==> offset < NO_END && !CoveredAbove(seqs, 0, offset)
  {
    hide Table, FirstRow, EndAfter, Candidate;
    var t, last := Table(seqs, pad), FirstRow(seqs, |seqs|) + pad - 1;
    TableLength(seqs, pad);
    CandidateInPadding(seqs, pad, 0, offset, last);
    var j, k := CandidateFrom(seqs, pad, 0, offset, best);
    if best >= FirstRow(seqs, |seqs|) {
      CandidateInPadding(seqs, pad, 0, offset, best);
      forall j': nat, k': nat | j' < |seqs| && k' < |seqs[j'].rows| && seqs[j'].Covers(0, offset)
        ensures !RowAbove(seqs[j'], 0, offset, k')
      {
        RowOfSequence(seqs, pad, j', k');
        CandidateInSequence(seqs, pad, 0, offset, j', k');
      }
    } else if offset < NO_END {
      RowOfSequence(seqs, pad, j, k);
      assert RowAbove(seqs[j], 0, offset, k);
    }
  }

  // Tables are made of sequences.

  /** The first end-of-sequence row, or the length. */
  function EndIn(rows: seq<Row>): (e: nat)
    ensures e <= |rows| && (forall i :: 0 <= i < e ==> !rows[i].endSequence) && (e < |rows| ==> rows[e].endSequence)
  {
    if rows == [] || rows[0].endSequence then 0 else 1 + EndIn(rows[1..])
  }

  /** The rows cut behind each end-of-sequence row; a rest without one is dropped. */
  function SequencesOf(rows: seq<Row>): (seqs: seq<Sequence>)
    decreases |rows|
  {
    var e := EndIn(rows);
    if e == |rows| then []
    else [Sequence(rows[0].segment, rows[..e], rows[e])] + SequencesOf(rows[e + 1..])
  }

  predicate Closed(rows: seq<Row>) {
    rows != [] ==> rows[|rows| - 1].endSequence
  }

  /** Rows and padding are a table of sequences exactly if no sequence is left open. */
  lemma {:induction false} SplitTable(rows: seq<Row>, pad: nat)
    ensures Table(SequencesOf(rows), pad) == rows + Padding(pad) <==> Closed(rows)
    ensures |Table(SequencesOf(rows), pad)| <= |rows| + pad
    decreases |rows|
  {
    hide Table, SequencesOf;
    var e := EndIn(rows);
    if e == |rows| {
      OpenTable(rows, pad);
      assert [] + Padding(pad) == Padding(pad);
    } else {
      var front, rest := rows[..e] + [rows[e]], rows[e + 1..];
      SplitTable(rest, pad);
      TableFirst(rows, pad);
      ClosedRest(rows, e);
      SameFront(front, Table(SequencesOf(rest), pad), rest + Padding(pad));
      assert rows + Padding(pad) == front + (rest + Padding(pad));
    }
  }

  function Padding(pad: nat): (rows: seq<Row>)
    ensures |rows| == pad
  {
    seq(pad, _ => ZERO_ROW)
  }

  lemma OpenTable(rows: seq<Row>, pad: nat)
    requires EndIn(rows) == |rows|
    ensures Table(SequencesOf(rows), pad) == Padding(pad) && (Closed(rows) <==> rows == [])
  {
  }

  lemma ClosedRest(rows: seq<Row>, e: nat)
    requires e < |rows| && rows[e].endSequence
    ensures Closed(rows) <==> Closed(rows[e + 1..])
  {
    var rest := rows[e + 1..];
    assert rest != [] ==> rest[|rest| - 1] == rows[|rows| - 1];
  }

  lemma TableFirst(rows: seq<Row>, pad: nat)
    requires EndIn(rows) < |rows|
    ensures var e := EndIn(rows);
            Table(SequencesOf(rows), pad) == (rows[..e] + [rows[e]]) + Table(SequencesOf(rows[e + 1..]), pad)
  {
    var e := EndIn(rows);
    var s, more := Sequence(rows[0].segment, rows[..e], rows[e]), SequencesOf(rows[e + 1..]);
    assert SequencesOf(rows) == [s] + more;
    hide Table, SequencesOf;
    assert ([s] + more)[1..] == more;
    TableStep([s] + more, pad);
  }

  lemma SameFront<T>(a: seq<T>, b: seq<T>, c: seq<T>)
    ensures a + b == a + c <==> b == c
  {
    assert (a + b)[|a|..] == b && (a + c)[|a|..] == c;
  }
}
