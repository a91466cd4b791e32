/** calcArgv and calcEnvp: from the OS/2 block to pointer vectors. */
module CommandVectors {
  import opened Base
  import opened CommandLine

  // The readers. A vector is one allocation: pointer slots, then characters.

  const PTR_SIZE := 4

  /** A cell of an allocation: a character, or byte `k` of a pointer, null or to a place in the allocation. */
  datatype Cell = Char(c: char) | Part(target: Option<nat>, k: nat)

  /** Pointer slot `i`, the allocation being taken as an array of pointers. */
  ghost predicate Slot(block: seq<Cell>, i: nat, target: Option<nat>) {
    PTR_SIZE * (i + 1) <= |block| && forall k :: 0 <= k < PTR_SIZE ==> block[PTR_SIZE * i + k] == Part(target, k)
  }

  ghost predicate CharsAt(block: seq<Cell>, at: nat, s: string) {
    at + |s| <= |block| && forall k :: 0 <= k < |s| ==> block[at + k] == Char(s[k])
  }

  /** What a reader of the vector finds: a pointer to each of `strings`, then a null pointer. */
  ghost predicate Intact(block: seq<Cell>, strings: seq<string>) {
    && Slot(block, |strings|, None)
    && forall i :: 0 <= i < |strings| ==> PointsTo(block, i, strings[i])
  }

  ghost predicate PointsTo(block: seq<Cell>, i: nat, s: string) {
    exists at :: Slot(block, i, Some(at)) && CharsAt(block, at, s + "\0")
  }

  /** The first `idx` slots point at `strings`, stored one after the other from `off`, behind the slots, up to `dst`. */
  ghost predicate Filled(block: seq<Cell>, off: nat, strings: seq<string>, idx: nat, dst: nat) {
    && idx == |strings| && PTR_SIZE * idx <= off && dst == off + |Flat(strings)|
    && CharsAt(block, off, Flat(strings))
    && forall i :: 0 <= i < idx ==> Slot(block, i, Some(off + |Flat(strings[..i])|))
  }

  /** A vector that has no room for the null pointer after its slots were used up: it overwrote the first string. */
  ghost predicate Overrun(block: seq<Cell>, off: nat) {
    off < |block| && Slot(block, 0, Some(off)) && block[off].Part?
  }

  /** The vector while strings are added, whether or not the slots suffice. */
  ghost predicate Writing(block: seq<Cell>, off: nat, strings: seq<string>, idx: nat, dst: nat) {
    && idx == |strings| && dst == off + |Flat(strings)| <= |block|
    && if PTR_SIZE * idx <= off then Filled(block, off, strings, idx, dst) else Overrun(block, off)
  }

  lemma StringFilled(block: seq<Cell>, off: nat, strings: seq<string>, i: nat)
    requires Filled(block, off, strings, |strings|, off + |Flat(strings)|) && i < |strings|
    ensures PointsTo(block, i, strings[i])
  {
    var front, s := Flat(strings[..i]), strings[i] + "\0";
    assert strings == strings[..i] + strings[i..] && strings[i..][1..] == strings[i + 1..];
    FlatConcat(strings[..i], strings[i..]);
    assert Flat(strings) == front + (s + Flat(strings[i + 1..]));
    assert CharsAt(block, off + |front|, s) by {
      forall k | 0 <= k < |s| ensures block[off + |front| + k] == Char(s[k]) {
        assert Flat(strings)[|front| + k] == s[k];
      }
    }
  }

  lemma FilledIntact(block: seq<Cell>, off: nat, strings: seq<string>)
    requires Filled(block, off, strings, |strings|, off + |Flat(strings)|) && Slot(block, |strings|, None)
    ensures Intact(block, strings)
  {
    forall i | 0 <= i < |strings| ensures PointsTo(block, i, strings[i]) {
      StringFilled(block, off, strings, i);
    }
  }

  lemma OverrunBroken(block: seq<Cell>, off: nat, strings: seq<string>)
    requires Overrun(block, off) && strings != [] && strings[0] != ""
    ensures !Intact(block, strings)
  {
    var first := strings[0] + "\0";
    forall at: nat | Slot(block, 0, Some(at)) ensures !CharsAt(block, at, first) {
      assert Part(Some(at), 0) == block[PTR_SIZE * 0 + 0] == Part(Some(off), 0);
      assert block[off + 0] != Char(first[0]);
    }
    assert !PointsTo(block, 0, strings[0]);
  }

  method StrLen(mem: seq<char>, ghost s: string) returns (n: nat)
    requires CString(s) && |mem| > |s| && mem[..|s|] == s && mem[|s|] == '\0'
    ensures n == |s|
  {
    n := 0;
    assert forall i :: 0 <= i < |s| ==> mem[i] == s[i] && s[i] in s;
    while mem[n] != '\0'
      invariant n <= |s|
      decreases |s| - n
    {
      n := n + 1;
    }
  }

  /** A pointer into slot `idx`, unless that leaves the allocation. */
  method StorePointer(block: array<Cell>, idx: nat, target: Option<nat>) returns (ok: bool)
    modifies block
    ensures ok <==> PTR_SIZE * (idx + 1) <= block.Length
    ensures ok ==> Slot(block[..], idx, target)
    ensures forall k :: 0 <= k < block.Length && !(PTR_SIZE * idx <= k < PTR_SIZE * (idx + 1)) ==>
              block[k] == old(block[k])
  {
    ok := PTR_SIZE * (idx + 1) <= block.Length;
    if ok {
      forall k | 0 <= k < PTR_SIZE {
        block[PTR_SIZE * idx + k] := Part(target, k);
      }
    }
  }

  /** The characters of `s` and a terminator. */
  method StoreString(block: array<Cell>, dst: nat, s: seq<char>)
    requires dst + |s| + 1 <= block.Length
    modifies block
    ensures CharsAt(block[..], dst, s + "\0")
    ensures forall k :: 0 <= k < block.Length && !(dst <= k < dst + |s| + 1) ==> block[k] == old(block[k])
  {
    forall k | 0 <= k < |s| {
      block[dst + k] := Char(s[k]);
    }
    block[dst + |s|] := Char('\0');
  }

  lemma {:induction false} FlatRoom(strings: seq<string>)
    ensures |Flat(strings)| >= |strings| + if strings != [] then |strings[0]| else 0
  {
    if strings != [] {
      FlatRoom(strings[1..]);
    }
  }

  lemma FilledMore(was: seq<Cell>, block: seq<Cell>, off: nat, strings: seq<string>, s: string, idx: nat, dst: nat)
    requires Filled(was, off, strings, idx, dst) && PTR_SIZE * (idx + 1) <= off && |was| == |block|
    requires Slot(block, idx, Some(dst)) && CharsAt(block, dst, s + "\0")
    requires forall k :: 0 <= k < dst && !(PTR_SIZE * idx <= k < PTR_SIZE * (idx + 1)) ==> block[k] == was[k]
    ensures Filled(block, off, strings + [s], idx + 1, dst + |s| + 1)
  {
    FlatAppend(strings, s);
    var all := strings + [s];
    assert Flat(all) == Flat(strings) + (s + "\0");
    forall k | 0 <= k < |Flat(all)| ensures block[off + k] == Char(Flat(all)[k]) {
      if k >= |Flat(strings)| {
        assert block[dst + (k - |Flat(strings)|)] == Char((s + "\0")[k - |Flat(strings)|]);
      }
    }
    forall i | 0 <= i < idx + 1 ensures Slot(block, i, Some(off + |Flat(all[..i])|)) {
      assert all[..i] == strings[..i];
      if i == idx {
        assert strings[..i] == strings;
      } else {
        assert Slot(was, i, Some(off + |Flat(strings[..i])|));
      }
    }
  }

  /** A pointer beyond the slots falls on the first string, and no string is put there any more. */
  lemma OverrunMore(was: seq<Cell>, mid: seq<Cell>, off: nat, strings: seq<string>, target: Option<nat>, idx: nat,
                    dst: nat)
    requires Writing(was, off, strings, idx, dst) && off % PTR_SIZE == 0 && PTR_SIZE * (idx + 1) > off >= 3 * PTR_SIZE
    requires strings[0] != "" && |was| == |mid| && Slot(mid, idx, target)
    requires forall k :: 0 <= k < |mid| && !(PTR_SIZE * idx <= k < PTR_SIZE * (idx + 1)) ==> mid[k] == was[k]
    ensures Overrun(mid, off) && dst > off
  {
    FlatRoom(strings);
    assert Slot(was, 0, Some(off)) by {
      if PTR_SIZE * idx <= off {
        assert strings[..0] == [] && Slot(was, 0, Some(off + |Flat(strings[..0])|));
      }
    }
    assert Slot(mid, 0, Some(off));
    if PTR_SIZE * idx <= off {
      assert off == PTR_SIZE * idx;
      assert mid[off + 0] == Part(target, 0);
    }
  }

  lemma OverrunKept(was: seq<Cell>, block: seq<Cell>, off: nat, dst: nat)
    requires Overrun(was, off) && PTR_SIZE <= off < dst && |was| == |block|
    requires forall k :: 0 <= k < |block| && k < dst ==> block[k] == was[k]
    ensures Overrun(block, off)
  {
  }

  /** One more string at the end of a vector. */
  method AddString(block: array<Cell>, off: nat, idx: nat, dst: nat, s: seq<char>, ghost strings: seq<string>)
    returns (ok: bool, idx': nat, dst': nat)
    requires Writing(block[..], off, strings, idx, dst) && dst + |s| + 1 <= block.Length
    requires off % PTR_SIZE == 0 && (PTR_SIZE * (idx + 1) > off ==> off >= 3 * PTR_SIZE && strings[0] != "")
    modifies block
    ensures ok <==> PTR_SIZE * (idx + 1) <= block.Length
    ensures ok ==> Writing(block[..], off, strings + [s], idx', dst')
  {
    hide Flat, Filled, Overrun, Slot, CharsAt;
    ghost var was := block[..];
    idx', dst' := idx, dst;
    ok := StorePointer(block, idx, Some(dst));
    if ok {
      ghost var mid := block[..];
      FlatAppend(strings, s);
      if PTR_SIZE * (idx + 1) > off {
        OverrunMore(was, mid, off, strings, Some(dst), idx, dst);
      }
      StoreString(block, dst, s);
      idx', dst' := idx + 1, dst + |s| + 1;
      if PTR_SIZE * (idx + 1) > off {
        OverrunKept(mid, block[..], off, dst);
      } else {
        SlotKept(mid, block[..], idx, Some(dst), dst);
        FilledMore(was, block[..], off, strings, s, idx, dst);
      }
    }
  }

  lemma SlotKept(was: seq<Cell>, block: seq<Cell>, i: nat, target: Option<nat>, dst: nat)
    requires Slot(was, i, target) && |was| == |block| && PTR_SIZE * (i + 1) <= dst
    requires forall k :: 0 <= k < |block| && k < dst ==> block[k] == was[k]
    ensures Slot(block, i, target)
  {
  }

  method SkipSpace(args: seq<char>, start: nat, ghost text: string) returns (src: nat)
    requires start <= |text| < |args| && args[..|text|] == text && args[|text|] == '\0'
    ensures start <= src <= |text| && text[src..] == SkipBlanks(text[start..])
  {
    src := start;
    assert forall i :: 0 <= i < |text| ==> args[i] == text[i];
    while Blank(args[src])
      invariant start <= src <= |text|
      invariant SkipBlanks(text[src..]) == SkipBlanks(text[start..])
      decreases |text| - src
    {
      assert text[src..][1..] == text[src + 1..];
      src := src + 1;
    }
  }

  method CountBlanks(args: seq<char>, ghost text: string) returns (idx: nat, len: nat)
    requires CString(text) && |text| < |args| && args[..|text|] == text && args[|text|] == '\0'
    ensures idx == 1 + Blanks(text) && len == |text|
  {
    idx, len := 1, 0;
    assert forall i :: 0 <= i < |text| ==> args[i] == text[i] && text[i] in text;
    while args[len] != '\0'
      invariant len <= |text| && idx + Blanks(text[len..]) == 1 + Blanks(text)
      decreases |text| - len
    {
      assert text[len..][1..] == text[len + 1..];
      if Blank(args[len]) {
        idx := idx + 1;
      }
      len := len + 1;
    }
  }

  /** The closing quote, or the end. */
  method FindQuote(args: seq<char>, start: nat, ghost text: string) returns (src: nat)
    requires CString(text) && start <= |text| < |args| && args[..|text|] == text && args[|text|] == '\0'
    ensures src == start + QuoteIn(text[start..])
  {
    src := start;
    assert forall i :: 0 <= i < |text| ==> args[i] == text[i] && text[i] in text;
    while args[src] != '"' && args[src] != '\0'
      invariant start <= src <= |text|
      invariant src + QuoteIn(text[src..]) == start + QuoteIn(text[start..])
      decreases |text| - src
    {
      assert text[src..][1..] == text[src + 1..];
      src := src + 1;
    }
  }

  /** After `words`, a word begins at `start` and has been scanned up to `src`. */
  ghost predicate Reading(text: string, words: seq<string>, start: nat, src: nat) {
    start <= src <= |text| && words + Scan(text[start..], src - start) == Words(text)
  }

  /** What is left fits into the allocation. */
  lemma ReadingFits(argv0: string, text: string, words: seq<string>, w: string, more: seq<string>)
    requires words + ([w] + more) == Words(text)
    ensures |Flat([argv0] + words)| + |w| + 1 <= |argv0| + |text| + 2 && |words| < |Words(text)|
  {
    hide Scan;
    WordsFit(SkipBlanks(text), 0);
    FlatConcat(words, [w] + more);
    FlatFirst(w, more);
    FlatFirst(argv0, words);
  }

  lemma Longer(words: seq<string>, w: string, more: seq<string>)
    ensures words + ([w] + more) == (words + [w]) + more
  {
  }

  lemma ReadBlank(text: string, words: seq<string>, start: nat, src: nat)
    requires Reading(text, words, start, src) && src < |text| && Blank(text[src])
    ensures words + ([text[start..src]] + Scan(SkipBlanks(text[src + 1..]), 0)) == Words(text)
  {
    var s, n := text[start..], src - start;
    assert s[n] == text[src] && s[..n] == text[start..src] && s[n + 1..] == text[src + 1..];
  }

  lemma ReadQuote(text: string, words: seq<string>, start: nat, src: nat)
    requires Reading(text, words, start, src) && src < |text| && text[src] == '"'
    ensures var e := src + 1 + QuoteIn(text[src + 1..]);
            words + ([text[start + 1..e]] + Scan(SkipBlanks(text[if e < |text| then e + 1 else e..]), 0)) == Words(text)
  {
    var s, n := text[start..], src - start;
    assert s[n] == text[src];
    ScanAtQuote(s, n);
    hide QuoteIn, SkipBlanks, Scan;
    assert s[n + 1..] == text[src + 1..];
    var q := QuoteIn(text[src + 1..]);
    var e := src + 1 + q;
    assert s[1..n + 1 + q] == text[start + 1..e];
    if e < |text| {
      assert s[n + 1 + q + 1..] == text[e + 1..];
    } else {
      assert text[e..] == "";
    }
  }

  lemma ScanAtQuote(s: string, n: nat)
    requires n < |s| && s[n] == '"'
    ensures Scan(s, n) == [QuotedWord(s, n)] + Scan(AfterQuoted(s, n), 0)
  {
  }

  lemma ReadOther(text: string, words: seq<string>, start: nat, src: nat)
    requires Reading(text, words, start, src) && src < |text| && !Blank(text[src]) && text[src] != '"'
    ensures Reading(text, words, start, src + 1)
  {
    assert text[start..][src - start] == text[src];
  }

  lemma ReadEnd(text: string, words: seq<string>, start: nat)
    requires Reading(text, words, start, |text|)
    ensures start == |text| ==> words == Words(text)
    ensures start < |text| ==> words + ([text[start..]] + []) == Words(text)
  {
  }

  /** Room for the strings from `off` on, behind at least three slots. */
  ghost predicate Roomy(block: array<Cell>, off: nat, argv0: string, text: string) {
    && argv0 != "" && off % PTR_SIZE == 0 && off >= 3 * PTR_SIZE
    && off + |argv0| + |text| + 2 <= block.Length
  }

  /** One word into the vector. */
  method AddWord(block: array<Cell>, off: nat, idx: nat, dst: nat, w: seq<char>, ghost argv0: string,
                 ghost text: string, ghost words: seq<string>, ghost more: seq<string>)
    returns (ok: bool, idx': nat, dst': nat)
    requires words + ([w] + more) == Words(text)
    requires Writing(block[..], off, [argv0] + words, idx, dst) && Roomy(block, off, argv0, text)
    modifies block
    ensures ok ==> Writing(block[..], off, [argv0] + (words + [w]), idx', dst')
    ensures !ok ==> PTR_SIZE * (|Words(text)| + 2) > block.Length
  {
    hide Words;
    ReadingFits(argv0, text, words, w, more);
    assert idx == |words| + 1 && dst == off + |Flat([argv0] + words)|;
    hide Writing, Flat;
    assert [argv0] + words + [w] == [argv0] + (words + [w]);
    ok, idx', dst' := AddString(block, off, idx, dst, w, [argv0] + words);
  }

  datatype Error = BadEnvironment | NotEnoughMemory

  /** `Null` is a null result without an error code, `Wild` a pointer stored outside the allocation. */
  datatype Answer = Done(block: array<Cell>) | Failed(error: Error) | Null | Wild

  /** A word from `from` to `to`, and the blanks after it. */
  method TakeWord(args: seq<char>, block: array<Cell>, off: nat, from: nat, to: nat, next: nat, idx0: nat, dst0: nat,
                  ghost argv0: string, ghost text: string, ghost words: seq<string>)
    returns (ok: bool, src: nat, idx: nat, dst: nat, ghost words': seq<string>)
    requires CString(text) && from <= to <= next <= |text| < |args| && args[..|text|] == text && args[|text|] == '\0'
    requires words + ([text[from..to]] + Scan(SkipBlanks(text[next..]), 0)) == Words(text)
    requires Writing(block[..], off, [argv0] + words, idx0, dst0) && Roomy(block, off, argv0, text)
    modifies block
    ensures next <= src <= |text| && Reading(text, words', src, src)
    ensures ok ==> Writing(block[..], off, [argv0] + words', idx, dst)
    ensures !ok ==> PTR_SIZE * (|Words(text)| + 2) > block.Length
  {
    hide Words, Scan, SkipBlanks, Reading, Writing;
    PartOf(args, text, from, to);
    ghost var w, more := text[from..to], Scan(SkipBlanks(text[next..]), 0);
    ok, idx, dst := AddWord(block, off, idx0, dst0, args[from..to], argv0, text, words, more);
    Longer(words, w, more);
    src := SkipSpace(args, next, text);
    words' := words + [w];
    ReadNext(text, words', src);
  }

  /** A word that the quote at `at` makes quoted. */
  method TakeQuoted(args: seq<char>, block: array<Cell>, off: nat, from: nat, at: nat, idx0: nat, dst0: nat,
                    ghost argv0: string, ghost text: string, ghost words: seq<string>)
    returns (ok: bool, src: nat, idx: nat, dst: nat, ghost words': seq<string>)
    requires CString(text) && at < |text| < |args| && args[..|text|] == text && args[|text|] == '\0'
    requires Reading(text, words, from, at) && from <= at && text[at] == '"'
    requires Writing(block[..], off, [argv0] + words, idx0, dst0) && Roomy(block, off, argv0, text)
    modifies block
    ensures at < src <= |text| && Reading(text, words', src, src)
    ensures ok ==> Writing(block[..], off, [argv0] + words', idx, dst)
    ensures !ok ==> PTR_SIZE * (|Words(text)| + 2) > block.Length
  {
    hide Words, Scan, SkipBlanks, Reading, Writing;
    ReadQuote(text, words, from, at);
    var close := FindQuote(args, at + 1, text);
    PartOf(args, text, at, close);
    ok, src, idx, dst, words' := TakeWord(args, block, off, from + 1, close,
      if args[close] == '"' then close + 1 else close, idx0, dst0, argv0, text, words);
  }

  /** The words of the command line, after the program name. */
  method ReadWords(args: seq<char>, block: array<Cell>, off: nat, start: nat, idx0: nat, dst0: nat,
                   ghost argv0: string, ghost text: string)
    returns (ok: bool, idx: nat)
    requires CString(text) && start <= |text| < |args| && args[..|text|] == text && args[|text|] == '\0'
    requires text[start..] == SkipBlanks(text)
    requires Writing(block[..], off, [argv0], idx0, dst0) && Roomy(block, off, argv0, text)
    modifies block
    ensures ok ==> Writing(block[..], off, [argv0] + Words(text), idx, off + |Flat([argv0] + Words(text))|)
    ensures !ok ==> PTR_SIZE * (|Words(text)| + 2) > block.Length
  {
    var dst;
    ok, idx, dst := true, idx0, dst0;
    hide Words, Scan, SkipBlanks, Reading, Writing, Blanks, Flat, Roomy;
    var src: nat, srcstart: nat := start, start;
    ghost var words: seq<string> := [];
    assert [argv0] + [] == [argv0];
    ReadStart(text, src);
    while args[src] != '\0'
      invariant srcstart <= src <= |text| && Reading(text, words, srcstart, src)
      invariant Writing(block[..], off, [argv0] + words, idx, dst)
      decreases |text| - src
    {
      PartOf(args, text, srcstart, src);
      if Blank(args[src]) {
        ReadBlank(text, words, srcstart, src);
        ok, src, idx, dst, words := TakeWord(args, block, off, srcstart, src, src + 1, idx, dst, argv0, text, words);
        srcstart := src;
      } else if args[src] == '"' {
        ok, src, idx, dst, words := TakeQuoted(args, block, off, srcstart, src, idx, dst, argv0, text, words);
        srcstart := src;
      } else {
        ReadOther(text, words, srcstart, src);
        src := src + 1;
      }
      if !ok {
        return;
      }
    }
    OnlyAtEnd(args, text, src);
    ReadEnd(text, words, srcstart);
    if src > srcstart {
      PartOf(args, text, srcstart, src);
      assert text[srcstart..src] == text[srcstart..];
      ok, idx, dst := AddWord(block, off, idx, dst, args[srcstart..src], argv0, text, words, []);
      if !ok {
        return;
      }
      words := words + [args[srcstart..src]];
    }
    assert words == Words(text);
    WritingEnd(block[..], off, [argv0] + words, idx, dst);
  }

  lemma PartOf(args: seq<char>, text: string, i: nat, j: nat)
    requires i <= j <= |text| <= |args| && args[..|text|] == text
    ensures args[i..j] == text[i..j] && (j < |text| ==> args[j] == text[j])
  {
    assert args[..|text|][i..j] == args[i..j];
  }

  lemma OnlyAtEnd(args: seq<char>, text: string, src: nat)
    requires CString(text) && src <= |text| < |args| && args[..|text|] == text && args[src] == '\0'
    ensures src == |text|
  {
    assert forall i :: 0 <= i < |text| ==> text[i] in text && args[..|text|][i] == args[i];
  }

  lemma WritingEnd(block: seq<Cell>, off: nat, strings: seq<string>, idx: nat, dst: nat)
    requires Writing(block, off, strings, idx, dst)
    ensures idx == |strings| && dst == off + |Flat(strings)|
  {
  }

  /** The size calcArgv allocates. */
  function ArgvSize(argv0: string, text: string): (len: nat) {
    |text| + |argv0| + 1 + PTR_SIZE + (2 + Blanks(text)) * (PTR_SIZE + 1)
  }

  /** The null pointer, and whether the vector is then as a reader wants it. */
  method FinishArgv(block: array<Cell>, off: nat, idx: nat, ghost strings: seq<string>) returns (ok: bool)
    requires Writing(block[..], off, strings, idx, off + |Flat(strings)|)
    requires off % PTR_SIZE == 0 && off >= 3 * PTR_SIZE && strings != [] && strings[0] != ""
    modifies block
    ensures ok <==> PTR_SIZE * (|strings| + 1) <= block.Length
    ensures ok ==> (Intact(block[..], strings) <==> PTR_SIZE * (|strings| + 1) <= off)
  {
    hide Flat, Overrun, Slot, CharsAt, Intact;
    ghost var was := block[..];
    ok := StorePointer(block, idx, None);
    if ok {
      if PTR_SIZE * (idx + 1) > off {
        OverrunMore(was, block[..], off, strings, None, idx, off + |Flat(strings)|);
        OverrunBroken(block[..], off, strings);
      } else {
        FilledKept(was, block[..], off, strings);
        FilledIntact(block[..], off, strings);
      }
    }
  }

  lemma FilledKept(was: seq<Cell>, block: seq<Cell>, off: nat, strings: seq<string>)
    requires Filled(was, off, strings, |strings|, off + |Flat(strings)|) && |was| == |block|
    requires PTR_SIZE * (|strings| + 1) <= off
    requires forall k :: 0 <= k < off + |Flat(strings)| && !(PTR_SIZE * |strings| <= k < PTR_SIZE * (|strings| + 1)) ==>
               block[k] == was[k]
    ensures Filled(block, off, strings, |strings|, off + |Flat(strings)|)
  {
    forall i | 0 <= i < |strings| ensures Slot(block, i, Some(off + |Flat(strings[..i])|)) {
      assert Slot(was, i, Some(off + |Flat(strings[..i])|));
    }
  }

  /**
   * calcArgv on an argument block: the program name, its terminator, and the command line. A reader finds the words in
   * the vector exactly when there are no more of them than blanks and one; with more, a pointer overwrites the program
   * name, or is stored outside the allocation.
   */
  method CalcArgv(os2args: seq<char>, ghost argv0: string, ghost text: string, ghost behind: seq<char>)
    returns (answer: Answer)
    requires CString(argv0) && CString(text) && os2args == argv0 + "\0" + text + "\0" + behind
    ensures !answer.Null? && (answer == Failed(BadEnvironment) <==> argv0 == "")
    ensures answer.Wild? ==> PTR_SIZE * (|Words(text)| + 2) > ArgvSize(argv0, text)
    ensures answer.Done? ==> PTR_SIZE * (|Words(text)| + 2) <= ArgvSize(argv0, text) == answer.block.Length
    ensures answer.Done? ==> fresh(answer.block)
    ensures answer.Done? ==> (Intact(answer.block[..], [argv0] + Words(text)) <==> |Words(text)| <= 1 + Blanks(text))
  {
    hide Words, Flat;
    var argv0len := StrLen(os2args, argv0);
    if argv0len == 0 {
      return Failed(BadEnvironment);
    }
    var args := os2args[argv0len + 1..];
    assert args == text + ("\0" + behind);
    var slots, len := CountBlanks(args, text);
    slots := slots + 1;
    len := len + argv0len + 1 + PTR_SIZE;
    len := len + slots * (PTR_SIZE + 1);
    var malloc: bool := *;
    if !malloc {
      return Failed(NotEnoughMemory);
    }
    var block := new Cell[len](_ => Char('\0'));
    var off := PTR_SIZE * (slots + 1);
    assert os2args[..argv0len] == argv0 && [] + [argv0] == [argv0];
    NothingFilled(block[..], off);
    hide Writing;
    var ok, idx, dst := AddString(block, off, 0, off, os2args[..argv0len], []);
    assert text[0..] == text;
    var src := SkipSpace(args, 0, text);
    ok, idx := ReadWords(args, block, off, src, idx, dst, argv0, text);
    if !ok {
      return Wild;
    }
    ReadBy(block[..], off, [argv0] + Words(text), idx);
    ok := FinishArgv(block, off, idx, [argv0] + Words(text));
    answer := if ok then Done(block) else Wild;
  }

  lemma ReadBy(block: seq<Cell>, off: nat, strings: seq<string>, idx: nat)
    requires Writing(block, off, strings, idx, off + |Flat(strings)|)
    ensures idx == |strings|
  {
  }

  lemma NothingFilled(block: seq<Cell>, off: nat)
    requires off <= |block|
    ensures Writing(block, off, [], 0, off) && Filled(block, off, [], 0, off)
  {
  }

  /** The loader's own command line can name more words than it has slots for: this argument has no blank. */
  lemma QuotesOutrunSlots()
    ensures var text := Join(["a\"b\"c"]); |Words(text)| == 2 > 1 + Blanks(text)
  {
    var text := "a\"b\"c";
    assert Token(text) == text && Join([text]) == text;
    assert SkipBlanks(text) == text;
    assert QuoteIn("c") == 1;
    assert text[2..] == "b\"c" && QuoteIn("b\"c") == 1;
    assert AfterQuoted(text, 1) == "c" by {
      assert text[4..] == "c";
    }
    assert Scan(text, 1) == [QuotedWord(text, 1)] + Scan("c", 0);
    assert Scan("c", 0) == Scan("c", 1) == ["c"];
    assert Blanks(text) == 0;
  }

  /** Arguments without quotes never outrun the slots. */
  lemma QuoteFreeFits(args: seq<string>)
    requires forall i :: 0 <= i < |args| ==> '"' !in args[i]
    ensures |Words(Join(args))| <= 1 + Blanks(Join(args))
  {
    hide Words, Join, Blanks;
    WordCount(args);
    BlanksBetween(args);
  }

  lemma ReadStart(text: string, src: nat)
    requires src <= |text| && text[src..] == SkipBlanks(text)
    ensures Reading(text, [], src, src)
  {
  }

  lemma ReadNext(text: string, words: seq<string>, src: nat)
    requires src <= |text| && words + Scan(text[src..], 0) == Words(text)
    ensures Reading(text, words, src, src)
  {
  }

  // The environment.

  predicate Variable(s: string) {
    s != "" && CString(s)
  }

  predicate AllVariables(vars: seq<string>) {
    forall i :: 0 <= i < |vars| ==> Variable(vars[i])
  }

  /** The environment from within a variable: `cur` of it is left, then `rest`. */
  ghost predicate AtVar(src: seq<char>, cur: string, rest: seq<string>, behind: seq<char>): (at: bool)
    ensures at ==> |src| > 0
  {
    CString(cur) && AllVariables(rest) && src == cur + "\0" + (Flat(rest) + "\0" + behind)
  }

  lemma StepChar(src: seq<char>, cur: string, rest: seq<string>, behind: seq<char>)
    requires AtVar(src, cur, rest, behind) && cur != ""
    ensures src[0] == cur[0] != '\0' && AtVar(src[1..], cur[1..], rest, behind)
  {
  }

  /** The list ends at an empty string: a variable is not empty. */
  lemma StepNul(src: seq<char>, rest: seq<string>, behind: seq<char>)
    requires AtVar(src, "", rest, behind)
    ensures src[0] == '\0' && |src| > 1 && (src[1] == '\0' <==> rest == [])
    ensures rest != [] ==> AtVar(src[1..], rest[0], rest[1..], behind)
    ensures rest != [] ==> |Flat(rest)| == |rest[0]| + 1 + |Flat(rest[1..])|
  {
  }

  lemma EnvStart(os2env: seq<char>, vars: seq<string>, behind: seq<char>)
    requires vars != [] && AllVariables(vars) && os2env == Flat(vars) + "\0" + behind
    ensures AtVar(os2env, vars[0], vars[1..], behind) && |Flat(vars)| == |vars[0]| + 1 + |Flat(vars[1..])|
  {
    assert os2env == vars[0] + "\0" + (Flat(vars[1..]) + "\0" + behind);
  }

  /** The counting loop: the strings, and their characters with room for a pointer and a terminator each. */
  method MeasureEnv(os2env: seq<char>, ghost vars: seq<string>, ghost behind: seq<char>) returns (idx: nat, len: nat)
    requires vars != [] && AllVariables(vars) && os2env == Flat(vars) + "\0" + behind
    ensures idx == |vars| && len == |Flat(vars)| + |vars| * PTR_SIZE
  {
    var src := os2env;
    idx, len := 0, 0;
    ghost var cur, rest := vars[0], vars[1..];
    EnvStart(os2env, vars, behind);
    NoStrings();
    hide Flat, AtVar;
    while true
      invariant AtVar(src, cur, rest, behind)
      invariant idx + 1 + |rest| == |vars| && len + |cur| + 1 + |Flat(rest)| == |Flat(vars)| + idx * PTR_SIZE
      decreases |src|
    {
      var ch := src[0];
      if cur != "" {
        StepChar(src, cur, rest, behind);
        cur := cur[1..];
      } else {
        StepNul(src, rest, behind);
      }
      src := src[1..];
      if ch != '\0' {
        len := len + 1;
      } else {
        idx := idx + 1;
        len := len + PTR_SIZE + 1;
        if src[0] == '\0' {
          break;
        }
        cur, rest := rest[0], rest[1..];
      }
    }
  }

  lemma NoStrings()
    ensures Flat([]) == ""
  {
  }

  /** The copying loop within a vector: `done` strings stored, `part` of the next one copied. */
  ghost predicate Copying(block: seq<Cell>, off: nat, done: seq<string>, part: string, idx: nat, start: nat, dst: nat) {
    start + |part| == dst && CharsAt(block, start, part) && Filled(block, off, done, idx, start)
  }

  method CopyChar(block: array<Cell>, off: nat, ch: char, idx: nat, start: nat, dst: nat, ghost done: seq<string>,
                  ghost part: string)
    requires Copying(block[..], off, done, part, idx, start, dst) && dst < block.Length
    modifies block
    ensures Copying(block[..], off, done, part + [ch], idx, start, dst + 1)
  {
    ghost var was := block[..];
    block[dst] := Char(ch);
    forall i | 0 <= i < idx ensures Slot(block[..], i, Some(off + |Flat(done[..i])|)) {
      assert Slot(was, i, Some(off + |Flat(done[..i])|));
    }
  }

  /** A copied terminator completes a string. */
  method EndString(block: array<Cell>, off: nat, idx: nat, start: nat, dst: nat, ghost done: seq<string>,
                   ghost s: string)
    requires Copying(block[..], off, done, s + "\0", idx, start, dst) && PTR_SIZE * (idx + 1) <= off
    modifies block
    ensures Filled(block[..], off, done + [s], idx + 1, dst)
  {
    ghost var was := block[..];
    var ok := StorePointer(block, idx, Some(start));
    FilledMore(was, block[..], off, done, s, idx, start);
  }

  ghost predicate Around(vars: seq<string>, done: seq<string>, s: string, rest: seq<string>) {
    done + [s] + rest == vars
  }

  lemma Moved(part: string, cur: string)
    ensures cur != "" ==> part + [cur[0]] + cur[1..] == part + cur
    ensures cur == "" ==> part + cur == part
  {
  }

  lemma NextString(vars: seq<string>, done: seq<string>, s: string, rest: seq<string>)
    requires Around(vars, done, s, rest) && rest != []
    ensures Around(vars, done + [s], "" + rest[0], rest[1..])
  {
    assert rest == [rest[0]] + rest[1..] && "" + rest[0] == rest[0];
  }

  lemma LastString(vars: seq<string>, done: seq<string>, s: string, rest: seq<string>)
    requires Around(vars, done, s, rest)
    ensures rest == [] ==> done + [s] == vars
  {
  }

  /** The copying loop: every variable, in order. */
  method CopyEnv(os2env: seq<char>, block: array<Cell>, off: nat, ghost vars: seq<string>, ghost behind: seq<char>)
    returns (idx: nat, dst: nat)
    requires vars != [] && AllVariables(vars) && os2env == Flat(vars) + "\0" + behind
    requires PTR_SIZE * |vars| <= off && off + |Flat(vars)| <= block.Length
    modifies block
    ensures Filled(block[..], off, vars, idx, dst)
  {
    var src := os2env;
    var start := off;
    idx, dst := 0, off;
    ghost var cur, rest, done: seq<string>, part := vars[0], vars[1..], [], "";
    EnvStart(os2env, vars, behind);
    NoStrings();
    NothingFilled(block[..], off);
    assert part + cur == cur;
    assert Around(vars, [], cur, rest);
    hide Flat, AtVar, Filled, Copying, Around, AllVariables;
    StartString(block[..], off, [], 0, off);
    while true
      invariant AtVar(src, cur, rest, behind) && Copying(block[..], off, done, part, idx, start, dst)
      invariant Around(vars, done, part + cur, rest)
      invariant idx + 1 + |rest| == |vars| && dst - off + |cur| + 1 + |Flat(rest)| == |Flat(vars)|
      decreases |src|
    {
      var ch := src[0];
      if cur != "" {
        StepChar(src, cur, rest, behind);
      } else {
        StepNul(src, rest, behind);
      }
      CopyChar(block, off, ch, idx, start, dst, done, part);
      src := src[1..];
      dst := dst + 1;
      if ch != '\0' {
        Moved(part, cur);
        part, cur := part + [cur[0]], cur[1..];
      } else {
        Moved(part, cur);
        EndString(block, off, idx, start, dst, done, part);
        idx := idx + 1;
        start := dst;
        LastString(vars, done, part, rest);
        if src[0] == '\0' {
          done := done + [part];
          break;
        }
        NextString(vars, done, part, rest);
        done := done + [part];
        StartString(block[..], off, done, idx, dst);
        cur, rest, part := rest[0], rest[1..], "";
      }
    }
  }

  lemma StartString(block: seq<Cell>, off: nat, done: seq<string>, idx: nat, dst: nat)
    requires Filled(block, off, done, idx, dst)
    ensures Copying(block, off, done, "", idx, dst, dst)
  {
  }

  /**
   * calcEnvp: the block's variables in order, then IS_2INE with the program's name; but an empty block gives an empty
   * vector without it.
   */
  method CalcEnvp(os2env: seq<char>, exe: string, ghost vars: seq<string>, ghost behind: seq<char>)
    returns (answer: Answer)
    requires AllVariables(vars) && CString(exe) && os2env == Flat(vars) + "\0" + behind
    ensures !answer.Wild? && (answer.Failed? ==> answer.error == NotEnoughMemory && vars != [])
    ensures answer.Null? ==> vars == []
    ensures answer.Done? ==> fresh(answer.block)
    ensures answer.Done? ==> Intact(answer.block[..], if vars == [] then [] else vars + ["IS_2INE=" + exe])
  {
    FirstOfEnv(vars, behind);
    var malloc: bool := *;
    if os2env[0] == '\0' {
      if !malloc {
        return Null;
      }
      var none := new Cell[PTR_SIZE](k => Part(None, k));
      return Done(none);
    }
    hide Flat, Intact, Filled, Slot, CharsAt;
    var idx, len := MeasureEnv(os2env, vars, behind);
    len := len + PTR_SIZE;
    len := len + |exe| + 16 + PTR_SIZE;
    idx := idx + 1;
    if !malloc {
      return Failed(NotEnoughMemory);
    }
    var block := new Cell[len](_ => Char('\0'));
    var off := PTR_SIZE * (idx + 1);
    ghost var strings := vars + ["IS_2INE=" + exe];
    var dst, ok;
    idx, dst := CopyEnv(os2env, block, off, vars, behind);
    FilledEnd(block[..], off, vars, idx, dst);
    ok, idx, dst := AddString(block, off, idx, dst, "IS_2INE=" + exe, vars);
    FlatAppend(vars, "IS_2INE=" + exe);
    ghost var was := block[..];
    block[dst] := Char('\0');
    ok := StorePointer(block, idx, None);
    FilledKept(was, block[..], off, strings);
    FilledIntact(block[..], off, strings);
    answer := Done(block);
  }

  lemma FilledEnd(block: seq<Cell>, off: nat, strings: seq<string>, idx: nat, dst: nat)
    requires Filled(block, off, strings, idx, dst)
    ensures idx == |strings| && dst == off + |Flat(strings)| <= |block|
    ensures Writing(block, off, strings, idx, dst)
  {
  }

  lemma FirstOfEnv(vars: seq<string>, behind: seq<char>)
    requires AllVariables(vars)
    ensures (Flat(vars) + "\0" + behind)[0] == '\0' <==> vars == []
  {
  }
}
