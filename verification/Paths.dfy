/** Current-directory handling: normalising an OS/2 path in place. */
module Paths {

  const SLASH := '\\'

  // Component lists.

  predicate IsName(c: string) {
    c != "" && SLASH !in c
  }

  /** A component a normalised path may hold. */
  predicate IsPlain(c: string) {
    IsName(c) && c != "." && c != ".."
  }

  predicate AllNames(cs: seq<string>) {
    forall i :: 0 <= i < |cs| ==> IsName(cs[i])
  }

  predicate AllPlain(cs: seq<string>) {
    forall i :: 0 <= i < |cs| ==> IsPlain(cs[i])
  }

  /** Length of the text before the first separator. */
  function FirstLen(s: string): (n: nat)
    ensures n <= |s| && SLASH !in s[..n] && (n < |s| ==> s[n] == SLASH)
  {
    if s == "" || s[0] == SLASH then 0
    else
      assert s == [s[0]] + s[1..];
      1 + FirstLen(s[1..])
  }

  /** The non-empty components of a path. */
  function Comps(s: string): (cs: seq<string>)
    ensures AllNames(cs)
    decreases |s|
  {
    if s == "" then []
    else if s[0] == SLASH then Comps(s[1..])
    else [s[..FirstLen(s)]] + Comps(s[FirstLen(s)..])
  }

  /** Every component followed by a separator. */
  function Dirs(cs: seq<string>): string {
    if cs == [] then "" else cs[0] + [SLASH] + Dirs(cs[1..])
  }

  /** The components with separators between them, and one at the end if `t`. */
  function Text(cs: seq<string>, t: bool): string {
    if cs == [] then ""
    else if |cs| == 1 && !t then cs[0]
    else cs[0] + [SLASH] + Text(cs[1..], t)
  }

  function Join(cs: seq<string>): string {
    Text(cs, false)
  }

  /** What a path means: "." stays, ".." drops the parent if there is one, a name descends. */
  function Fold(stack: seq<string>, cs: seq<string>): seq<string>
    decreases |cs|
  {
    if cs == [] then stack
    else if cs[0] == "." then Fold(stack, cs[1..])
    else if cs[0] == ".." then Fold(if stack == [] then [] else stack[..|stack| - 1], cs[1..])
    else Fold(stack + [cs[0]], cs[1..])
  }

  lemma {:induction false} FirstLenSlash(a: string, b: string)
    requires SLASH !in a
    ensures FirstLen(a + [SLASH] + b) == |a|
  {
    if a != "" {
      FirstLenSlash(a[1..], b);
      assert (a + [SLASH] + b)[1..] == a[1..] + [SLASH] + b;
    }
  }

  lemma {:induction false} FirstLenAll(a: string)
    requires SLASH !in a
    ensures FirstLen(a) == |a|
  {
  }

  lemma CompsSkip(s: string)
    requires s != "" && s[0] == SLASH
    ensures Comps(s) == Comps(s[1..])
  {
  }

  lemma CompsFirst(s: string)
    requires s != "" && s[0] != SLASH
    ensures Comps(s) == [s[..FirstLen(s)]] + Comps(s[FirstLen(s)..])
  {
  }

  lemma NoComps()
    ensures Comps("") == []
  {
  }

  /** A separator separates. */
  lemma {:induction false} CompsSlash(a: string, b: string)
    ensures Comps(a + [SLASH] + b) == Comps(a) + Comps(b)
    decreases |a|
  {
    var n := FirstLen(a);
    assert a != "" && a[0] != SLASH ==> n > 0;
    hide Comps, FirstLen, AllNames;
    NoComps();
    var s := a + [SLASH] + b;
    if a == "" {
      CompsSkip(s);
      assert s[1..] == b;
    } else if a[0] == SLASH {
      CompsSkip(a);
      CompsSkip(s);
      assert s[1..] == a[1..] + [SLASH] + b;
      CompsSlash(a[1..], b);
    } else {
      CompsFirst(a);
      CompsFirst(s);
      FirstLenFront(a, b);
      assert s[n..] == a[n..] + [SLASH] + b && s[..n] == a[..n];
      CompsSlash(a[n..], b);
      assert [a[..n]] + (Comps(a[n..]) + Comps(b)) == ([a[..n]] + Comps(a[n..])) + Comps(b);
    }
  }

  /** What follows a separator does not matter to the first component. */
  lemma FirstLenFront(a: string, b: string)
    ensures FirstLen(a + [SLASH] + b) == FirstLen(a)
  {
    var n := FirstLen(a);
    hide FirstLen;
    if n == |a| {
      assert a[..n] == a;
      FirstLenSlash(a, b);
    } else {
      FirstLenSlash(a[..n], a[n + 1..] + [SLASH] + b);
      assert a + [SLASH] + b == a[..n] + [SLASH] + (a[n + 1..] + [SLASH] + b);
    }
  }

  lemma CompsName(c: string)
    requires IsName(c)
    ensures Comps(c) == [c]
  {
    FirstLenAll(c);
    assert c[|c|..] == "" && c[..|c|] == c;
  }

  /** The components of a text made from components are those components. */
  lemma {:induction false} CompsText(cs: seq<string>, t: bool)
    requires AllNames(cs)
    ensures Comps(Text(cs, t)) == cs
  {
    if cs != [] {
      CompsName(cs[0]);
      if |cs| == 1 && !t {
        assert cs == [cs[0]];
      } else {
        CompsSlash(cs[0], Text(cs[1..], t));
        CompsText(cs[1..], t);
      }
    }
  }

  predicate NoDouble(s: string) {
    forall i :: 0 <= i < |s| - 1 ==> !(s[i] == SLASH && s[i + 1] == SLASH)
  }

  /** Without doubled or leading separators a path is the text of its components. */
  lemma {:induction false} TextComps(s: string)
    requires NoDouble(s) && (s != "" ==> s[0] != SLASH)
    ensures s == Text(Comps(s), s != "" && s[|s| - 1] == SLASH)
    decreases |s|
  {
    if s != "" {
      var n := FirstLen(s);
      if n < |s| {
        var rest := s[n + 1..];
        assert s == s[..n] + [SLASH] + rest;
        assert s[n..][1..] == rest;
        assert forall i :: 0 <= i < |rest| ==> rest[i] == s[n + 1 + i];
        TextComps(rest);
      } else {
        assert s[n..] == "";
      }
    }
  }

  // The in-place passes.

  /** Index of the first separator from `p`, or the length. */
  function StrChr(s: string, p: nat): (i: nat)
    requires p <= |s|
    ensures p <= i <= |s| && SLASH !in s[p..i] && (i < |s| ==> s[i] == SLASH)
  {
    p + FirstLen(s[p..])
  }

  /** Index of the first doubled separator from `p`, or the length. */
  function StrStr(s: string, p: nat): (i: nat)
    requires p <= |s|
    ensures p <= i <= |s|
    ensures i < |s| ==> i + 1 < |s| && s[i] == SLASH && s[i + 1] == SLASH
    ensures forall k :: p <= k < i && k + 1 < |s| ==> !(s[k] == SLASH && s[k + 1] == SLASH)
    decreases |s| - p
  {
    if p + 1 >= |s| then |s|
    else if s[p] == SLASH && s[p + 1] == SLASH then p
    else StrStr(s, p + 1)
  }

  /** memmove of the text after position `from` to position `to`. */
  function Cut(s: string, to: nat, from: nat): string
    requires to <= from <= |s|
  {
    s[..to] + s[from..]
  }

  predicate Trailing(s: string) {
    s != "" && s[|s| - 1] == SLASH
  }

  lemma Undouble(s: string, p: nat)
    requires p + 1 < |s| && s[p] == SLASH && s[p + 1] == SLASH
    ensures Comps(Cut(s, p, p + 1)) == Comps(s) && Trailing(Cut(s, p, p + 1)) == Trailing(s)
  {
    var a, b := s[..p], s[p + 2..];
    assert s == a + [SLASH] + ([SLASH] + b) && ([SLASH] + b)[1..] == b;
    assert Cut(s, p, p + 1) == a + [SLASH] + b;
    CompsSlash(a, [SLASH] + b);
    CompsSlash(a, b);
  }

  method StripDoubles(path: string) returns (s: string)
    ensures NoDouble(s) && Comps(s) == Comps(path) && Trailing(s) == Trailing(path)
  {
    hide Comps, Trailing;
    s := path;
    var p := StrStr(s, 0);
    while p < |s|
      invariant 0 <= p <= |s| && Comps(s) == Comps(path) && Trailing(s) == Trailing(path)
      invariant forall k :: 0 <= k < p && k + 1 < |s| ==> !(s[k] == SLASH && s[k + 1] == SLASH)
      invariant p < |s| ==> p + 1 < |s| && s[p] == SLASH && s[p + 1] == SLASH
      decreases |s|
    {
      Undouble(s, p);
      s := Cut(s, p, p + 1);
      p := StrStr(s, p);
    }
  }

  /** What the element loop sees: normalised directories, then the text still to be read. */
  ghost predicate Reading(s: string, element: nat, stack: seq<string>, rest: seq<string>, t: bool) {
    && s == Dirs(stack) + Text(rest, t) && element == |Dirs(stack)| && AllNames(rest) && AllPlain(stack)
    && (rest == [] && !t ==> stack == [])
  }

  lemma NextElement(s: string, element: nat, stack: seq<string>, rest: seq<string>, t: bool)
    requires Reading(s, element, stack, rest, t)
    ensures AllPlain(stack) && element == |Dirs(stack)| <= |s| && s[..element] == Dirs(stack)
    ensures var p := StrChr(s, element);
            && (rest != [] ==> IsName(rest[0])) && (p == |s| <==> rest == [] || (|rest| == 1 && !t))
            && (rest == [] ==> s[element..p] == "")
            && (rest != [] ==> s[element..p] == rest[0])
            && (p < |s| ==>
                  s[p + 1..] == Text(rest[1..], t) && s == Dirs(stack) + rest[0] + [SLASH] + Text(rest[1..], t))
  {
    hide Dirs, FirstLen;
    assert s[element..] == Text(rest, t) && s[..element] == Dirs(stack);
    if rest != [] {
      if |rest| == 1 && !t {
        FirstLenAll(rest[0]);
      } else {
        FirstLenSlash(rest[0], Text(rest[1..], t));
      }
    }
  }

  lemma {:induction false} DirsSnoc(stack: seq<string>, c: string)
    ensures Dirs(stack + [c]) == Dirs(stack) + c + [SLASH]
  {
    if stack == [] {
      assert [c][1..] == [];
    } else {
      assert (stack + [c])[1..] == stack[1..] + [c];
      DirsSnoc(stack[1..], c);
    }
  }

  lemma {:induction false} TextDirs(stack: seq<string>, c: string)
    ensures Dirs(stack) + c == Text(stack + [c], false) && Dirs(stack) == Text(stack, true)
  {
    if stack == [] {
      assert [c][1..] == [];
    } else {
      assert (stack + [c])[1..] == stack[1..] + [c];
      TextDirs(stack[1..], c);
    }
  }

  /** Where the last directory's name starts, and what is in front of it. */
  lemma ParentText(stack: seq<string>)
    requires AllPlain(stack) && stack != []
    ensures var up, d := stack[..|stack| - 1], Dirs(stack);
            && |Dirs(up)| + 2 <= |d| && d[..|Dirs(up)|] == Dirs(up)
            && (forall k :: |Dirs(up)| <= k < |d| - 1 ==> d[k] != SLASH)
            && (up != [] ==> |Dirs(up)| >= 2 && d[|Dirs(up)| - 1] == SLASH && d[..|Dirs(up)| - 1] == Join(up))
  {
    var up, c := stack[..|stack| - 1], stack[|stack| - 1];
    assert stack == up + [c] && IsPlain(c);
    DirsSnoc(up, c);
    hide Dirs, Text;
    var d, n := Dirs(stack), |Dirs(up)|;
    forall k | n <= k < |d| - 1
      ensures d[k] != SLASH
    {
      assert d[k] == c[k - n];
    }
    if up != [] {
      var up', c' := up[..|up| - 1], up[|up| - 1];
      assert up == up' + [c'] && IsPlain(c');
      DirsSnoc(up', c');
      TextDirs(up', c');
      assert Dirs(up)[..|Dirs(up)| - 1] == Dirs(up') + c';
    }
  }

  /** Scan back from the end of the parent's name to the separator before it, or to the start. */
  method ParentStart(s: string, element: nat, ghost stack: seq<string>) returns (prev: nat)
    requires AllPlain(stack) && stack != [] && element == |Dirs(stack)| <= |s| && s[..element] == Dirs(stack)
    ensures prev + 2 <= element
    ensures |stack| == 1 ==> prev == 0
    ensures |stack| > 1 ==> prev == |Dirs(stack[..|stack| - 1])| - 1 && prev > 0 && s[prev] == SLASH
    ensures prev <= |s| && s[..prev] == Join(stack[..|stack| - 1])
  {
    ParentText(stack);
    hide Dirs, Text;
    ghost var up, d := stack[..|stack| - 1], s[..element];
    Empty();
    prev := element - 2;
    while prev != 0 && s[prev] != SLASH
      invariant (if up == [] then 0 else |Dirs(up)| - 1) <= prev <= element - 2
    {
      assert d[prev] != SLASH;
      prev := prev - 1;
    }
    assert d[..prev] == s[..prev];
    assert prev < element - 1 && s[prev] == d[prev];
  }

  lemma Empty()
    ensures Dirs([]) == "" && Join([]) == ""
  {
  }

  /** Dumping the element and its separator, with or without the directories from `to` on. */
  lemma Dump(s: string, element: nat, stack: seq<string>, rest: seq<string>, t: bool, to: nat, up: seq<string>)
    requires Reading(s, element, stack, rest, t) && StrChr(s, element) < |s|
    requires AllPlain(up) && to <= element && s[..to] == Dirs(up) && (up == [] ==> to == 0)
    requires rest[1..] == [] && !t ==> up == []
    ensures Reading(Cut(s, to, StrChr(s, element) + 1), to, up, rest[1..], t)
  {
    hide Dirs, Text, StrChr;
    NextElement(s, element, stack, rest, t);
    assert |s[..to]| == |Dirs(up)|;
  }

  lemma Step(s: string, element: nat, stack: seq<string>, rest: seq<string>, t: bool)
    requires Reading(s, element, stack, rest, t) && StrChr(s, element) < |s| && IsPlain(s[element..StrChr(s, element)])
    ensures rest != [] && Reading(s, StrChr(s, element) + 1, stack + [rest[0]], rest[1..], t)
  {
    hide Text, StrChr;
    NextElement(s, element, stack, rest, t);
    DirsSnoc(stack, rest[0]);
    hide Dirs;
    var p := StrChr(s, element);
    assert s[..p + 1] == Dirs(stack) + rest[0] + [SLASH];
    assert s == s[..p + 1] + s[p + 1..];
  }

  /** Dump a ".." element along with its parent, if it has one. */
  method DumpParent(path: string, at: nat, p: nat, ghost stack: seq<string>, ghost rest: seq<string>, ghost t: bool)
    returns (s: string, element: nat, ghost up: seq<string>)
    requires Reading(path, at, stack, rest, t) && at <= |path| && p == StrChr(path, at) < |path|
    ensures up == (if stack == [] then [] else stack[..|stack| - 1])
    ensures Reading(s, element, up, rest[1..], t) && element <= |s|
  {
    hide Text, Dirs, StrChr, Reading;
    NextElement(path, at, stack, rest, t);
    Empty();
    if at == 0 {
      DirsNone(stack);
      up, element := [], 0;
      Dump(path, at, stack, rest, t, 0, up);
    } else {
      var prev := ParentStart(path, at, stack);
      if prev != 0 {
        prev := prev + 1;
      }
      ParentText(stack);
      assert path[..prev] == Dirs(stack)[..prev];
      up, element := stack[..|stack| - 1], prev;
      Dump(path, at, stack, rest, t, prev, up);
    }
    s := Cut(path, element, p + 1);
  }

  /** Strip "." and ".." elements, but for the last. */
  method StripElements(path: string, ghost cs: seq<string>, ghost t: bool)
    returns (s: string, element: nat, ghost stack: seq<string>, ghost rest: seq<string>)
    requires path == Text(cs, t) && AllNames(cs)
    ensures Reading(s, element, stack, rest, t) && (rest == [] || (|rest| == 1 && !t))
    ensures element <= |s| && s[element..] == if rest == [] then "" else rest[0]
    ensures Fold(stack, rest) == Fold([], cs)
  {
    Empty();
    s, element, stack, rest := path, 0, [], cs;
    assert Dirs([]) + path == path;
    hide Text, Dirs, StrChr, Reading, Fold;
    var p := StrChr(s, 0);
    while p < |s|
      invariant Reading(s, element, stack, rest, t) && element <= |s| && p == StrChr(s, element)
      invariant Fold(stack, rest) == Fold([], cs)
      decreases |rest|
    {
      NextElement(s, element, stack, rest, t);
      FoldStep(stack, rest);
      if s[element..p] == "." {
        Dump(s, element, stack, rest, t, element, stack);
        s := Cut(s, element, p + 1);
      } else if s[element..p] == ".." {
        s, element, stack := DumpParent(s, element, p, stack, rest, t);
      } else {
        Step(s, element, stack, rest, t);
        element := p + 1;
        stack := stack + [rest[0]];
      }
      rest := rest[1..];
      p := StrChr(s, element);
    }
    NextElement(s, element, stack, rest, t);
  }

  lemma FoldStep(stack: seq<string>, cs: seq<string>)
    requires cs != []
    ensures cs[0] == "." ==> Fold(stack, cs) == Fold(stack, cs[1..])
    ensures cs[0] == ".." ==> Fold(stack, cs) == Fold(if stack == [] then [] else stack[..|stack| - 1], cs[1..])
    ensures cs[0] != "." && cs[0] != ".." ==> Fold(stack, cs) == Fold(stack + [cs[0]], cs[1..])
  {
  }

  lemma DirsNone(stack: seq<string>)
    requires Dirs(stack) == ""
    ensures stack == []
  {
  }

  /** Deal with the last element, which no separator follows. */
  method FinishElements(s: string, element: nat, ghost stack: seq<string>, ghost rest: seq<string>, ghost t: bool)
    returns (r: string)
    requires Reading(s, element, stack, rest, t) && (rest == [] || (|rest| == 1 && !t))
    requires element <= |s| && s[element..] == if rest == [] then "" else rest[0]
    ensures r == Text(Fold(stack, rest), t)
  {
    LastElement(s, element, stack, rest, t);
    FoldLast(stack, rest);
    hide Fold, Reading, Dirs, Text;
    if s[element..] == "." {
      var at := element;
      if element != 0 {
        at := element - 1;
      }
      r := s[..at];
    } else if s[element..] == ".." {
      if element == 0 {
        r := "";
      } else {
        var prev := ParentStart(s, element, stack);
        r := s[..prev];
      }
    } else {
      r := s;
    }
  }

  lemma FoldLast(stack: seq<string>, rest: seq<string>)
    requires |rest| <= 1
    ensures Fold(stack, rest) ==
            if rest == [] || rest[0] == "." then stack
            else if rest[0] == ".." then (if stack == [] then [] else stack[..|stack| - 1])
            else stack + rest
  {
  }

  /** The whole normalisation of a path. */
  method Normalize(path: string) returns (r: string)
    ensures r == Text(Fold([], Comps(path)), Trailing(path))
  {
    hide Comps, Fold, Reading;
    var s := StripDoubles(path);
    if s != "" && s[0] == SLASH {
      assert Cut(s, 0, 1) == s[1..];
      CompsSkip(s);
      s := Cut(s, 0, 1);
    }
    ghost var cs, t := Comps(s), Trailing(s);
    NoComps();
    TextComps(s);
    assert cs == Comps(path) && (cs != [] ==> t == Trailing(path));
    hide Trailing, Cut;
    var element: nat;
    ghost var stack: seq<string>, rest: seq<string>;
    s, element, stack, rest := StripElements(s, cs, t);
    r := FinishElements(s, element, stack, rest, t);
    JoinOf(cs, t);
  }

  lemma LastElement(s: string, element: nat, stack: seq<string>, rest: seq<string>, t: bool)
    requires Reading(s, element, stack, rest, t) && (rest == [] || (|rest| == 1 && !t))
    ensures element <= |s|
    ensures AllPlain(stack) && element == |Dirs(stack)| && s[..element] == Dirs(stack)
    ensures element != 0 ==> s[..element - 1] == Join(stack)
    ensures element == 0 ==> stack == [] && Join(stack) == ""
    ensures rest == [] ==> s == Text(stack, t)
    ensures rest != [] ==> s == Join(stack + rest)
  {
    TextDirs(stack, "");
    if stack != [] {
      var up, c := stack[..|stack| - 1], stack[|stack| - 1];
      assert stack == up + [c];
      DirsSnoc(up, c);
      TextDirs(up, c);
      hide Dirs;
      assert s[..element - 1] == Dirs(up) + c;
    }
    if rest != [] {
      TextDirs(stack, rest[0]);
      assert rest == [rest[0]];
    }
    assert Dirs(stack) + "" == Dirs(stack);
  }

  // Changing directory.

  /** A current directory as the emulator keeps it: plain components, no drive, no outer separators. */
  predicate IsNormal(dir: string) {
    AllPlain(Comps(dir)) && dir == Join(Comps(dir))
  }

  function Full(dir: string, name: string): string {
    if name != "" && name[0] == SLASH then name
    else dir + (if dir != "" then [SLASH] else "") + name
  }

  /** The directory reached from `dir` by `name`, a path without its drive letter. */
  function Chdir(dir: string, name: string): string {
    Text(Fold([], Comps(Full(dir, name))), Trailing(Full(dir, name)))
  }

  /** The names the first check lets through. */
  predicate Accepted(name: string) {
    name == [SLASH] || !Trailing(name)
  }

  lemma {:induction false} FoldConcat(stack: seq<string>, a: seq<string>, b: seq<string>)
    ensures Fold(stack, a + b) == Fold(Fold(stack, a), b)
    decreases |a|
  {
    if a == [] {
      assert a + b == b;
    } else {
      assert (a + b)[1..] == a[1..] + b;
      var next := if a[0] == "." then stack
                  else if a[0] == ".." then (if stack == [] then [] else stack[..|stack| - 1])
                  else stack + [a[0]];
      FoldConcat(next, a[1..], b);
    }
  }

  lemma {:induction false} FoldPlain(stack: seq<string>, cs: seq<string>)
    requires AllPlain(cs)
    ensures Fold(stack, cs) == stack + cs
    decreases |cs|
  {
    if cs != [] {
      FoldPlain(stack + [cs[0]], cs[1..]);
      assert stack + [cs[0]] + cs[1..] == stack + cs;
    } else {
      assert stack + cs == stack;
    }
  }

  lemma {:induction false} FoldKeepsPlain(stack: seq<string>, cs: seq<string>)
    requires AllPlain(stack) && AllNames(cs)
    ensures AllPlain(Fold(stack, cs))
    decreases |cs|
  {
    if cs != [] {
      FoldKeepsPlain(if cs[0] == "." then stack
                     else if cs[0] == ".." then (if stack == [] then [] else stack[..|stack| - 1])
                     else stack + [cs[0]], cs[1..]);
    }
  }

  lemma JoinNormal(cs: seq<string>)
    requires AllPlain(cs)
    ensures IsNormal(Join(cs)) && Comps(Join(cs)) == cs && !Trailing(Join(cs)) && (Join(cs) == "" <==> cs == [])
  {
    CompsText(cs, false);
    if cs != [] {
      var up, c := cs[..|cs| - 1], cs[|cs| - 1];
      assert cs == up + [c] && IsPlain(c);
      TextDirs(up, c);
    }
  }

  lemma FullComps(dir: string, name: string)
    ensures Comps(Full(dir, name)) == if name != "" && name[0] == SLASH then Comps(name) else Comps(dir) + Comps(name)
  {
    if !(name != "" && name[0] == SLASH) {
      if dir != "" {
        CompsSlash(dir, name);
      } else {
        assert Full(dir, name) == name;
      }
    }
  }

  /**
   * From a normalised directory an accepted name leads to the stack fold over the component lists, except that an empty
   * name, a drive letter alone, leaves a separator behind unless the drive is at its root.
   */
  lemma ChdirMeans(dir: string, name: string)
    requires IsNormal(dir) && Accepted(name)
    ensures name == "" && dir != "" ==> Chdir(dir, name) == dir + [SLASH]
    ensures !(name == "" && dir != "") ==>
              Chdir(dir, name) == Join(Fold(if name != "" && name[0] == SLASH then [] else Comps(dir), Comps(name)))
  {
    FullComps(dir, name);
    var cs := Comps(dir);
    FoldPlain([], cs);
    assert [] + cs == cs;
    hide Comps, Fold, Text;
    if name != "" && name[0] == SLASH {
      if name == [SLASH] {
        SlashOnly();
        JoinOf([], true);
      }
    } else {
      FoldConcat([], cs, Comps(name));
      if name == "" && dir != "" {
        EmptyComps();
        assert cs + [] == cs;
        JoinNormal(cs);
        JoinOf(cs, true);
      }
    }
  }

  lemma JoinOf(cs: seq<string>, t: bool)
    ensures Fold([], []) == []
    ensures Text([], t) == "" == Join([])
    ensures cs != [] ==> Text(cs, true) == Join(cs) + [SLASH]
  {
  }

  lemma SlashOnly()
    ensures Comps([SLASH]) == []
  {
    assert [SLASH][1..] == "";
  }

  lemma EmptyComps()
    ensures Comps("") == []
  {
  }

  /** The directory stays normalised for all later calls in exactly the other cases. */
  lemma ChdirKeepsNormal(dir: string, name: string)
    requires IsNormal(dir) && Accepted(name)
    ensures IsNormal(Chdir(dir, name)) <==> !(name == "" && dir != "")
  {
    ChdirMeans(dir, name);
    var stack := if name != "" && name[0] == SLASH then [] else Comps(dir);
    FoldKeepsPlain(stack, Comps(name));
    JoinNormal(Fold(stack, Comps(name)));
    var r := Chdir(dir, name);
    hide Chdir, Comps, Fold;
    if IsNormal(r) {
      JoinNormal(Comps(r));
    }
  }

  /** Going to a\b is going to a and then to b. */
  lemma ChdirComposes(dir: string, a: string, b: string)
    requires IsNormal(dir) && Accepted(a) && a != "" && a != [SLASH]
    requires b != "" && b[0] != SLASH && !Trailing(b)
    ensures Chdir(dir, a + [SLASH] + b) == Chdir(Chdir(dir, a), b)
  {
    var ab := a + [SLASH] + b;
    var root := a[0] == SLASH;
    var stack := if root then [] else Comps(dir);
    assert ab[0] == a[0] && ab[|ab| - 1] == b[|b| - 1];
    CompsSlash(a, b);
    ChdirMeans(dir, ab);
    ChdirMeans(dir, a);
    FoldKeepsPlain(stack, Comps(a));
    JoinNormal(Fold(stack, Comps(a)));
    ChdirMeans(Chdir(dir, a), b);
    FoldConcat(stack, Comps(a), Comps(b));
  }

  /** "..", after descending into a directory, returns. */
  lemma DownThenUp(dir: string, c: string)
    requires IsNormal(dir) && IsPlain(c)
    ensures Chdir(Chdir(dir, c), "..") == dir
  {
    ChdirMeans(dir, c);
    CompsName(c);
    CompsName("..");
    FoldPlain(Comps(dir), [c]);
    var cs := Comps(dir) + [c];
    JoinNormal(cs);
    ChdirMeans(Join(cs), "..");
    assert cs[..|cs| - 1] == Comps(dir);
    hide Comps, Chdir;
    assert [".."][1..] == [];
  }

  const NO_ERROR := 0
  predicate HasLetter(name: string) {
    |name| >= 2 && name[1] == ':' && ('A' <= name[0] <= 'Z' || 'a' <= name[0] <= 'z')
  }

  const ERROR_PATH_NOT_FOUND := 3
  const ERROR_NOT_ENOUGH_MEMORY := 8

  class Disks {
    const current_dir: array<string>   // one per drive
    var current_disk: nat              // 1 is A:

    constructor (disk: nat)
      requires 1 <= disk <= 26
      ensures Valid() && fresh(current_dir) && current_disk == disk
      ensures forall d :: 0 <= d < 26 ==> current_dir[d] == ""
    {
      current_dir := new string[26](_ => "");
      current_disk := disk;
    }

    ghost predicate Valid()
      reads this
    {
      current_dir.Length == 26 && 1 <= current_disk <= 26
    }

    /** The drive a name is about, and the name without its drive letter. */
    function Drive(name: string): (r: (nat, string))
      requires Valid()
      reads this
      ensures r.0 < 26
      ensures HasLetter(name) ==> name == name[..2] + r.1
      ensures HasLetter(name) ==> name[0] as int == 'A' as int + r.0 || name[0] as int == 'a' as int + r.0
      ensures !HasLetter(name) ==> r == (current_disk - 1, name)
    {
      if |name| >= 2 && name[1] == ':' && 'a' <= name[0] <= 'z' then ((name[0] - 'a') as int, name[2..])
      else if |name| >= 2 && name[1] == ':' && 'A' <= name[0] <= 'Z' then ((name[0] - 'A') as int, name[2..])
      else (current_disk - 1, name)
    }

    /**
     * DosSetCurrentDir; `unix` is the error, if any, of finding and entering the directory, `malloc` whether there is
     * memory for its name, and `entered` says that the process is in it.
     */
    method SetCurrentDir(pszName: string, unix: int, malloc: bool) returns (rc: int, entered: bool)
      requires Valid()
      modifies current_dir
      ensures Valid()
      ensures rc == if pszName == "" then NO_ERROR
                    else if pszName != [SLASH] && Trailing(pszName) then ERROR_PATH_NOT_FOUND
                    else if unix == NO_ERROR && !malloc then ERROR_NOT_ENOUGH_MEMORY
                    else unix
      ensures entered <==> pszName != "" && (pszName == [SLASH] || !Trailing(pszName)) && unix == NO_ERROR
      ensures var (d, rest) := Drive(pszName);
              current_dir[..] == if pszName == "" || rc != NO_ERROR then old(current_dir[..])
                                 else old(current_dir[..])[d := Chdir(old(current_dir[d]), rest)]
    {
      if pszName == "" {
        return NO_ERROR, false;
      } else if pszName == [SLASH] {
      } else if pszName[|pszName| - 1] == SLASH {
        return ERROR_PATH_NOT_FOUND, false;
      }
      if unix != NO_ERROR {
        return unix, false;
      }
      hide Chdir, Fold, Comps, Text;
      var (driveidx, name) := Drive(pszName);
      if !malloc {
        return ERROR_NOT_ENOUGH_MEMORY, true;
      }
      var oldpath := if name != "" && name[0] == SLASH then "" else current_dir[driveidx];
      var newpath := oldpath + (if oldpath != "" then [SLASH] else "") + name;
      assert newpath == Full(current_dir[driveidx], name);
      newpath := Normalize(newpath);
      ChdirIs(current_dir[driveidx], name);
      current_dir[driveidx] := newpath;
      return NO_ERROR, true;
    }
  }

  lemma ChdirIs(dir: string, name: string)
    ensures Chdir(dir, name) == Text(Fold([], Comps(Full(dir, name))), Trailing(Full(dir, name)))
  {
  }
}
