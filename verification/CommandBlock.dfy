/** initPib's environment and command line block, and that the readers get back what went in. */
module CommandBlock {
  import opened Base
  import opened CommandLine

  const BLOCK_SIZE := 0x1_0000

  predicate StartsWith(s: string, prefix: string) {
    prefix <= s
  }

  /** The first 253 characters of PATH= and the OS/2 path: the formatting buffer holds no more. */
  function PathVariable(os2path: string): (r: string)
    ensures r <= "PATH=" + os2path && |r| == if |os2path| <= 248 then 5 + |os2path| else 253
  {
    var s := "PATH=" + os2path;
    if |s| <= 253 then s else s[..253]
  }

  /** The variables passed on: the host's own PATH is replaced outside subprocesses, IS_2INE is dropped. */
  function Kept(environ: seq<string>, path: string, subprocess: bool): seq<string> {
    if environ == [] then []
    else KeptAs(environ[0], path, subprocess) + Kept(environ[1..], path, subprocess)
  }

  function KeptAs(s: string, path: string, subprocess: bool): seq<string> {
    if StartsWith(s, "PATH=") then [if subprocess then s else path]
    else if StartsWith(s, "IS_2INE=") then []
    else [s]
  }

  lemma {:induction false} KeptConcat(a: seq<string>, b: seq<string>, path: string, subprocess: bool)
    ensures Kept(a + b, path, subprocess) == Kept(a, path, subprocess) + Kept(b, path, subprocess)
  {
    if a == [] {
      assert a + b == b;
    } else {
      KeptConcat(a[1..], b, path, subprocess);
      assert (a + b)[1..] == a[1..] + b;
    }
  }

  predicate Begins(s: string, prefix: string) {
    |s| >= |prefix| && s[..|prefix|] == prefix
  }

  lemma BeginsFirst(s: string, prefix: string)
    requires prefix != ""
    ensures StartsWith(s, prefix) <==> Begins(s, prefix)
    ensures Begins(s, prefix) ==> s != "" && s[0] == prefix[0]
  {
    if Begins(s, prefix) {
      assert s == s[..|prefix|] + s[|prefix|..];
      assert s[0] == s[..|prefix|][0];
    }
  }

  /**
   * What becomes of a variable, wherever it stands: PATH is itself in a subprocess and the OS/2 path otherwise, IS_2INE
   * is gone, all others stay.
   */
  lemma KeptAt(a: seq<string>, s: string, b: seq<string>, path: string, subprocess: bool)
    ensures var x := if Begins(s, "PATH=") then [if subprocess then s else path]
                     else if Begins(s, "IS_2INE=") then [] else [s];
            Kept(a + [s] + b, path, subprocess) == Kept(a, path, subprocess) + x + Kept(b, path, subprocess)
  {
    KeptConcat(a, [s] + b, path, subprocess);
    assert a + [s] + b == a + ([s] + b) && ([s] + b)[1..] == b;
    BeginsFirst(s, "PATH=");
    BeginsFirst(s, "IS_2INE=");
    hide StartsWith, Begins;
  }

  /** The last LIBPATH variable's value, or the default. */
  function LibPath(environ: seq<string>, default: string): string {
    if environ == [] then default
    else LibPath(environ[1..], if StartsWith(environ[0], "LIBPATH=") then environ[0][8..] else default)
  }

  /** Without a LIBPATH variable the default stays. */
  lemma {:induction false} LibPathNone(environ: seq<string>, default: string)
    requires forall i :: 0 <= i < |environ| ==> !Begins(environ[i], "LIBPATH=")
    ensures LibPath(environ, default) == default
  {
    hide Begins;
    if environ != [] {
      BeginsFirst(environ[0], "LIBPATH=");
      LibPathNone(environ[1..], default);
    }
  }

  /** The LIBPATH variable that comes last decides. */
  lemma {:induction false} LibPathLast(a: seq<string>, value: string, b: seq<string>, default: string)
    requires forall i :: 0 <= i < |b| ==> !Begins(b[i], "LIBPATH=")
    ensures LibPath(a + ["LIBPATH=" + value] + b, default) == value
  {
    var s := "LIBPATH=" + value;
    var all := a + [s] + b;
    if a == [] {
      assert all[1..] == b && s[8..] == value && StartsWith(s, "LIBPATH=");
      LibPathNone(b, value);
    } else {
      assert all[1..] == a[1..] + [s] + b;
      LibPathLast(a[1..], value, b, if StartsWith(a[0], "LIBPATH=") then a[0][8..] else default);
    }
  }

  /** The block: environment, an empty string, the program's name, and its name again before the command line. */
  function Block(vars: seq<string>, argv: seq<string>): string
    requires argv != []
  {
    Flat(vars) + "\0" + argv[0] + "\0" + (argv[0] + "\0" + Join(argv[1..]) + "\0")
  }

  /** Characters copied and the pointer moved past them, unless that runs out of the block. */
  method Write(buf: array<char>, ptr: nat, s: string) returns (ok: bool, ptr': nat)
    requires ptr <= buf.Length
    modifies buf
    ensures ok <==> ptr + |s| <= buf.Length
    ensures ok ==> ptr' == ptr + |s| && buf[..ptr'] == old(buf[..ptr]) + s
  {
    ok, ptr' := ptr + |s| <= buf.Length, ptr;
    if !ok {
      return;
    }
    forall k | 0 <= k < |s| {
      buf[ptr + k] := s[k];
    }
    ptr' := ptr + |s|;
    assert buf[..ptr] == old(buf[..ptr]);
    assert buf[ptr..ptr'] == s;
    assert buf[..ptr'] == buf[..ptr] + buf[ptr..ptr'];
  }

  method NeedsEscape(arg: string) returns (needed: bool)
    ensures needed <==> HasBlank(arg)
  {
    needed := false;
    for i := 0 to |arg|
      invariant needed <==> exists k :: 0 <= k < i && Blank(arg[k])
    {
      if Blank(arg[i]) {
        needed := true;
      }
    }
  }

  lemma EscapeFirst(s: string)
    requires s != ""
    ensures Escape(s) == (if s[0] == '\\' || s[0] == '\n' then "\\" else "") + [s[0]] + Escape(s[1..])
  {
  }

  method WriteEscaped(buf: array<char>, ptr0: nat, arg: string) returns (ok: bool, ptr: nat)
    requires ptr0 <= buf.Length
    modifies buf
    ensures ok <==> ptr0 + |Escape(arg)| <= buf.Length
    ensures ok ==> ptr == ptr0 + |Escape(arg)| && buf[..ptr] == old(buf[..ptr0]) + Escape(arg)
  {
    ok, ptr := true, ptr0;
    ghost var head := buf[..ptr0];
    assert arg[0..] == arg;
    for i := 0 to |arg|
      invariant ptr <= buf.Length && ptr + |Escape(arg[i..])| == ptr0 + |Escape(arg)|
      invariant buf[..ptr] + Escape(arg[i..]) == head + Escape(arg)
    {
      hide Escape;
      EscapeFirst(arg[i..]);
      assert arg[i..][1..] == arg[i + 1..];
      ghost var before := buf[..ptr];
      var ch := arg[i];
      if ch == '\\' || ch == '\n' {
        ok, ptr := Write(buf, ptr, "\\");
        if !ok {
          return;
        }
      }
      ok, ptr := Write(buf, ptr, [ch]);
      if !ok {
        return;
      }
      assert before + Escape(arg[i..]) == buf[..ptr] + Escape(arg[i + 1..]);
    }
  }

  method WriteToken(buf: array<char>, ptr0: nat, arg: string) returns (ok: bool, ptr: nat)
    requires ptr0 <= buf.Length
    modifies buf
    ensures ok <==> ptr0 + |Token(arg)| <= buf.Length
    ensures ok ==> ptr == ptr0 + |Token(arg)| && buf[..ptr] == old(buf[..ptr0]) + Token(arg)
  {
    hide Escape, HasBlank;
    var escape := NeedsEscape(arg);
    if !escape {
      ok, ptr := Write(buf, ptr0, arg);
      return;
    }
    ok, ptr := Write(buf, ptr0, "\"");
    if ok {
      ok, ptr := WriteEscaped(buf, ptr, arg);
    }
    if ok {
      ok, ptr := Write(buf, ptr, "\"");
    }
  }

  /** The arguments after the program name, with a space between them. */
  method WriteArguments(buf: array<char>, ptr0: nat, argv: seq<string>) returns (ok: bool, ptr: nat)
    requires argv != [] && ptr0 <= buf.Length
    modifies buf
    ensures ok <==> ptr0 + |Join(argv[1..])| <= buf.Length
    ensures ok ==> ptr == ptr0 + |Join(argv[1..])| && buf[..ptr] == old(buf[..ptr0]) + Join(argv[1..])
  {
    ok, ptr := true, ptr0;
    ghost var head := buf[..ptr0];
    for i := 1 to |argv|
      invariant ptr <= buf.Length && ptr + |Join(argv[i..])| == ptr0 + |Join(argv[1..])|
      invariant buf[..ptr] + Join(argv[i..]) == head + Join(argv[1..])
    {
      hide Join, Token;
      ArgumentFirst(argv[i..]);
      assert argv[i..][1..] == argv[i + 1..];
      ghost var before := buf[..ptr];
      ok, ptr := WriteToken(buf, ptr, argv[i]);
      if ok && i < |argv| - 1 {
        ok, ptr := Write(buf, ptr, " ");
      }
      if !ok {
        return;
      }
      assert before + Join(argv[i..]) == buf[..ptr] + Join(argv[i + 1..]);
    }
  }

  lemma ArgumentFirst(args: seq<string>)
    requires args != []
    ensures Join(args) == Token(args[0]) + (if |args| == 1 then "" else " ") + Join(args[1..])
  {
  }

  /** One variable of the host's environment, or nothing. */
  method WriteVariable(buf: array<char>, ptr0: nat, variable: string, path: string, subprocess: bool, libpath0: string)
    returns (ok: bool, ptr: nat, libpath: string)
    requires ptr0 <= buf.Length
    modifies buf
    ensures ok <==> ptr0 + |Flat(KeptAs(variable, path, subprocess))| <= buf.Length
    ensures ok ==> ptr == ptr0 + |Flat(KeptAs(variable, path, subprocess))|
    ensures ok ==> buf[..ptr] == old(buf[..ptr0]) + Flat(KeptAs(variable, path, subprocess))
    ensures libpath == if StartsWith(variable, "LIBPATH=") then variable[8..] else libpath0
  {
    ok, ptr, libpath := true, ptr0, libpath0;
    var str := variable;
    OneString(path);
    OneString(str);
    FirstLetter(str, "PATH=");
    FirstLetter(str, "LIBPATH=");
    FirstLetter(str, "IS_2INE=");
    if StartsWith(str, "PATH=") {
      if !subprocess {
        str := path;
      }
    } else if StartsWith(str, "LIBPATH=") {
      libpath := str[8..];
    } else if StartsWith(str, "IS_2INE=") {
      return;
    }
    hide Flat;
    ok, ptr := Write(buf, ptr, str + "\0");
  }

  lemma FirstLetter(s: string, prefix: string)
    requires prefix != ""
    ensures StartsWith(s, prefix) ==> s != "" && s[0] == prefix[0]
  {
  }

  lemma OneString(s: string)
    ensures Flat([s]) == s + "\0" && Flat([]) == ""
  {
  }

  /** The environment part. */
  method WriteEnvironment(buf: array<char>, environ: seq<string>, path: string, subprocess: bool)
    returns (ok: bool, ptr: nat, libpath: string)
    modifies buf
    ensures ok <==> |Flat(Kept(environ, path, subprocess))| <= buf.Length
    ensures ok ==> ptr == |Flat(Kept(environ, path, subprocess))|
    ensures ok ==> buf[..ptr] == Flat(Kept(environ, path, subprocess)) && libpath == LibPath(environ, "")
  {
    ok, ptr, libpath := true, 0, "";
    ghost var all := Flat(Kept(environ, path, subprocess));
    assert environ[0..] == environ;
    OneString("");
    for i := 0 to |environ|
      invariant ptr <= buf.Length && ptr + |Flat(Kept(environ[i..], path, subprocess))| == |all|
      invariant buf[..ptr] + Flat(Kept(environ[i..], path, subprocess)) == all
      invariant LibPath(environ[i..], libpath) == LibPath(environ, "")
    {
      hide Flat, KeptAs, StartsWith;
      ghost var before, s := buf[..ptr], KeptAs(environ[i], path, subprocess);
      ghost var rest := Kept(environ[i + 1..], path, subprocess);
      assert environ[i..][1..] == environ[i + 1..];
      FlatConcat(s, rest);
      Regrouped(before, Flat(s), Flat(rest));
      ok, ptr, libpath := WriteVariable(buf, ptr, environ[i], path, subprocess, libpath);
      if !ok {
        return;
      }
    }
  }

  lemma Regrouped(a: string, b: string, c: string)
    ensures a + (b + c) == (a + b) + c
  {
  }

  /** The program's name and command line, and where they begin. */
  method WriteCommand(buf: array<char>, ptr0: nat, argv: seq<string>) returns (ok: bool, ptr: nat)
    requires argv != [] && ptr0 <= buf.Length
    modifies buf
    ensures ok <==> ptr0 + |argv[0] + "\0" + Join(argv[1..]) + "\0"| <= buf.Length
    ensures ok ==> ptr0 <= ptr <= buf.Length && buf[..ptr0] == old(buf[..ptr0])
    ensures ok ==> buf[ptr0..ptr] == argv[0] + "\0" + Join(argv[1..]) + "\0"
  {
    hide Join;
    ghost var before := buf[..ptr0];
    ok, ptr := Write(buf, ptr0, argv[0]);
    if ok {
      ok, ptr := Write(buf, ptr, "\0");
    }
    if ok {
      ok, ptr := WriteArguments(buf, ptr, argv);
    }
    if ok {
      ok, ptr := Write(buf, ptr, "\0");
    }
    if ok {
      assert buf[..ptr] == before + (argv[0] + "\0" + Join(argv[1..]) + "\0");
      assert buf[..ptr0] == buf[..ptr][..ptr0];
      assert buf[ptr0..ptr] == buf[..ptr][ptr0..];
    }
  }

  /** The block as initPib builds it; one of more than 64K runs out of the memory allocated for it. */
  method BuildBlock(buf: array<char>, argv: seq<string>, environ: seq<string>, os2path: string, subprocess: bool)
    returns (ok: bool, cmd: nat, end: nat, libpath: string)
    requires argv != [] && buf.Length == BLOCK_SIZE
    modifies buf
    ensures ok <==> |Block(Kept(environ, PathVariable(os2path), subprocess), argv)| <= BLOCK_SIZE
    ensures ok ==> end <= BLOCK_SIZE && buf[..end] == Block(Kept(environ, PathVariable(os2path), subprocess), argv)
    ensures ok ==> cmd <= end && buf[cmd..end] == argv[0] + "\0" + Join(argv[1..]) + "\0"
    ensures ok ==> buf[..cmd] == Flat(Kept(environ, PathVariable(os2path), subprocess)) + "\0" + argv[0] + "\0"
    ensures ok ==> libpath == LibPath(environ, "")
  {
    hide Kept, Flat, Join, LibPath;
    var path := PathVariable(os2path);
    ghost var vars := Kept(environ, path, subprocess);
    cmd := 0;
    ok, end, libpath := WriteEnvironment(buf, environ, path, subprocess);
    if ok {
      ok, end := Write(buf, end, "\0");
    }
    if ok {
      ok, end := Write(buf, end, argv[0] + "\0");
    }
    if ok {
      cmd := end;
      ok, end := WriteCommand(buf, cmd, argv);
      assert ok ==> buf[..end] == buf[..cmd] + buf[cmd..end];
    }
  }

  /** One argument alone can be too long for the block. */
  lemma LongArgument(vars: seq<string>, argv: seq<string>)
    requires |argv| == 2 && |argv[1]| >= BLOCK_SIZE
    ensures |Block(vars, argv)| > BLOCK_SIZE
  {
    hide Flat;
    assert argv[1..] == [argv[1]];
    assert Join([argv[1]]) == Token(argv[1]);
  }

  /** The command line has no terminator inside. */
  lemma {:induction false} JoinIsCString(args: seq<string>)
    requires forall i :: 0 <= i < |args| ==> CString(args[i])
    ensures CString(Join(args))
  {
    if args != [] {
      JoinIsCString(args[1..]);
      TokenIsCString(args[0]);
      hide Token;
    }
  }

  lemma {:induction false} EscapeIsCString(s: string)
    requires CString(s)
    ensures CString(Escape(s))
  {
    if s != "" {
      assert s[0] in s;
      EscapeIsCString(s[1..]);
    }
  }

  lemma TokenIsCString(a: string)
    requires CString(a)
    ensures CString(Token(a))
  {
    EscapeIsCString(a);
  }

  /** What the block's reader is entitled to assume, and that it gets the original arguments back. */
  lemma ArgumentsSurvive(argv: seq<string>)
    requires argv != [] && AllFine(argv[1..]) && forall i :: 0 <= i < |argv| ==> CString(argv[i])
    ensures CString(Join(argv[1..])) && |Words(Join(argv[1..]))| <= 1 + Blanks(Join(argv[1..]))
    ensures [argv[0]] + Words(Join(argv[1..])) == argv
  {
    hide Words, Join, Blanks;
    JoinIsCString(argv[1..]);
    AllNonEmpty(argv[1..]);
    RoundTrip(argv[1..]);
    BlanksBetween(argv[1..]);
  }

  lemma AllNonEmpty(args: seq<string>)
    requires AllFine(args)
    ensures forall i :: 0 <= i < |args| ==> args[i] != ""
  {
  }
}
