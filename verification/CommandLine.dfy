/** The environment and command line block handed to OS/2 programs, and the readers that take it apart again. */
module CommandLine {
  import opened Base

  predicate Blank(c: char) {
    c == ' ' || c == '\t'
  }

  predicate HasBlank(s: string) {
    exists i :: 0 <= i < |s| && Blank(s[i])
  }

  predicate CString(s: string) {
    '\0' !in s
  }

  // What the loader writes.

  function Escape(s: string): (e: string)
    ensures |e| >= |s|
  {
    if s == "" then ""
    else (if s[0] == '\\' || s[0] == '\n' then "\\" else "") + [s[0]] + Escape(s[1..])
  }

  /** One argument as it stands in the command line. */
  function Token(a: string): string {
    if HasBlank(a) then "\"" + Escape(a) + "\"" else a
  }

  function Join(args: seq<string>): string {
    if args == [] then "" else if |args| == 1 then Token(args[0]) else Token(args[0]) + " " + Join(args[1..])
  }

  /** Strings one after the other, each with its terminator. */
  function Flat(strings: seq<string>): string {
    if strings == [] then "" else strings[0] + "\0" + Flat(strings[1..])
  }

  lemma {:induction false} FlatAppend(a: seq<string>, s: string)
    ensures Flat(a + [s]) == Flat(a) + s + "\0"
  {
    if a == [] {
      assert a + [s] == [s] && Flat([s]) == s + "\0" + Flat([]);
    } else {
      FlatAppend(a[1..], s);
      assert (a + [s])[1..] == a[1..] + [s];
    }
  }

  lemma {:induction false} FlatConcat(a: seq<string>, b: seq<string>)
    ensures Flat(a + b) == Flat(a) + Flat(b)
  {
    if a == [] {
      assert a + b == b;
    } else {
      FlatConcat(a[1..], b);
      assert (a + b)[1..] == a[1..] + b;
    }
  }

  // What calcArgv reads.

  function SkipBlanks(s: string): (r: string)
    ensures |r| <= |s|
    ensures r != "" ==> !Blank(r[0])
  {
    if s != "" && Blank(s[0]) then SkipBlanks(s[1..]) else s
  }

  /** Position of the first quote, or the length. */
  function QuoteIn(s: string): (q: nat)
    ensures q <= |s| && '"' !in s[..q] && (q < |s| ==> s[q] == '"')
  {
    if s == "" || s[0] == '"' then 0
    else
      var q := QuoteIn(s[1..]);
      assert s[..q + 1] == [s[0]] + s[1..][..q];
      q + 1
  }

  /** The words from a word's start, of which `n` characters have been scanned. */
  function Scan(s: string, n: nat): seq<string>
    requires n <= |s|
    decreases |s|, |s| - n
  {
    if n == |s| then (if s == "" then [] else [s])
    else if Blank(s[n]) then [s[..n]] + Scan(SkipBlanks(s[n + 1..]), 0)
    else if s[n] == '"' then [QuotedWord(s, n)] + Scan(AfterQuoted(s, n), 0)
    else Scan(s, n + 1)
  }

  /** A quote ends the word at the next quote, and drops the word's first character whatever it is. */
  function QuotedWord(s: string, n: nat): string
    requires n < |s| && s[n] == '"'
  {
    s[1..n + 1 + QuoteIn(s[n + 1..])]
  }

  function AfterQuoted(s: string, n: nat): (r: string)
    requires n < |s| && s[n] == '"'
    ensures |r| < |s|
  {
    var e := n + 1 + QuoteIn(s[n + 1..]);
    SkipBlanks(if e < |s| then s[e + 1..] else "")
  }

  function Words(text: string): seq<string> {
    Scan(SkipBlanks(text), 0)
  }

  function Blanks(s: string): nat {
    if s == "" then 0 else (if Blank(s[0]) then 1 else 0) + Blanks(s[1..])
  }

  // Reading undoes writing.

  /** Arguments that survive. */
  predicate Fine(a: string) {
    a != "" && '"' !in a && (HasBlank(a) ==> '\\' !in a && '\n' !in a)
  }

  predicate AllFine(args: seq<string>) {
    forall i :: 0 <= i < |args| ==> Fine(args[i])
  }

  lemma {:induction false} EscapeLonger(s: string)
    ensures |Escape(s)| == |s| <==> '\\' !in s && '\n' !in s
    ensures '\\' !in s && '\n' !in s ==> Escape(s) == s
  {
    if s != "" {
      EscapeLonger(s[1..]);
      assert s == [s[0]] + s[1..];
    }
  }

  lemma {:induction false} EscapeQuotes(s: string)
    ensures '"' in Escape(s) <==> '"' in s
  {
    if s != "" {
      EscapeQuotes(s[1..]);
      assert s == [s[0]] + s[1..];
    }
  }

  lemma {:induction false} ScanPlain(a: string, rest: string, n: nat)
    requires n <= |a| && a != "" && !HasBlank(a) && '"' !in a && (rest != "" ==> Blank(rest[0]))
    ensures Scan(a + rest, n) == [a] + if rest == "" then [] else Scan(SkipBlanks(rest[1..]), 0)
    decreases |a| - n
  {
    var s := a + rest;
    if n < |a| {
      assert s[n] == a[n] && a[n] in a;
      ScanPlain(a, rest, n + 1);
    } else if rest == "" {
      assert s == a;
    } else {
      assert s[..n] == a && s[n + 1..] == rest[1..];
    }
  }

  lemma {:induction false} QuoteAfter(e: string, rest: string)
    requires '"' !in e
    ensures QuoteIn(e + "\"" + rest) == |e|
  {
    if e != "" {
      assert e[0] in e && (e + "\"" + rest)[1..] == e[1..] + "\"" + rest;
      QuoteAfter(e[1..], rest);
    }
  }

  lemma ScanQuoted(e: string, rest: string)
    requires '"' !in e
    ensures Scan("\"" + e + "\"" + rest, 0) == [e] + Scan(SkipBlanks(rest), 0)
  {
    hide QuoteIn, SkipBlanks;
    var s := "\"" + e + "\"" + rest;
    assert s[1..] == e + "\"" + rest;
    QuoteAfter(e, rest);
    assert QuotedWord(s, 0) == e && s[|e| + 2..] == rest;
    assert AfterQuoted(s, 0) == SkipBlanks(rest);
  }

  lemma {:induction false} SkipNothing(s: string)
    requires s != "" && !Blank(s[0])
    ensures SkipBlanks(s) == s
  {
  }

  /** The text after the first argument. */
  function Rest(args: seq<string>): string
    requires args != []
  {
    if |args| == 1 then "" else " " + Join(args[1..])
  }

  lemma JoinFirst(args: seq<string>)
    requires args != []
    ensures Join(args) == Token(args[0]) + Rest(args)
    ensures Words(Join(args[1..])) == if Rest(args) == "" then [] else Scan(SkipBlanks(Rest(args)[1..]), 0)
    ensures Words(Join(args[1..])) == Scan(SkipBlanks(Rest(args)), 0)
  {
    hide Token, Scan;
    if |args| == 1 {
      assert args[1..] == [];
      assert Join([]) == "" && Token(args[0]) + "" == Token(args[0]);
      NoWords();
    } else {
      assert Token(args[0]) + (" " + Join(args[1..])) == Token(args[0]) + " " + Join(args[1..]);
      assert Rest(args)[1..] == Join(args[1..]);
    }
  }

  lemma NoWords()
    ensures Words("") == []
  {
  }

  /** An argument without quotes gives back one word, its escaped form if it has blanks. */
  lemma FirstWord(args: seq<string>)
    requires args != [] && args[0] != "" && '"' !in args[0]
    ensures Words(Join(args)) == [if HasBlank(args[0]) then Escape(args[0]) else args[0]] + Words(Join(args[1..]))
  {
    var a, rest := args[0], Rest(args);
    JoinFirst(args);
    hide Scan, SkipBlanks, Join;
    SkipNothing(Token(a) + rest);
    if HasBlank(a) {
      EscapeQuotes(a);
      ScanQuoted(Escape(a), rest);
    } else {
      ScanPlain(a, rest, 0);
    }
  }

  /** An empty argument gives no word. */
  lemma EmptyWord(args: seq<string>)
    requires args != [] && args[0] == ""
    ensures Words(Join(args)) == Words(Join(args[1..]))
  {
  }

  /** An argument with a quote in it comes back as something else. */
  lemma QuotedArgument(args: seq<string>)
    requires args != [] && '"' in args[0]
    ensures Words(Join(args)) == [] || Words(Join(args))[0] != args[0]
  {
    var a, rest := args[0], Rest(args);
    JoinFirst(args);
    hide SkipBlanks, Join;
    var s := Token(a) + rest;
    if HasBlank(a) {
      EscapeQuotes(a);
      SkipNothing(s);
      QuotedHead(s);
      assert '"' !in Scan(s, 0)[0];
    } else {
      var u := QuoteIn(a);
      assert u < |a| by {
        assert a[..|a|] == a;
      }
      SkipNothing(s);
      ScanToQuote(a, rest, 0);
      if u == 0 {
        QuotedHead(s);
      } else {
        assert Scan(s, 0)[0][u - 1] == '"';
        assert a[..u][u - 1] in a[..u];
      }
    }
  }

  lemma QuotedHead(s: string)
    requires s != "" && s[0] == '"'
    ensures Scan(s, 0) != [] && '"' !in Scan(s, 0)[0]
  {
    assert s[1..1 + QuoteIn(s[1..])] == s[1..][..QuoteIn(s[1..])];
  }

  lemma {:induction false} ScanToQuote(a: string, rest: string, n: nat)
    requires !HasBlank(a) && n <= QuoteIn(a) < |a|
    ensures var s, u := a + rest, QuoteIn(a); Scan(s, n) == [QuotedWord(s, u)] + Scan(AfterQuoted(s, u), 0)
    decreases |a| - n
  {
    if n < QuoteIn(a) {
      assert a[..QuoteIn(a)][n] == a[n] == (a + rest)[n];
      ScanToQuote(a, rest, n + 1);
    }
  }

  /** How many words come back when no argument has a quote. */
  lemma {:induction false} WordCount(args: seq<string>)
    requires forall i :: 0 <= i < |args| ==> '"' !in args[i]
    ensures |Words(Join(args))| <= |args|
    ensures (exists i :: 0 <= i < |args| && args[i] == "") ==> |Words(Join(args))| < |args|
  {
    if args == [] {
      NoWords();
    } else {
      WordCount(args[1..]);
      assert forall i :: 0 < i < |args| ==> args[1..][i - 1] == args[i];
      hide Words, Join;
      if args[0] == "" {
        EmptyWord(args);
      } else {
        FirstWord(args);
      }
    }
  }

  lemma FineMeans(a: string)
    ensures Fine(a) <==> a != "" && '"' !in a && (HasBlank(a) ==> '\\' !in a && '\n' !in a)
  {
  }

  lemma AllFineFirst(args: seq<string>)
    requires args != []
    ensures AllFine(args) <==> Fine(args[0]) && AllFine(args[1..])
  {
  }

  // An empty argument first: its place would have to be taken by a word that a quote makes empty.

  predicate OneQuote(s: string) {
    QuoteIn(s) < |s| ==> '"' !in s[QuoteIn(s) + 1..]
  }

  predicate OneQuoteEach(words: seq<string>) {
    forall i :: 0 <= i < |words| ==> OneQuote(words[i])
  }

  lemma {:induction false} QuoteFirst(a: string, rest: string)
    requires '"' !in a
    ensures QuoteIn(a + rest) == |a| + QuoteIn(rest)
  {
    if a == "" {
      assert a + rest == rest;
    } else {
      assert a[0] in a && (a + rest)[1..] == a[1..] + rest;
      QuoteFirst(a[1..], rest);
    }
  }

  lemma NoQuote(s: string)
    requires '"' !in s
    ensures QuoteIn(s) == |s| && OneQuote(s)
  {
    QuoteFirst(s, "");
    assert s + "" == s;
  }

  lemma HeadOneQuote(s: string, n: nat)
    requires n < |s| && s[n] == '"' && '"' !in s[..n]
    ensures OneQuote(QuotedWord(s, n))
  {
    var after := s[n + 1..];
    var q := after[..QuoteIn(after)];
    if n == 0 {
      assert s[1..1 + QuoteIn(after)] == q;
      assert QuotedWord(s, 0) == q;
      NoQuote(q);
    } else {
      var front := s[1..n];
      assert forall c :: c in front ==> c in s[..n];
      assert QuotedWord(s, n) == front + ("\"" + q);
      QuoteFirst(front, "\"" + q);
      assert QuoteIn("\"" + q) == 0;
      assert QuotedWord(s, n)[|front| + 1..] == q;
    }
  }

  /** A word holds one quote at most. */
  lemma {:induction false} WordsOneQuote(s: string, n: nat)
    requires n <= |s| && '"' !in s[..n]
    ensures OneQuoteEach(Scan(s, n))
    decreases |s|, |s| - n
  {
    hide QuoteIn, SkipBlanks, QuotedWord, OneQuote;
    if n == |s| {
      assert s[..n] == s;
      NoQuote(s);
    } else if Blank(s[n]) {
      NoQuote(s[..n]);
      WordsOneQuote(SkipBlanks(s[n + 1..]), 0);
    } else if s[n] == '"' {
      HeadOneQuote(s, n);
      WordsOneQuote(AfterQuoted(s, n), 0);
    } else {
      assert s[..n + 1] == s[..n] + [s[n]];
      WordsOneQuote(s, n + 1);
    }
  }

  /** The number of empty arguments in front. */
  function Lead(args: seq<string>): (k: nat)
    ensures k <= |args| && (forall i :: 0 <= i < k ==> args[i] == "") && (k < |args| ==> args[k] != "")
  {
    if args == [] || args[0] != "" then 0 else 1 + Lead(args[1..])
  }

  lemma SkipOne(args: seq<string>)
    requires args != [] && args[0] == ""
    ensures SkipBlanks(Join(args)) == SkipBlanks(Join(args[1..]))
  {
    if |args| > 1 {
      assert Token("") == "" && Join(args) == " " + Join(args[1..]);
      BlankFirst(Join(args[1..]));
    }
  }

  lemma {:induction false} SkipLead(args: seq<string>)
    ensures SkipBlanks(Join(args)) == SkipBlanks(Join(args[Lead(args)..]))
  {
    hide Join, SkipBlanks;
    if args != [] && args[0] == "" {
      SkipOne(args);
      SkipLead(args[1..]);
      assert args[Lead(args)..] == args[1..][Lead(args[1..])..];
    } else {
      assert args[Lead(args)..] == args;
    }
  }

  lemma TokenFront(a: string, rest: string)
    requires a != ""
    ensures Token(a) != "" && !Blank((Token(a) + rest)[0]) && SkipBlanks(Token(a) + rest) == Token(a) + rest
    ensures (Token(a) + rest)[0] == '"' || ((Token(a) + rest)[0] == a[0] && Token(a) == a)
  {
  }

  lemma SkipToFirst(args: seq<string>)
    ensures var k := Lead(args);
            SkipBlanks(Join(args)) == if k == |args| then "" else Token(args[k]) + Rest(args[k..])
  {
    SkipLead(args);
    var k := Lead(args);
    if k < |args| {
      hide Token, Rest, Join, SkipBlanks;
      JoinFirst(args[k..]);
      TokenFront(args[k], Rest(args[k..]));
    }
  }

  lemma RestFront(args: seq<string>)
    requires args != []
    ensures Rest(args) == "" <==> |args| == 1
    ensures Rest(args) != "" ==> Rest(args)[0] == ' ' && Rest(args)[1..] == Join(args[1..])
  {
  }

  /** A word that a quote begins is all up to the next one. */
  lemma QuoteAtFront(s: string, after: string)
    requires s != "" && s[0] == '"' && after == s[1..]
    ensures QuotedWord(s, 0) == after[..QuoteIn(after)] && AfterQuoted(s, 0) == AfterQuote(after)
    ensures Scan(s, 0) == [after[..QuoteIn(after)]] + Scan(AfterQuote(after), 0)
  {
    var q := QuoteIn(after);
    assert s[1..1 + q] == after[..q];
    if q < |after| {
      assert s[q + 2..] == after[q + 1..];
    }
  }

  /** The text behind a quoted part. */
  function AfterQuote(after: string): string {
    SkipBlanks(if QuoteIn(after) < |after| then after[QuoteIn(after) + 1..] else "")
  }

  lemma QuoteInside(a: string, after: string)
    ensures var s := a + ("\"" + after);
            && QuotedWord(s, |a|) == (a + "\"" + after[..QuoteIn(after)])[1..]
            && AfterQuoted(s, |a|) == AfterQuote(after)
  {
    var s, n, q := a + ("\"" + after), |a|, QuoteIn(after);
    hide QuoteIn, SkipBlanks;
    assert s[n + 1..] == after;
    assert q < |after| ==> s[n + 1 + q + 1..] == after[q + 1..];
  }

  /** A word with characters before its quote. */
  lemma {:induction false} ScanInner(a: string, after: string, n: nat)
    requires n <= |a| && !HasBlank(a) && '"' !in a
    ensures var s := a + ("\"" + after);
            Scan(s, n) == [(a + "\"" + after[..QuoteIn(after)])[1..]] + Scan(AfterQuote(after), 0)
    decreases |a| - n
  {
    hide QuoteIn, SkipBlanks, QuotedWord, AfterQuote;
    var s := a + ("\"" + after);
    if n < |a| {
      assert s[n] == a[n] && a[n] in a;
      ScanInner(a, after, n + 1);
    } else {
      assert s[n] == '"';
      QuoteInside(a, after);
    }
  }

  lemma FirstScan(args: seq<string>)
    requires Words(Join(args)) != []
    ensures var k := Lead(args);
            && k < |args|
            && Words(Join(args)) == Scan(Token(args[k]) + Rest(args[k..]), 0)
            && (Rest(args[k..]) == "" <==> k == |args| - 1)
            && (Rest(args[k..]) != "" ==> Rest(args[k..])[0] == ' ')
  {
    SkipToFirst(args);
    if Lead(args) < |args| {
      RestFront(args[Lead(args)..]);
    } else {
      NoWords();
    }
  }

  /** The first word of an argument with blanks. */
  lemma BlankShape(x: string, rest: string)
    requires HasBlank(x)
    ensures var after := Escape(x) + "\"" + rest;
            Scan(Token(x) + rest, 0) == [after[..QuoteIn(after)]] + Scan(AfterQuote(after), 0)
  {
    hide HasBlank, Escape, QuoteIn, SkipBlanks, Scan;
    var after := Escape(x) + "\"" + rest;
    assert Token(x) + rest == "\"" + after;
    QuoteAtFront("\"" + after, after);
  }

  /** The first word of an argument without blanks that has one quote. */
  lemma InnerShape(x: string, rest: string)
    requires !HasBlank(x) && '"' in x && OneQuote(x)
    ensures var u := QuoteIn(x);
            && u < |x| && '"' !in x[..u] && '"' !in x[u + 1..]
            && var after := x[u + 1..] + rest;
            Scan(Token(x) + rest, 0) == [(x[..u] + "\"" + after[..QuoteIn(after)])[1..]] + Scan(AfterQuote(after), 0)
  {
    hide Escape, SkipBlanks, Scan;
    var u := QuoteIn(x);
    assert u < |x| by {
      assert x[..|x|] == x;
    }
    var after := x[u + 1..] + rest;
    assert Token(x) + rest == x[..u] + ("\"" + after);
    hide QuoteIn;
    ScanInner(x[..u], after, 0);
  }

  /** If the first word is empty and not the only one, an argument with a quote in front and blanks gave it. */
  lemma EmptyShape(args: seq<string>)
    requires OneQuoteEach(args)
    requires |Words(Join(args))| > 1 && Words(Join(args))[0] == ""
    ensures var k := Lead(args);
            && k < |args|
            && var x := args[k];
            && x[0] == '"' && '"' !in x[1..] && HasBlank(x[1..])
            && Words(Join(args))[1..] == Scan(SkipBlanks(Escape(x[1..]) + "\"" + Rest(args[k..])), 0)
  {
    FirstScan(args);
    var k := Lead(args);
    var x, rest := args[k], Rest(args[k..]);
    assert OneQuote(x);
    EmptyScan(x, rest);
  }

  lemma EmptyScan(x: string, rest: string)
    requires x != "" && OneQuote(x) && (rest != "" ==> rest[0] == ' ')
    requires var w := Scan(Token(x) + rest, 0); |w| > 1 && w[0] == ""
    ensures x[0] == '"' && '"' !in x[1..] && HasBlank(x[1..])
    ensures Scan(Token(x) + rest, 0)[1..] == Scan(SkipBlanks(Escape(x[1..]) + "\"" + rest), 0)
  {
    hide SkipBlanks, Scan;
    if HasBlank(x) {
      var e := Escape(x);
      var after := e + "\"" + rest;
      BlankShape(x, rest);
      assert QuoteIn(after) == 0;
      assert after[0] == e[0];
      assert x[0] == '"' && e == "\"" + Escape(x[1..]);
      assert QuoteIn(x) == 0;
      assert after[1..] == Escape(x[1..]) + "\"" + rest;
      var i :| 0 <= i < |x| && Blank(x[i]);
      assert x[1..][i - 1] == x[i];
    } else if '"' in x {
      hide Escape, HasBlank;
      InnerShape(x, rest);
      var u := QuoteIn(x);
      var after := x[u + 1..] + rest;
      var q := after[..QuoteIn(after)];
      assert |(x[..u] + "\"" + q)[1..]| == u + |q|;
      AtEnd(x[u + 1..], rest);
    } else {
      hide Escape;
      ScanPlain(x, rest, 0);
    }
  }

  /** A quoted part that is empty, and not for a quote that follows, is at the end. */
  lemma AtEnd(v: string, rest: string)
    requires '"' !in v && (rest != "" ==> rest[0] == ' ') && QuoteIn(v + rest) == 0
    ensures Scan(AfterQuote(v + rest), 0) == []
  {
    var after := v + rest;
    assert forall i :: 0 <= i < |v| ==> after[i] == v[i] && v[i] in v;
    assert after == "";
    SkipNone();
    ScanNone();
  }

  lemma SkipNone()
    ensures SkipBlanks("") == ""
  {
  }

  lemma ScanNone()
    ensures Scan("", 0) == []
  {
  }

  lemma {:induction false} SkipFront(e: string, rest: string)
    requires rest == "" || !Blank(rest[0])
    ensures SkipBlanks(e + rest) == SkipBlanks(e) + rest
  {
    if e == "" {
      assert e + rest == rest;
    } else {
      SkipFront(e[1..], rest);
      assert (e + rest)[1..] == e[1..] + rest;
    }
  }

  lemma {:induction false} SkipSuffix(e: string)
    ensures '"' !in e ==> '"' !in SkipBlanks(e)
  {
    if e != "" && Blank(e[0]) {
      SkipSuffix(e[1..]);
    }
  }

  /** The word after that: without a quote, or with one behind a single run of characters. */
  lemma SecondShape(e: string, rest: string)
    requires '"' !in e && (rest != "" ==> rest[0] == ' ')
    ensures var w := Scan(SkipBlanks(e + "\"" + rest), 0);
            && w != [] && (w[0] == "" ==> |w| == 1)
            && ('"' in w[0] ==>
                  && SkipBlanks(e) != "" && w[0] == SkipBlanks(e)[1..] + "\"" + rest[..QuoteIn(rest)]
                  && w[1..] == Scan(AfterQuote(rest), 0))
  {
    var f, t := SkipBlanks(e), "\"" + rest;
    assert e + "\"" + rest == e + t;
    SkipFront(e, t);
    SkipSuffix(e);
    hide SkipBlanks, Scan, QuotedWord, AfterQuoted;
    if f == "" {
      assert f + t == t && t[1..] == rest;
      QuoteAtFront(t, rest);
      if rest == "" {
        SkipNone();
        ScanNone();
      }
    } else if HasBlank(f) {
      BlankInside(f, t);
    } else {
      ScanInner(f, rest, 0);
      DropFirst(f, rest[..QuoteIn(rest)]);
    }
  }

  lemma DropFirst(f: string, q: string)
    requires f != ""
    ensures (f + "\"" + q)[1..] == f[1..] + "\"" + q != ""
  {
  }

  lemma BlankInside(f: string, t: string)
    requires HasBlank(f) && !Blank(f[0]) && '"' !in f
    ensures Scan(f + t, 0) != [] && Scan(f + t, 0)[0] != "" && '"' !in Scan(f + t, 0)[0]
  {
    hide SkipBlanks, Scan;
    var n := FirstBlank(f);
    assert !HasBlank(f[..n]) && f + t == f[..n] + (f[n..] + t);
    assert forall c :: c in f[..n] ==> c in f;
    ScanPlain(f[..n], f[n..] + t, 0);
  }

  function FirstBlank(s: string): (n: nat)
    requires HasBlank(s)
    ensures n < |s| && Blank(s[n]) && forall i :: 0 <= i < n ==> !Blank(s[i])
  {
    if Blank(s[0]) then 0 else
      assert exists i :: 0 <= i < |s[1..]| && Blank(s[1..][i]) by {
        var i :| 0 <= i < |s| && Blank(s[i]);
        assert s[1..][i - 1] == s[i];
      }
      1 + FirstBlank(s[1..])
  }

  /** A character and a quote, as the first word, are the only one. */
  lemma QuoteEndsAll(args: seq<string>)
    requires OneQuoteEach(args)
    requires var w := Words(Join(args)); w != [] && |w[0]| == 2 && w[0][1] == '"'
    ensures |Words(Join(args))| == 1 && args != []
  {
    FirstScan(args);
    assert OneQuote(args[Lead(args)]);
    QuoteEndsScan(args[Lead(args)], Rest(args[Lead(args)..]));
  }

  lemma HeadLength(f: string, q: string, w: string)
    requires w == (f + "\"" + q)[1..] && '"' !in q && |w| == 2 && w[1] == '"'
    ensures |f| == 2 && q == ""
  {
    assert f == "" ==> w == q;
    assert |f| == 1 ==> w == "\"" + q;
  }

  lemma QuoteEndsScan(x: string, rest: string)
    requires x != "" && OneQuote(x) && (rest != "" ==> rest[0] == ' ')
    requires var w := Scan(Token(x) + rest, 0); w != [] && |w[0]| == 2 && w[0][1] == '"'
    ensures |Scan(Token(x) + rest, 0)| == 1
  {
    hide SkipBlanks, Scan, Escape;
    if HasBlank(x) {
      BlankShape(x, rest);
    } else if '"' in x {
      hide HasBlank;
      InnerShape(x, rest);
      var u := QuoteIn(x);
      var after := x[u + 1..] + rest;
      var q := after[..QuoteIn(after)];
      HeadLength(x[..u], q, (x[..u] + "\"" + q)[1..]);
      AtEnd(x[u + 1..], rest);
    } else {
      ScanPlain(x, rest, 0);
    }
  }

  /** A single character other than blanks is not escaped. */
  lemma {:induction false} OneEscaped(y: string)
    requires |SkipBlanks(Escape(y))| == 1
    ensures SkipBlanks(y) == SkipBlanks(Escape(y))
  {
    if y != "" && Blank(y[0]) {
      assert Escape(y)[1..] == Escape(y[1..]);
      OneEscaped(y[1..]);
    } else if y != "" {
      assert SkipBlanks(Escape(y)) == Escape(y);
      assert |y| == 1;
      assert Escape(y) == (if y[0] == '\\' || y[0] == '\n' then "\\" else "") + [y[0]] + Escape("");
    }
  }

  /** Arguments whose command line begins, after blanks, with one character and a quote. */
  lemma QuoteSecond(args: seq<string>, c: char, z: string)
    requires OneQuoteEach(args) && SkipBlanks(Join(args)) == [c, '"'] + z && c != '"'
    ensures var k := Lead(args);
            && k < |args| && |args[k]| >= 2 && args[k][0] == c && args[k][1] == '"'
            && var q := args[k][2..];
            !HasBlank(q) && '"' !in q && z == q + Rest(args[k..])
  {
    hide OneQuote, Rest, Token;
    var k := Lead(args);
    SkipToFirst(args);
    assert k < |args|;
    assert OneQuote(args[k]);
    RestFront(args[k..]);
    TokenSecond(args[k], Rest(args[k..]), c, z);
  }

  lemma TokenSecond(x: string, rest: string, c: char, z: string)
    requires x != "" && OneQuote(x) && (rest != "" ==> rest[0] == ' ') && Token(x) + rest == [c, '"'] + z && c != '"'
    ensures |x| >= 2 && x[0] == c && x[1] == '"' && !HasBlank(x[2..]) && '"' !in x[2..] && z == x[2..] + rest
  {
    hide Escape;
    var s := Token(x) + rest;
    assert s[0] == c && s[1] == '"' && z == s[2..];
    assert !HasBlank(x);
    assert forall i :: |x| <= i < |s| ==> s[i] == rest[i - |x|];
    assert x[0] == c && x[1] == '"';
    assert forall i :: 0 <= i < |x| - 2 ==> x[2..][i] == x[i + 2];
    assert x[1..][0] == '"' && QuoteIn(x) == 1;
    assert x[QuoteIn(x) + 1..] == x[2..];
  }

  /** Empty words, a character with a quote, then the arguments again: they do not come from those arguments. */
  lemma NotBehindQuote(args: seq<string>, words: seq<string>, k: nat)
    requires OneQuoteEach(args) && k < |words| && words[k + 1..] == args
    requires (forall i :: 0 <= i < k ==> words[i] == "") && |words[k]| == 2 && words[k][1] == '"' != words[k][0]
    ensures Words(Join(args)) != words
  {
    hide Words, Join, Scan, SkipBlanks, Escape, OneQuote;
    if Words(Join(args)) == words {
      if k == 0 {
        QuoteEndsAll(args);
      } else {
        EmptyShape(args);
        var j := Lead(args);
        var e, rest := Escape(args[j][1..]), Rest(args[j..]);
        EscapeQuotes(args[j][1..]);
        RestFront(args[j..]);
        SecondShape(e, rest);
        assert words[1..][0] == words[1];
        if k == 1 {
          OnlyWord(e, rest, words[1..]);
        }
      }
    }
  }

  lemma OnlyWord(e: string, rest: string, w: seq<string>)
    requires SkipBlanks(e) != "" && (rest != "" ==> rest[0] == ' ') && w != []
    requires |w[0]| == 2 && w[0][0] != '"' && w[0] == SkipBlanks(e)[1..] + "\"" + rest[..QuoteIn(rest)]
    requires w[0][1] == '"' && w[1..] == Scan(AfterQuote(rest), 0)
    ensures |w| == 1
  {
    hide SkipBlanks, Scan;
    var f, q := SkipBlanks(e)[1..], rest[..QuoteIn(rest)];
    var w0 := w[0];
    assert f == "" ==> w0 == "\"" + q;
    assert |f| == 1 && q == "";
    assert rest == "";
    assert "" + rest == rest;
    AtEnd("", rest);
  }

  /** What a first argument between a quote and blanks says of those behind it, if both come back. */
  lemma LoneTail(y: string, args: seq<string>, rest: string)
    requires '"' !in y && HasBlank(y) && OneQuoteEach(args)
    requires rest == if args == [] then "" else " " + Join(args)
    requires Scan(SkipBlanks(Escape(y) + "\"" + rest), 0) == ["\"" + y] + args
    ensures args != [] && QuoteIn(Join(args)) < |Join(args)|
    ensures Words(Join(args)[QuoteIn(Join(args)) + 1..]) == args
    ensures |SkipBlanks(Join(args)[..QuoteIn(Join(args))])| == 1
  {
    hide Scan, SkipBlanks, Escape, OneQuote, Join;
    var e, j := Escape(y), Join(args);
    var w := ["\"" + y] + args;
    EscapeQuotes(y);
    SecondShape(e, rest);
    var f, q := SkipBlanks(e)[1..], rest[..QuoteIn(rest)];
    SkipSuffix(e);
    assert '"' !in f;
    assert w[1..] == args && w[0] == "\"" + y;
    assert f + "\"" + q == "\"" + y;
    QuoteHead(f, q, y);
    OneEscaped(y);
    QuoteBehind(j, rest, y, args);
    BlankFirst(j[..QuoteIn(j)]);
  }

  lemma QuoteHead(f: string, q: string, y: string)
    requires '"' !in f && f + "\"" + q == "\"" + y
    ensures f == "" && y == q
  {
    var back := f + "\"" + q;
    assert back[0] == '"' && back[1..] == y && back == f + ("\"" + q);
    if f != "" {
      CharFirst(f, "\"" + q);
    } else {
      assert back[1..] == q;
    }
  }

  lemma CharFirst(f: string, t: string)
    requires f != ""
    ensures (f + t)[0] == f[0] && f[0] in f
  {
  }

  lemma BlankFirst(s: string)
    ensures SkipBlanks(" " + s) == SkipBlanks(s)
  {
    assert (" " + s)[1..] == s;
  }

  lemma QuoteBehind(j: string, rest: string, y: string, args: seq<string>)
    requires rest == (if args == [] then "" else " " + j) && y == rest[..QuoteIn(rest)] && y != ""
    requires args == Scan(AfterQuote(rest), 0)
    ensures args != [] && QuoteIn(j) < |j| && y == " " + j[..QuoteIn(j)] && args == Words(j[QuoteIn(j) + 1..])
  {
    assert rest == " " + j;
    assert rest[1..] == j;
    assert QuoteIn(rest) == 1 + QuoteIn(j);
    hide Scan, QuoteIn, SkipBlanks;
    if QuoteIn(j) < |j| {
      assert rest[QuoteIn(rest) + 1..] == j[QuoteIn(j) + 1..];
    } else {
      SkipNone();
      ScanNone();
    }
    assert y == " " + j[..QuoteIn(j)];
  }

  lemma SplitAtQuote(j: string, u: nat)
    requires u == QuoteIn(j) < |j| && |SkipBlanks(j[..u])| == 1
    ensures var c := SkipBlanks(j[..u])[0]; c != '"' && SkipBlanks(j) == [c, '"'] + j[u + 1..]
  {
    hide SkipBlanks, QuoteIn;
    assert j == j[..u] + ("\"" + j[u + 1..]);
    SkipFront(j[..u], "\"" + j[u + 1..]);
    SkipSuffix(j[..u]);
    var f := SkipBlanks(j[..u]);
    assert f == [f[0]] && f[0] in f;
    assert [f[0]] + ("\"" + j[u + 1..]) == [f[0], '"'] + j[u + 1..];
  }

  /** Arguments do not come back from what is left of their command line behind its first quote. */
  lemma NotBehindFirst(args: seq<string>)
    requires args != [] && OneQuoteEach(args)
    requires var u := QuoteIn(Join(args)); u < |Join(args)| && |SkipBlanks(Join(args)[..u])| == 1
    ensures Words(Join(args)[QuoteIn(Join(args)) + 1..]) != args
  {
    hide Words, Scan, SkipBlanks, OneQuote, Join, QuoteIn;
    var u := QuoteIn(Join(args));
    var c, z := SkipBlanks(Join(args)[..u])[0], Join(args)[u + 1..];
    SplitAtQuote(Join(args), u);
    QuoteSecond(args, c, z);
    var k := Lead(args);
    var q, rest := args[k][2..], Rest(args[k..]);
    RestFront(args[k..]);
    if q != "" {
      PlainFront(q, rest);
      assert args[0] == "" || args[0] == args[k];
      assert args[k][1] in args[k];
    } else {
      JoinFirst(args[k..]);
      assert q + rest == rest;
      assert args[k..][1..] == args[k + 1..];
      WordsOf(rest);
      NotBehindQuote(args[k + 1..], args, k);
    }
  }

  lemma WordsOf(s: string)
    ensures Words(s) == Scan(SkipBlanks(s), 0)
  {
  }

  lemma PlainFront(q: string, rest: string)
    requires q != "" && !HasBlank(q) && '"' !in q && (rest != "" ==> Blank(rest[0]))
    ensures Words(q + rest) != [] && Words(q + rest)[0] == q
  {
    SkipNothing(q + rest);
    ScanPlain(q, rest, 0);
  }

  lemma BackOneQuote(args: seq<string>)
    requires Words(Join(args)) == [""] + args
    ensures OneQuoteEach(args)
  {
    hide Join, Scan, SkipBlanks, OneQuote;
    var w := Words(Join(args));
    WordsOneQuote(SkipBlanks(Join(args)), 0);
    assert forall i :: 0 <= i < |args| ==> args[i] == w[i + 1];
  }

  /** No list comes back that begins with an empty argument. */
  lemma EmptyFirst(args: seq<string>)
    ensures Words(Join(args)) != [""] + args
  {
    hide Words, Join, Scan, SkipBlanks, OneQuote, Escape, QuoteIn, HasBlank;
    var w := [""] + args;
    NoWords();
    if Words(Join(args)) == w && args != [] {
      assert w[1..] == args;
      BackOneQuote(args);
      EmptyShape(args);
      var k := Lead(args);
      var y, rest := args[k][1..], Rest(args[k..]);
      EscapeQuotes(y);
      RestFront(args[k..]);
      SecondShape(Escape(y), rest);
      assert k == 0;
      assert args[0..] == args && args[0] == "\"" + y;
      assert args == ["\"" + y] + args[1..];
      LoneTail(y, args[1..], rest);
      NotBehindFirst(args[1..]);
    } else {
      assert Join([]) == "" by {
        JoinNone();
      }
    }
  }

  lemma JoinNone()
    ensures Join([]) == ""
  {
  }

  /**
   * The words of the command line are the arguments exactly when each is non-empty, has no quote, and has no backslash
   * or newline if it has a blank; for all lists.
   */
  lemma {:induction false} RoundTrip(args: seq<string>)
    ensures Words(Join(args)) == args <==> AllFine(args)
  {
    if args == [] {
      NoWords();
    } else {
      RoundTrip(args[1..]);
      hide Words, Join, Fine;
      var a := args[0];
      assert args == [a] + args[1..];
      AllFineFirst(args);
      FineMeans(a);
      if a == "" {
        EmptyWord(args);
        EmptyFirst(args[1..]);
      } else if '"' in a {
        QuotedArgument(args);
      } else {
        FirstWord(args);
        EscapeLonger(a);
        var w := if HasBlank(a) then Escape(a) else a;
        assert ([w] + Words(Join(args[1..])))[1..] == Words(Join(args[1..]));
        assert Fine(a) <==> w == a;
      }
    }
  }

  // Room.

  lemma FlatFirst(w: string, rest: seq<string>)
    ensures |Flat([w] + rest)| == |w| + 1 + |Flat(rest)|
  {
    assert ([w] + rest)[1..] == rest;
  }

  /** Words and their terminators never take more than the text and one terminator. */
  lemma {:induction false} WordsFit(s: string, n: nat)
    requires n <= |s|
    ensures |Flat(Scan(s, n))| <= |s| + 1 && (s == "" ==> Flat(Scan(s, n)) == "")
    decreases |s|, |s| - n
  {
    if n == |s| {
      if s != "" {
        assert [s] + [] == [s];
        FlatFirst(s, []);
      }
    } else if Blank(s[n]) {
      WordsFit(SkipBlanks(s[n + 1..]), 0);
      FlatFirst(s[..n], Scan(SkipBlanks(s[n + 1..]), 0));
    } else if s[n] == '"' {
      WordsFit(AfterQuoted(s, n), 0);
      FlatFirst(QuotedWord(s, n), Scan(AfterQuoted(s, n), 0));
    } else {
      WordsFit(s, n + 1);
    }
  }

  lemma {:induction false} BlanksAppend(a: string, b: string)
    ensures Blanks(a + b) == Blanks(a) + Blanks(b)
  {
    if a == "" {
      assert a + b == b;
    } else {
      BlanksAppend(a[1..], b);
      assert (a + b)[1..] == a[1..] + b;
    }
  }

  /** Every argument after the first is announced by a blank. */
  lemma {:induction false} BlanksBetween(args: seq<string>)
    ensures |args| <= 1 + Blanks(Join(args))
  {
    if |args| > 1 {
      BlanksBetween(args[1..]);
      BlanksAppend(Token(args[0]) + " ", Join(args[1..]));
      BlanksAppend(Token(args[0]), " ");
      assert Blanks(" ") == 1 + Blanks("");
    }
  }
}
