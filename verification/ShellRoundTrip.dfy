/**
  Printing an expansion tree and reading it back. `Print` escapes with backslashes; the reader
  of `ShellSyntax` undoes it, so the evaluator gives a printed tree exactly the tree's value.
 */
module ShellRoundTrip {
  import opened Options
  import opened ShellSyntax
  import opened ShellWord

  // ---------- the trees that have a printed form ----------

  predicate IsName(n: string) {
    || n == ""
    || (|n| == 1 && IsDigit(n[0]))
    || (!IsDigit(n[0]) && forall i :: 0 <= i < |n| ==> IsNameChar(n[i]))
  }

  predicate WellFormed(w: Word) {
    w.Cons? ==> WellFormedPart(w.head) && WellFormed(w.tail)
  }

  predicate WellFormedPart(p: Part) {
    match p
    case Lit(_) => true
    case Single(text) => '\'' !in text && NUL !in text
    case Double(body) => WellFormedQuoted(body)
    case Var(name) => IsName(name)
    case Default(name, w) => IsName(name) && WellFormed(w)
    case Alternate(name, w) => IsName(name) && WellFormed(w)
  }

  /** Inside double quotes a backslash can be printed only in front of another literal character. */
  predicate WellFormedQuoted(q: Word) {
    q.Cons? ==>
      && !q.head.Single? && !q.head.Double?
      && WellFormedPart(q.head)
      && (q.head == Lit('\\') ==> q.tail.Cons? && q.tail.head.Lit? && q.tail.head.c != NUL)
      && WellFormedQuoted(q.tail)
  }

  // ---------- printing ----------

  function Print(w: Word): string {
    match w
    case Nil => ""
    case Cons(h, t) => PrintPart(h) + Print(t)
  }

  function PrintPart(p: Part): string
    decreases p, 0
  {
    match p
    case Lit(c) => if c in {'\\', '\'', '"', '$', '}'} then ['\\', c] else [c]
    case Single(text) => "'" + text + "'"
    case Double(body) => "\"" + PrintQuoted(body) + "\""
    case Var(name) => "${" + (name + "}")
    case Default(name, w) => "${" + (name + (":-" + (Print(w) + "}")))
    case Alternate(name, w) => "${" + (name + (":+" + (Print(w) + "}")))
  }

  function PrintQuoted(q: Word): string {
    match q
    case Nil => ""
    case Cons(h, t) => PrintQuotedPart(h) + PrintQuoted(t)
  }

  function PrintQuotedPart(p: Part): string
    decreases p, 1
  {
    if p.Lit? then (if p.c == '"' || p.c == '$' then ['\\', p.c] else [p.c]) else PrintPart(p)
  }

  // ---------- reading back ----------

  lemma NamePrefix(n: string, rest: string)
    requires IsName(n) && rest != "" && !IsNameChar(rest[0])
    ensures NameLength(n + rest) == |n| && (n + rest)[..|n|] == n && (n + rest)[|n|..] == rest
  {
  }

  lemma {:induction false} SingleRoundTrip(text: string, rest: string)
    requires '\'' !in text && NUL !in text
    ensures ParseSingle(text + "'" + rest) == (text, rest)
  {
    var s := text + "'" + rest;
    if text == "" {
      assert s[1..] == rest;
    } else {
      assert s[1..] == text[1..] + "'" + rest;
      assert text == [text[0]] + text[1..];
      SingleRoundTrip(text[1..], rest);
    }
  }

  lemma {:induction false} PartRoundTrip(p: Part, rest: string)
    requires WellFormedPart(p)
    ensures PrintPart(p) != "" && PrintPart(p)[0] != '}'
    ensures ParsePart(PrintPart(p) + rest) == Ok(Some(p), rest)
    decreases p, 1
  {
    var s := PrintPart(p) + rest;
    match p
    case Lit(c) =>
    case Single(text) =>
      assert s[1..] == text + "'" + rest;
      SingleRoundTrip(text, rest);
    case Double(body) =>
      assert s[1..] == PrintQuoted(body) + "\"" + rest;
      QuotedRoundTrip(body, rest);
    case _ =>
      DollarRoundTrip(p, rest);
  }

  lemma BracesVar(name: string, rest: string)
    requires IsName(name)
    ensures ParseBraces(name + ("}" + rest)) == Ok(Some(Var(name)), rest)
  {
    assert ("}" + rest)[1..] == rest;
    NamePrefix(name, "}" + rest);
  }

  lemma BracesModifier(name: string, m: char, text: string)
    requires IsName(name)
    ensures ParseBraces(name + ([':', m] + text)) == ParseModifier(name, m, text)
  {
    var u := [':', m] + text;
    assert u[2..] == text;
    NamePrefix(name, u);
  }

  predicate IsExpansion(p: Part) { p.Var? || p.Default? || p.Alternate? }

  lemma AfterDollar(body: string, rest: string)
    ensures var s := "${" + body + rest; |s| >= 2 && s[0] == '$' && s[1..][0] == '{' && s[1..][1..] == body + rest
  {
  }

  lemma AfterMark(name: string, mark: string, text: string, rest: string)
    ensures (name + (mark + (text + "}"))) + rest == name + (mark + (text + ("}" + rest)))
    ensures (name + "}") + rest == name + ("}" + rest)
    ensures (name + (mark + (text + ("}" + rest))))[|name|..][|mark|..] == text + ("}" + rest)
  {
  }

  function Mark(p: Part): string
    requires IsExpansion(p)
  {
    if p.Default? then ":-" else ":+"
  }

  /** Reading a printed expansion is reading what follows its `${`. */
  lemma PrintedBraces(p: Part, rest: string)
    requires IsExpansion(p)
    ensures PrintPart(p) + rest != "" && (PrintPart(p) + rest)[0] == '$'
    ensures p.Var? ==> ParseDollar(PrintPart(p) + rest) == ParseBraces(p.name + ("}" + rest))
    ensures !p.Var? ==>
              ParseDollar(PrintPart(p) + rest) == ParseBraces(p.name + (Mark(p) + (Print(p.word) + ("}" + rest))))
  {
    if p.Var? {
      AfterDollar(p.name + "}", rest);
      AfterMark(p.name, "", "", rest);
    } else {
      AfterDollar(p.name + (Mark(p) + (Print(p.word) + "}")), rest);
      AfterMark(p.name, Mark(p), Print(p.word), rest);
    }
  }

  lemma {:induction false} DollarRoundTrip(p: Part, rest: string)
    requires WellFormedPart(p) && IsExpansion(p)
    ensures PrintPart(p) != "" && PrintPart(p)[0] == '$'
    ensures ParseDollar(PrintPart(p) + rest) == Ok(Some(p), rest)
    decreases p, 0
  {
    PrintedBraces(p, rest);
    if p.Var? {
      BracesVar(p.name, rest);
    } else {
      BracesModifier(p.name, Mark(p)[1], Print(p.word) + ("}" + rest));
      assert ("}" + rest)[1..] == rest;
      WordRoundTrip(p.word, '}', "}" + rest);
    }
  }

  /** Reading a printed tree and then a text that ends the word gives the tree. */
  lemma {:induction false} WordRoundTrip(w: Word, stop: char, rest: string)
    requires WellFormed(w) && (stop == NUL || stop == '}')
    requires ParseWord(rest, stop).Ok? && ParseWord(rest, stop).value == Nil
    ensures ParseWord(Print(w) + rest, stop) == Ok(w, ParseWord(rest, stop).rest)
    decreases w
  {
    match w
    case Nil =>
      assert Print(w) + rest == rest;
    case Cons(h, t) =>
      var more := Print(t) + rest;
      assert Print(w) + rest == PrintPart(h) + more;
      PartRoundTrip(h, more);
      WordRoundTrip(t, stop, rest);
  }

  lemma {:induction false} QuotedRoundTrip(q: Word, rest: string)
    requires WellFormedQuoted(q)
    ensures ParseQuoted(PrintQuoted(q) + "\"" + rest) == Ok(q, rest)
    decreases q
  {
    match q
    case Nil =>
      assert ("\"" + rest)[1..] == rest;
      assert PrintQuoted(q) + "\"" + rest == "\"" + rest;
    case Cons(h, t) =>
      var more := PrintQuoted(t) + "\"" + rest;
      var s := PrintQuotedPart(h) + more;
      assert PrintQuoted(q) + "\"" + rest == s;
      QuotedRoundTrip(t, rest);
      if h.Lit? {
        if h.c == '\\' {
          assert PrintQuoted(t)[0] == PrintQuotedPart(t.head)[0];
          assert s[1] == PrintQuotedPart(t.head)[0];
        }
        assert ParseQuotedPart(s) == Ok(Some(h), more);
      } else {
        DollarRoundTrip(h, more);
      }
  }

  /** The evaluator gives every printed tree exactly the tree's value, whatever the environment. */
  lemma {:induction false} PrintThenProcess(w: Word, envs: seq<string>)
    requires WellFormed(w)
    ensures ParseWord(Print(w), NUL) == Ok(w, "")
    ensures Process(Print(w), envs) == Success(Eval(w, envs))
  {
    WordRoundTrip(w, NUL, "");
    assert Print(w) + "" == Print(w);
  }

  // ---------- no other tree is read back ----------

  lemma NameIsName(s: string)
    ensures IsName(s[..NameLength(s)])
  {
  }

  lemma {:induction false} SingleHasNoQuote(s: string)
    ensures '\'' !in ParseSingle(s).0 && NUL !in ParseSingle(s).0
  {
    if s != "" && s[0] != '\'' && s[0] != NUL {
      SingleHasNoQuote(s[1..]);
    }
  }

  /** What a brace expansion reads has the name that stands there. */
  lemma AfterNameShape(name: string, s: string, p: Part)
    requires ParseAfterName(name, s).Ok? && ParseAfterName(name, s).value == Some(p)
    ensures IsExpansion(p) && p.name == name
    ensures p.Var? <==> s[0] == '}'
    ensures !p.Var? ==>
              && |s| > 1 && s[1] == (if p.Default? then '-' else '+')
              && ParseWord(s[2..], '}').Ok? && ParseWord(s[2..], '}').value == p.word
  {
  }

  lemma {:induction false} DollarReadsBack(p: Part, rest: string)
    requires IsExpansion(p)
    requires PrintPart(p) != "" && PrintPart(p)[0] == '$'
    requires ParseDollar(PrintPart(p) + rest).Ok? && ParseDollar(PrintPart(p) + rest).value == Some(p)
    ensures WellFormedPart(p)
    decreases p, 0
  {
    PrintedBraces(p, rest);
    if p.Var? {
      BracesReadBack(p, p.name + ("}" + rest));
    } else {
      var text := Print(p.word) + ("}" + rest);
      BracesReadBack(p, p.name + (Mark(p) + text));
      AfterMark(p.name, Mark(p), Print(p.word), rest);
      WordReadsBack(p.word, '}', "}" + rest);
    }
  }

  lemma BracesReadBack(p: Part, u: string)
    requires ParseBraces(u).Ok? && ParseBraces(u).value == Some(p)
    ensures IsExpansion(p) && IsName(p.name)
    ensures !p.Var? ==>
              && |u| >= |p.name| + 2
              && ParseWord(u[|p.name|..][2..], '}').Ok? && ParseWord(u[|p.name|..][2..], '}').value == p.word
  {
    var n := NameLength(u);
    NameIsName(u);
    AfterNameShape(u[..n], u[n..], p);
  }

  lemma {:induction false} PartReadsBack(p: Part, rest: string)
    requires ParsePart(PrintPart(p) + rest).Ok? && ParsePart(PrintPart(p) + rest).value == Some(p)
    ensures WellFormedPart(p)
    decreases p, 1
  {
    var s := PrintPart(p) + rest;
    match p
    case Lit(c) =>
    case Single(text) =>
      SingleHasNoQuote(s[1..]);
    case Double(body) =>
      assert s[1..] == PrintQuoted(body) + "\"" + rest;
      QuotedReadsBack(body, rest);
    case _ =>
      DollarReadsBack(p, rest);
  }

  lemma {:induction false} WordReadsBack(w: Word, stop: char, rest: string)
    requires stop == NUL || stop == '}'
    requires ParseWord(Print(w) + rest, stop).Ok? && ParseWord(Print(w) + rest, stop).value == w
    ensures WellFormed(w)
    decreases w
  {
    match w
    case Nil =>
    case Cons(h, t) =>
      var more := Print(t) + rest;
      var s := PrintPart(h) + more;
      assert Print(w) + rest == s;
      PartIsRead(h, more);
      PartReadsBack(h, more);
      PartRoundTrip(h, more);
      WordReadsBack(t, stop, rest);
  }

  /** A printed part does not start with a brace and is not read as nothing. */
  lemma PartIsRead(p: Part, more: string)
    ensures PrintPart(p) != "" && PrintPart(p)[0] != '}'
    ensures ParsePart(PrintPart(p) + more).Ok? ==> ParsePart(PrintPart(p) + more).value.Some?
  {
    var s := PrintPart(p) + more;
    if s[0] == '$' {
      DollarIsRead(s);
    }
  }

  lemma DollarIsRead(s: string)
    requires s != "" && s[0] == '$'
    ensures ParseDollar(s).Ok? ==> ParseDollar(s).value.Some?
  {
    var t := s[1..];
    if t != "" && t[0] == '{' {
      var u := t[1..];
      AfterNameIsRead(u[..NameLength(u)], u[NameLength(u)..]);
    }
  }

  lemma AfterNameIsRead(name: string, s: string)
    ensures ParseAfterName(name, s).Ok? ==> ParseAfterName(name, s).value.Some?
  {
  }

  lemma {:induction false} QuotedReadsBack(q: Word, rest: string)
    requires var p := ParseQuoted(PrintQuoted(q) + "\"" + rest); p.Ok? && p.value == q
    ensures WellFormedQuoted(q)
    decreases q
  {
    match q
    case Nil =>
    case Cons(h, t) =>
      var more := PrintQuoted(t) + "\"" + rest;
      assert PrintQuoted(q) + "\"" + rest == PrintQuotedPart(h) + more;
      QuotedPartFirst(h);
      if h.Lit? {
        QuotedLitIsRead(h.c, t, more);
      } else {
        QuotedDollarIsRead(h, t, more);
        DollarReadsBack(h, more);
        DollarRoundTrip(h, more);
      }
      QuotedReadsBack(t, rest);
      if h == Lit('\\') && t.Cons? {
        QuotedPartFirst(t.head);
        assert more[0] == PrintQuotedPart(t.head)[0];
      }
  }

  lemma QuotedPartFirst(p: Part)
    ensures PrintQuotedPart(p) != ""
    ensures p.Single? ==> PrintQuotedPart(p)[0] == '\''
    ensures p.Double? ==> PrintQuotedPart(p)[0] == '"'
    ensures IsExpansion(p) ==> PrintQuotedPart(p)[0] == '$'
    ensures p.Lit? ==> PrintQuotedPart(p)[0] != '$' && PrintQuotedPart(p)[0] != '"'
    ensures p == Lit(NUL) ==> PrintQuotedPart(p)[0] == NUL
  {
  }

  lemma QuotedLitIsRead(c: char, t: Word, more: string)
    requires more != "" && var p := ParseQuoted(PrintQuotedPart(Lit(c)) + more); p.Ok? && p.value == Cons(Lit(c), t)
    ensures ParseQuoted(more).Ok? && ParseQuoted(more).value == t
    ensures c == '\\' ==> more[0] !in {'"', '$', NUL}
  {
    var s := PrintQuotedPart(Lit(c)) + more;
    if c == '"' || c == '$' {
      assert s[2..] == more;
    } else {
      assert s[1..] == more;
      QuotedNul(more);
    }
  }

  lemma QuotedNul(s: string)
    ensures s != "" && s[0] == NUL && ParseQuoted(s).Ok? ==> ParseQuoted(s).value.Cons? && ParseQuoted(s).value.head == Lit(NUL)
  {
  }

  lemma QuotedDollarIsRead(h: Part, t: Word, more: string)
    requires !h.Lit? && var p := ParseQuoted(PrintQuotedPart(h) + more); p.Ok? && p.value == Cons(h, t)
    ensures IsExpansion(h) && PrintPart(h) != "" && PrintPart(h)[0] == '$'
    ensures ParseDollar(PrintPart(h) + more).Ok? && ParseDollar(PrintPart(h) + more).value == Some(h)
    ensures ParseQuoted(ParseDollar(PrintPart(h) + more).rest).Ok?
    ensures ParseQuoted(ParseDollar(PrintPart(h) + more).rest).value == t
  {
    var s := PrintPart(h) + more;
    QuotedPartFirst(h);
    assert s[0] == PrintPart(h)[0];
    if IsExpansion(h) {
      DollarIsRead(s);
    }
  }

  /** Reading back a printed tree gives the tree exactly when it is well-formed. */
  lemma PrintReadsBackIff(w: Word)
    ensures ParseWord(Print(w), NUL) == Ok(w, "") <==> WellFormed(w)
  {
    assert Print(w) + "" == Print(w);
    if WellFormed(w) {
      WordRoundTrip(w, NUL, "");
    } else if ParseWord(Print(w), NUL) == Ok(w, "") {
      WordReadsBack(w, NUL, "");
    }
  }

  /** At top level the whole text is read. */
  lemma {:induction false} ReadsAll(s: string)
    ensures ParseWord(s, NUL).Ok? ==> ParseWord(s, NUL).rest == ""
    decreases |s|
  {
    if s != "" && ParsePart(s).Ok? {
      ReadsAll(ParsePart(s).rest);
    }
  }

  /**
    Printing what was read is a normal form exactly when the tree is well-formed: then it reads as
    the same tree, and expands to the same value in every environment.
   */
  lemma ReadThenPrint(s: string)
    requires ParseWord(s, NUL).Ok?
    ensures var w := ParseWord(s, NUL).value;
            && (ParseWord(Print(w), NUL) == ParseWord(s, NUL) <==> WellFormed(w))
            && (WellFormed(w) ==> forall envs :: Process(Print(w), envs) == Process(s, envs))
  {
    ReadsAll(s);
    PrintReadsBackIff(ParseWord(s, NUL).value);
  }

  // ---------- texts that read as well-formed trees ----------

  /** Without NUL, and without a backslash at the end. */
  predicate Clean(s: string) {
    NUL !in s && (s == "" || s[|s| - 1] != '\\')
  }

  lemma {:induction false} SingleClean(s: string)
    requires Clean(s)
    ensures '\'' !in ParseSingle(s).0 && NUL !in ParseSingle(s).0 && Clean(ParseSingle(s).1)
  {
    if s != "" && s[0] != '\'' {
      SingleClean(s[1..]);
    }
  }

  lemma {:induction false} WordClean(s: string, stop: char)
    requires Clean(s)
    ensures var p := ParseWord(s, stop); p.Ok? ==> WellFormed(p.value) && Clean(p.rest)
    decreases |s|, 3
  {
    if s != "" && !(stop != NUL && s[0] == stop) {
      PartClean(s);
      var h := ParsePart(s);
      if h.Ok? {
        WordClean(h.rest, stop);
      }
    }
  }

  lemma {:induction false} PartClean(s: string)
    requires s != "" && Clean(s)
    ensures var p := ParsePart(s); p.Ok? ==> (p.value.Some? ==> WellFormedPart(p.value.value)) && Clean(p.rest)
    decreases |s|, 2
  {
    if s[0] == '\'' {
      SingleClean(s[1..]);
    } else if s[0] == '"' {
      QuotedClean(s[1..]);
    } else if s[0] == '$' {
      DollarClean(s);
    }
  }

  lemma {:induction false} DollarClean(s: string)
    requires s != "" && s[0] == '$' && Clean(s)
    ensures var p := ParseDollar(s);
            p.Ok? ==>
              && p.value.Some? && WellFormedPart(p.value.value) && Clean(p.rest)
              && (IsExpansion(p.value.value) || p.value.value == Lit('$'))
    decreases |s|, 1
  {
    var t := s[1..];
    if t != "" && t[0] == '{' {
      BracesClean(t[1..]);
    } else {
      NameIsName(t);
    }
  }

  lemma {:induction false} BracesClean(s: string)
    requires Clean(s)
    ensures var p := ParseBraces(s);
            p.Ok? ==>
              p.value.Some? && WellFormedPart(p.value.value) && IsExpansion(p.value.value) && Clean(p.rest)
    decreases |s|, 5
  {
    NameIsName(s);
    var n := NameLength(s);
    AfterNameClean(s[..n], s[n..]);
  }

  lemma {:induction false} AfterNameClean(name: string, s: string)
    requires IsName(name) && Clean(s)
    ensures var p := ParseAfterName(name, s);
            p.Ok? ==>
              p.value.Some? && WellFormedPart(p.value.value) && IsExpansion(p.value.value) && Clean(p.rest)
    decreases |s|, 4
  {
    if |s| >= 2 && s[0] == ':' {
      WordClean(s[2..], '}');
      assert ParseAfterName(name, s) == ParseModifier(name, s[1], s[2..]);
    }
  }

  lemma {:induction false} QuotedClean(s: string)
    requires Clean(s)
    ensures var p := ParseQuoted(s); p.Ok? ==> WellFormedQuoted(p.value) && Clean(p.rest)
    decreases |s|, 3
  {
    if s != "" && s[0] != '"' {
      var h := ParseQuotedPart(s);
      if s[0] == '$' {
        DollarClean(s);
      }
      if h.Ok? {
        QuotedClean(h.rest);
        if h.value == Some(Lit('\\')) {
          BackslashThenLiteral(s);
        }
      }
    }
  }

  lemma BackslashThenLiteral(s: string)
    requires s != "" && Clean(s) && ParseQuotedPart(s) == Ok(Some(Lit('\\')), s[1..])
    requires s[0] == '\\'
    ensures var p := ParseQuoted(s[1..]); p.Ok? ==> p.value.Cons? && p.value.head.Lit? && p.value.head.c != NUL
  {
    var t := s[1..];
    assert t != "" && t[0] != '"' && t[0] != '$';
    var h := ParseQuotedPart(t);
    if t[0] == '\\' {
      assert |t| > 1;
    }
    assert h.Ok? && h.value.Some? && h.value.value.Lit?;
  }

  /** A text whose tree has no normal form: `"\\` reads as one backslash. */
  lemma TrailingBackslashHasNoNormalForm()
    ensures var s := ['"', '\\', '\\'];
            && ParseWord(s, NUL) == Ok(Cons(Double(Cons(Lit('\\'), Nil)), Nil), "")
            && !WellFormed(ParseWord(s, NUL).value)
            && Process(Print(ParseWord(s, NUL).value), []) != Process(s, [])
  {
    var s := ['"', '\\', '\\'];
    var t := ['\\', '\\'];
    assert s[1..] == t && t[1..] == ['\\'];
    assert ParseQuotedPart(t) == Ok(Some(Lit('\\')), ['\\']);
    assert ParseQuotedPart(['\\']) == Ok(None, "");
    assert ParseQuoted("") == Ok(Nil, "");
    assert ParseQuoted(['\\']) == Ok(Nil, "");
    assert ParseQuoted(t) == Ok(Cons(Lit('\\'), Nil), "");
    assert ParsePart(s) == Ok(Some(Double(Cons(Lit('\\'), Nil))), "");
    assert ParseWord("", NUL) == Ok(Nil, "");
    var w := Cons(Double(Cons(Lit('\\'), Nil)), Nil);
    assert ParseWord(s, NUL) == Ok(w, "");
    assert PrintQuoted(Cons(Lit('\\'), Nil)) == ['\\'] + PrintQuoted(Nil);
    var u := ['"', '\\', '"'];
    assert Print(w) == u;
    var v := ['\\', '"'];
    assert u[1..] == v;
    assert ParseQuotedPart(v) == Ok(Some(Lit('"')), "");
    assert ParseQuoted(v) == Ok(Cons(Lit('"'), Nil), "");
    assert ParsePart(u) == Ok(Some(Double(Cons(Lit('"'), Nil))), "");
    assert ParseWord(u, NUL) == Ok(Cons(Double(Cons(Lit('"'), Nil)), Nil), "");
    assert Eval(Cons(Lit('"'), Nil), []) == "\"";
    assert Eval(Cons(Lit('\\'), Nil), []) == "\\";
  }
}
