/**
  What a word expands to, said on the text itself and on lookup in the environment: one law for
  every way in which a word, or the inside of double quotes, can begin. A text that begins with a
  double quote stands for the rest of a word inside quotes.
 */
module ShellLaws {
  import opened Options
  import opened EnvEntry
  import opened ShellSyntax
  import opened ShellWord
  import opened ShellRoundTrip

  // ---------- one part at a time ----------

  lemma PartStep(s: string, envs: seq<string>)
    requires s != ""
    ensures var h := ParsePart(s);
            Process(s, envs) == if h.Err? then Failure(h.error) else Prepend(PartResult(h, envs).text, Process(h.rest, envs))
  {
    var h := ParsePart(s);
    if h.Ok? {
      ExtendResult("", h, ParseWord(h.rest, NUL), envs);
    }
  }

  /** A text inside double quotes. */
  function Quoted(s: string, envs: seq<string>): Result {
    Process("\"" + s, envs)
  }

  lemma QuotedIs(s: string, envs: seq<string>)
    ensures var q := ParseQuoted(s);
            Quoted(s, envs) == if q.Err? then Failure(q.error) else Prepend(Eval(q.value, envs), Process(q.rest, envs))
  {
    assert ("\"" + s)[1..] == s;
    PartStep("\"" + s, envs);
  }

  lemma QuotedStep(s: string, envs: seq<string>)
    requires s != "" && s[0] != '"'
    ensures var h := ParseQuotedPart(s);
            Quoted(s, envs) == if h.Err? then Failure(h.error) else Prepend(PartResult(h, envs).text, Quoted(h.rest, envs))
  {
    var h := ParseQuotedPart(s);
    QuotedIs(s, envs);
    if h.Ok? {
      QuotedIs(h.rest, envs);
      ExtendResult("", h, ParseQuoted(h.rest), envs);
      var q := ParseQuoted(h.rest);
      if q.Ok? {
        assert Eval(ParseQuoted(s).value, envs) == PartResult(h, envs).text + Eval(q.value, envs);
        PrependTwice(PartResult(h, envs).text, Eval(q.value, envs), Process(q.rest, envs));
      }
    }
  }

  lemma PrependTwice(a: string, b: string, r: Result)
    ensures Prepend(a + b, r) == Prepend(a, Prepend(b, r))
  {
    if r.Success? {
      assert a + b + r.text == a + (b + r.text);
    }
  }

  // ---------- plain characters, escapes and quotes ----------

  predicate IsASCII(s: string) {
    forall i :: 0 <= i < |s| ==> s[i] as int < 0x80
  }

  lemma {:induction false} EncodeASCII(s: string)
    requires IsASCII(s)
    ensures EncodeAll(s) == s
  {
    if s != "" {
      EncodeASCII(s[1..]);
      assert s == [s[0]] + s[1..];
    }
  }

  /** A byte above the ASCII range comes out as the two bytes of UTF-8. */
  lemma EncodeHigh(c: char)
    requires 0x80 <= c as int < 0x100
    ensures |Encode(c)| == 2 && Encode(c)[0] as int in {0xC2, 0xC3} && 0x80 <= Encode(c)[1] as int < 0xC0
    ensures (Encode(c)[0] as int - 0xC0) * 64 + (Encode(c)[1] as int - 0x80) == c as int
  {
  }

  lemma Empty(envs: seq<string>)
    ensures Process("", envs) == Success("")
  {
  }

  lemma PlainCharacter(c: char, rest: string, envs: seq<string>)
    requires c !in {'\\', '\'', '"', '$'} && c as int < 0x80
    ensures Process([c] + rest, envs) == Prepend([c], Process(rest, envs))
  {
    assert ([c] + rest)[1..] == rest;
    PartStep([c] + rest, envs);
  }

  /** A backslash takes the next character as it is, and vanishes in front of NUL and at the end. */
  lemma Backslash(c: char, rest: string, envs: seq<string>)
    requires c as int < 0x80
    ensures Process(['\\', c] + rest, envs) == if c == NUL then Process(rest, envs) else Prepend([c], Process(rest, envs))
    ensures Process(['\\'], envs) == Success("")
  {
    assert (['\\', c] + rest)[2..] == rest;
    PartStep(['\\', c] + rest, envs);
    PartStep(['\\'], envs);
  }

  /** Single quotes keep everything up to the closing quote, or up to the end. */
  lemma SingleQuotes(text: string, rest: string, envs: seq<string>)
    requires IsASCII(text) && '\'' !in text && NUL !in text
    ensures Process("'" + text + "'" + rest, envs) == Prepend(text, Process(rest, envs))
    ensures Process("'" + text, envs) == Success(text)
  {
    var s := "'" + text + "'" + rest;
    assert s[1..] == text + "'" + rest;
    SingleRoundTrip(text, rest);
    EncodeASCII(text);
    PartStep(s, envs);
    var u := "'" + text;
    assert u[1..] == text;
    SingleUnclosed(text);
    PartStep(u, envs);
  }

  lemma {:induction false} SingleUnclosed(text: string)
    requires '\'' !in text && NUL !in text
    ensures ParseSingle(text) == (text, "")
  {
    if text != "" {
      SingleUnclosed(text[1..]);
      assert text == [text[0]] + text[1..];
    }
  }

  /** Inside double quotes: plain characters, the two escapes, and a backslash that is kept. */
  lemma QuotedCharacter(c: char, rest: string, envs: seq<string>)
    requires c as int < 0x80
    ensures c !in {'\\', '"', '$'} ==> Quoted([c] + rest, envs) == Prepend([c], Quoted(rest, envs))
    ensures c in {'"', '$'} ==> Quoted(['\\', c] + rest, envs) == Prepend([c], Quoted(rest, envs))
    ensures c !in {'"', '$', NUL} ==> Quoted(['\\', c] + rest, envs) == Prepend(['\\'], Quoted([c] + rest, envs))
    ensures c == NUL ==> Quoted(['\\', c] + rest, envs) == Quoted([c] + rest, envs)
  {
    var s, t := [c] + rest, ['\\', c] + rest;
    assert s[1..] == rest && t[1..] == s && t[2..] == rest;
    if c != '"' {
      QuotedStep(s, envs);
    }
    QuotedStep(t, envs);
  }

  /** A closing quote ends the quoted part, and so does the end of the word. */
  lemma QuotesClose(rest: string, envs: seq<string>)
    ensures Quoted("\"" + rest, envs) == Process(rest, envs)
    ensures Quoted("", envs) == Success("") && Quoted(['\\'], envs) == Success("")
  {
    assert ("\"" + rest)[1..] == rest;
    QuotedIs("\"" + rest, envs);
    QuotedIs("", envs);
    QuotedStep(['\\'], envs);
  }

  // ---------- variables ----------

  /** A name as a reader stops at it, in front of `rest`. */
  predicate NameBefore(n: string, rest: string) {
    && n != "" && IsName(n)
    && (IsDigit(n[0]) || rest == "" || !IsNameChar(rest[0]))
  }

  lemma NameEnds(n: string, rest: string)
    requires NameBefore(n, rest)
    ensures NameLength(n + rest) == |n| && (n + rest)[..|n|] == n && (n + rest)[|n|..] == rest
  {
    var s := n + rest;
    assert s[0] == n[0];
    if !IsDigit(n[0]) {
      assert forall i :: 0 <= i < |n| ==> s[i] == n[i];
      assert rest != "" ==> s[|n|] == rest[0];
    }
  }

  lemma DollarName(n: string, rest: string)
    requires NameBefore(n, rest)
    ensures ParseDollar("$" + n + rest) == Ok(Some(Var(n)), rest)
  {
    var s := "$" + n + rest;
    assert s[1..] == n + rest && s[1] == n[0];
    NameEnds(n, rest);
  }

  /** A dollar reads the same in the open and inside double quotes. */
  lemma DollarIs(s: string, envs: seq<string>)
    requires s != "" && s[0] == '$'
    ensures ParseDollar(s).Ok? ==>
              && Process(s, envs) == Prepend(PartResult(ParseDollar(s), envs).text, Process(ParseDollar(s).rest, envs))
              && Quoted(s, envs) == Prepend(PartResult(ParseDollar(s), envs).text, Quoted(ParseDollar(s).rest, envs))
    ensures ParseDollar(s).Err? ==>
              Process(s, envs) == Failure(ParseDollar(s).error) && Quoted(s, envs) == Failure(ParseDollar(s).error)
  {
    PartStep(s, envs);
    QuotedStep(s, envs);
  }

  /** `$name`, in the open and inside double quotes, is the value of the variable. */
  lemma BareVariable(n: string, rest: string, envs: seq<string>)
    requires NameBefore(n, rest)
    ensures Process("$" + n + rest, envs) == Prepend(Lookup(envs, EncodeAll(n)), Process(rest, envs))
    ensures Quoted("$" + n + rest, envs) == Prepend(Lookup(envs, EncodeAll(n)), Quoted(rest, envs))
  {
    DollarName(n, rest);
    DollarIs("$" + n + rest, envs);
  }

  predicate IsWordChar(c: char) {
    'a' <= c <= 'z' || 'A' <= c <= 'Z' || '0' <= c <= '9' || c == '_'
  }

  /** The same on ASCII, with the characters spelled out: the longest name counts, and a digit is a name alone. */
  lemma BareASCIIVariable(n: string, rest: string, envs: seq<string>)
    requires n != "" && (forall i :: 0 <= i < |n| ==> IsWordChar(n[i]))
    requires if '0' <= n[0] <= '9' then |n| == 1 else rest == "" || (rest[0] as int < 0x80 && !IsWordChar(rest[0]))
    ensures Process("$" + n + rest, envs) == Prepend(Lookup(envs, n), Process(rest, envs))
    ensures Quoted("$" + n + rest, envs) == Prepend(Lookup(envs, n), Quoted(rest, envs))
  {
    EncodeASCII(n);
    BareVariable(n, rest, envs);
  }

  /** A dollar before neither a brace nor a name stands for itself. */
  lemma LoneDollar(rest: string, envs: seq<string>)
    requires rest == "" || (rest[0] != '{' && !IsNameChar(rest[0]))
    ensures Process("$" + rest, envs) == Prepend("$", Process(rest, envs))
    ensures Quoted("$" + rest, envs) == Prepend("$", Quoted(rest, envs))
  {
    var s := "$" + rest;
    assert s[1..] == rest && NameLength(rest) == 0;
    assert rest[0..] == rest;
    DollarIs(s, envs);
  }

  lemma DollarBraces(text: string)
    ensures ParseDollar("${" + text) == ParseBraces(text)
  {
    assert ("${" + text)[1..][1..] == text;
  }

  lemma BracesIs(text: string, envs: seq<string>)
    ensures var p := ParseBraces(text);
            p.Ok? ==>
              && Process("${" + text, envs) == Prepend(PartResult(p, envs).text, Process(p.rest, envs))
              && Quoted("${" + text, envs) == Prepend(PartResult(p, envs).text, Quoted(p.rest, envs))
    ensures var p := ParseBraces(text);
            p.Err? ==> Process("${" + text, envs) == Failure(p.error) && Quoted("${" + text, envs) == Failure(p.error)
  {
    DollarBraces(text);
    DollarIs("${" + text, envs);
  }

  /** `${name}`, also with an empty name. */
  lemma BracedVariable(n: string, rest: string, envs: seq<string>)
    requires IsName(n)
    ensures Process("${" + (n + ("}" + rest)), envs) == Prepend(Lookup(envs, EncodeAll(n)), Process(rest, envs))
    ensures Quoted("${" + (n + ("}" + rest)), envs) == Prepend(Lookup(envs, EncodeAll(n)), Quoted(rest, envs))
  {
    BracesVar(n, rest);
    BracesIs(n + ("}" + rest), envs);
  }

  /** What `${name:-word}` and `${name:+word}` stand for, given the values of the variable and the word. */
  function Choice(m: char, v: string, word: string): string {
    if m == '-' then (if v == "" then word else v) else (if v == "" then "" else word)
  }

  /** The word of a modifier is read up to its own closing brace, or up to the end. */
  lemma ModifierReads(n: string, m: char, w: Word, tail: string)
    requires IsName(n) && m in {'-', '+'} && WellFormed(w)
    requires ParseWord(tail, '}').Ok? && ParseWord(tail, '}').value == Nil
    ensures ParseBraces(n + ([':', m] + (Print(w) + tail))) ==
            Ok(Some(if m == '-' then Default(n, w) else Alternate(n, w)), ParseWord(tail, '}').rest)
  {
    BracesModifier(n, m, Print(w) + tail);
    WordRoundTrip(w, '}', tail);
  }

  lemma ModifierValue(n: string, m: char, w: Word, envs: seq<string>)
    requires m in {'-', '+'} && WellFormed(w)
    ensures Process(Print(w), envs).Success?
    ensures EvalPart(if m == '-' then Default(n, w) else Alternate(n, w), envs) ==
            Choice(m, Lookup(envs, EncodeAll(n)), Process(Print(w), envs).text)
  {
    PrintThenProcess(w, envs);
  }

  /** The modifiers, at any depth: `-` gives the word for an empty variable, `+` for one that is not empty. */
  lemma Modifiers(n: string, m: char, w: Word, rest: string, envs: seq<string>)
    requires IsName(n) && m in {'-', '+'} && WellFormed(w)
    ensures Process(Print(w), envs).Success?
    ensures var value := Choice(m, Lookup(envs, EncodeAll(n)), Process(Print(w), envs).text);
            var text := "${" + (n + ([':', m] + (Print(w) + ("}" + rest))));
            Process(text, envs) == Prepend(value, Process(rest, envs)) && Quoted(text, envs) == Prepend(value, Quoted(rest, envs))
  {
    ModifierValue(n, m, w, envs);
    assert ("}" + rest)[1..] == rest;
    ModifierReads(n, m, w, "}" + rest);
    BracesIs(n + ([':', m] + (Print(w) + ("}" + rest))), envs);
  }

  /** The same without the closing brace. */
  lemma UnclosedModifier(n: string, m: char, w: Word, envs: seq<string>)
    requires IsName(n) && m in {'-', '+'} && WellFormed(w)
    ensures Process(Print(w), envs).Success?
    ensures Process("${" + (n + ([':', m] + Print(w))), envs) ==
            Success(Choice(m, Lookup(envs, EncodeAll(n)), Process(Print(w), envs).text))
  {
    ModifierValue(n, m, w, envs);
    ModifierReads(n, m, w, "");
    assert Print(w) + "" == Print(w);
    BracesIs(n + ([':', m] + Print(w)), envs);
  }

  // ---------- errors ----------

  /** A name in braces must be followed by the closing brace or a colon. */
  lemma MissingColonFails(n: string, rest: string, envs: seq<string>)
    requires (n == "" && (rest == "" || !IsNameChar(rest[0]))) || NameBefore(n, rest)
    requires rest == "" || rest[0] !in {'}', ':'}
    ensures Process("${" + (n + rest), envs) == Failure(MissingColon)
    ensures Quoted("${" + (n + rest), envs) == Failure(MissingColon)
  {
    if n != "" {
      NameEnds(n, rest);
    } else {
      assert n + rest == rest && NameLength(rest) == 0 && rest[0..] == rest;
    }
    BracesIs(n + rest, envs);
  }

  /** Only `-` and `+` are modifiers. */
  lemma OtherModifierFails(n: string, m: char, w: Word, rest: string, envs: seq<string>)
    requires IsName(n) && m !in {'-', '+'} && WellFormed(w)
    ensures Process("${" + (n + ([':', m] + (Print(w) + ("}" + rest)))), envs) == Failure(UnsupportedModifier(m))
    ensures Process("${" + (n + ":"), envs) == Failure(UnsupportedModifier(NUL))
  {
    var text := Print(w) + ("}" + rest);
    BracesModifier(n, m, text);
    WordRoundTrip(w, '}', "}" + rest);
    BracesIs(n + ([':', m] + text), envs);
    NamePrefix(n, ":");
    BracesIs(n + ":", envs);
  }

  /** A failure anywhere is the failure of the whole word. */
  lemma {:induction false} FailureSpreads(w: Word, rest: string, envs: seq<string>)
    requires WellFormed(w)
    ensures Process(Print(w) + rest, envs) == Prepend(Eval(w, envs), Process(rest, envs))
    ensures Process(rest, envs).Failure? ==> Process(Print(w) + rest, envs) == Process(rest, envs)
    decreases w
  {
    match w
    case Nil =>
      assert Print(w) + rest == rest;
    case Cons(h, t) =>
      var more := Print(t) + rest;
      assert Print(w) + rest == PrintPart(h) + more;
      PartRoundTrip(h, more);
      PartStep(PrintPart(h) + more, envs);
      FailureSpreads(t, rest, envs);
      PrependTwice(EvalPart(h, envs), Eval(t, envs), Process(rest, envs));
  }
}
