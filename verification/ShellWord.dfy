/**
  Dockerfile word expansion (`builder/shell_parser.go`).

  The source reads a word once, with a cursor, and expands while it reads. The specification
  separates the two concerns: `ParseWord` reads the text into a tree without looking at any
  environment, and `Eval` gives the tree its value under an environment. The class `Evaluator`
  is the source's one-pass evaluator; its methods are proved to compute parse-then-evaluate.

  A Go string is a sequence of bytes, here characters below 256. The source widens each byte to
  a rune and re-encodes it as UTF-8 when it appends it (`Encode`).
 */
module ShellSyntax {
  import opened Options
  import opened EnvEntry

  const NUL: char := '\0'

  datatype Word = Nil | Cons(head: Part, tail: Word)

  datatype Part =
    | Lit(c: char)
    | Single(text: string)
    | Double(body: Word)
    | Var(name: string)
    | Default(name: string, word: Word)
    | Alternate(name: string, word: Word)

  datatype ShellError = UnsupportedModifier(c: char) | MissingColon

  datatype Parsed<T> =
    | Ok(value: T, rest: string)
    | Err(error: ShellError, rest: string)

  // ---------- characters ----------

  predicate IsDigit(c: char) { '0' <= c <= '9' }

  /** `unicode.IsLetter` on the runes below 256. */
  predicate IsLetter(c: char) {
    || 'a' <= c <= 'z'
    || 'A' <= c <= 'Z'
    || c as int in {0xAA, 0xB5, 0xBA}
    || (0xC0 <= c as int <= 0xFF && c as int != 0xD7 && c as int != 0xF7)
  }

  predicate IsNameChar(c: char) { IsLetter(c) || IsDigit(c) || c == '_' }

  /** The UTF-8 encoding of the rune with a byte's value. */
  function Encode(c: char): string {
    if 0x80 <= c as int < 0x100
    then [(0xC0 + c as int / 64) as char, (0x80 + c as int % 64) as char]
    else [c]
  }

  function EncodeAll(s: string): string {
    if s == "" then "" else Encode(s[0]) + EncodeAll(s[1..])
  }

  // ---------- reading ----------

  /** The longest prefix of name characters. */
  function NameSpan(s: string): (n: nat)
    ensures n <= |s|
    ensures forall i :: 0 <= i < n ==> IsNameChar(s[i])
    ensures n < |s| ==> !IsNameChar(s[n])
  {
    if s != "" && IsNameChar(s[0]) then 1 + NameSpan(s[1..]) else 0
  }

  /** A leading digit is a name by itself. */
  function NameLength(s: string): (n: nat)
    ensures n <= |s|
  {
    if s != "" && IsDigit(s[0]) then 1 else NameSpan(s)
  }

  /** Reads parts up to the stop character (consumed) or the end. */
  function ParseWord(s: string, stop: char): (p: Parsed<Word>)
    ensures |p.rest| <= |s|
    decreases |s|, 3
  {
    if s == "" then Ok(Nil, "")
    else if stop != NUL && s[0] == stop then Ok(Nil, s[1..])
    else
      var h := ParsePart(s);
      if h.Err? then Err(h.error, h.rest) else Extend(h.value, ParseWord(h.rest, stop))
  }

  function Extend(h: Option<Part>, p: Parsed<Word>): Parsed<Word> {
    if p.Err? || h.None? then p else Ok(Cons(h.value, p.value), p.rest)
  }

  /** One part of an unquoted word; a backslash before NUL or the end reads as nothing. */
  function ParsePart(s: string): (p: Parsed<Option<Part>>)
    requires s != ""
    ensures |p.rest| < |s|
    decreases |s|, 2
  {
    if s[0] == '\'' then var q := ParseSingle(s[1..]); Ok(Some(Single(q.0)), q.1)
    else if s[0] == '"' then
      var q := ParseQuoted(s[1..]);
      if q.Err? then Err(q.error, q.rest) else Ok(Some(Double(q.value)), q.rest)
    else if s[0] == '$' then ParseDollar(s)
    else if s[0] != '\\' then Ok(Some(Lit(s[0])), s[1..])
    else if |s| == 1 then Ok(None, "")
    else Ok(if s[1] == NUL then None else Some(Lit(s[1])), s[2..])
  }

  /** The text up to a closing quote (or NUL, or the end), and what follows it. */
  function ParseSingle(s: string): (r: (string, string))
    ensures |r.1| <= |s|
  {
    if s == "" then ("", "")
    else if s[0] == '\'' || s[0] == NUL then ("", s[1..])
    else var r := ParseSingle(s[1..]); ([s[0]] + r.0, r.1)
  }

  /** Reads parts up to a double quote (consumed) or the end. */
  function ParseQuoted(s: string): (p: Parsed<Word>)
    ensures |p.rest| <= |s|
    decreases |s|, 3
  {
    if s == "" then Ok(Nil, "")
    else if s[0] == '"' then Ok(Nil, s[1..])
    else
      var h := ParseQuotedPart(s);
      if h.Err? then Err(h.error, h.rest) else Extend(h.value, ParseQuoted(h.rest))
  }

  /** One part of a double-quoted word; only \" and \$ are escapes there. */
  function ParseQuotedPart(s: string): (p: Parsed<Option<Part>>)
    requires s != ""
    ensures |p.rest| < |s|
    decreases |s|, 2
  {
    if s[0] == '$' then ParseDollar(s)
    else if s[0] != '\\' then Ok(Some(Lit(s[0])), s[1..])
    else if |s| == 1 || s[1] == NUL then Ok(None, s[1..])
    else if s[1] == '"' || s[1] == '$' then Ok(Some(Lit(s[1])), s[2..])
    else Ok(Some(Lit('\\')), s[1..])
  }

  /** Reads from a '$' on; a '$' before neither a brace nor a name stands for itself. */
  function ParseDollar(s: string): (p: Parsed<Option<Part>>)
    requires s != "" && s[0] == '$'
    ensures |p.rest| < |s|
    decreases |s|, 1
  {
    var t := s[1..];
    if t != "" && t[0] == '{' then ParseBraces(t[1..])
    else
      var n := NameLength(t);
      Ok(Some(if n == 0 then Lit('$') else Var(t[..n])), t[n..])
  }

  /** Reads from after "${" on. */
  function ParseBraces(s: string): (p: Parsed<Option<Part>>)
    ensures |p.rest| <= |s|
    decreases |s|, 6
  {
    var n := NameLength(s);
    ParseAfterName(s[..n], s[n..])
  }

  /** Reads from after "${name" on. */
  function ParseAfterName(name: string, s: string): (p: Parsed<Option<Part>>)
    ensures |p.rest| <= |s|
    decreases |s|, 5
  {
    if s == "" then Err(MissingColon, s)
    else if s[0] == '}' then Ok(Some(Var(name)), s[1..])
    else if s[0] != ':' then Err(MissingColon, s)
    else if |s| == 1 then ParseModifier(name, NUL, "")
    else ParseModifier(name, s[1], s[2..])
  }

  /** Reads from after "${name:" and a modifier on. */
  function ParseModifier(name: string, modifier: char, s: string): (p: Parsed<Option<Part>>)
    ensures |p.rest| <= |s|
    decreases |s|, 4
  {
    var w := ParseWord(s, '}');
    if w.Err? then Err(w.error, w.rest)
    else if modifier == '+' then Ok(Some(Alternate(name, w.value)), w.rest)
    else if modifier == '-' then Ok(Some(Default(name, w.value)), w.rest)
    else Err(UnsupportedModifier(modifier), w.rest)
  }

  // ---------- meaning ----------

  function Eval(w: Word, envs: seq<string>): string {
    match w
    case Nil => ""
    case Cons(h, t) => EvalPart(h, envs) + Eval(t, envs)
  }

  function EvalPart(p: Part, envs: seq<string>): string {
    match p
    case Lit(c) => Encode(c)
    case Single(text) => EncodeAll(text)
    case Double(body) => Eval(body, envs)
    case Var(name) => Get(envs, name)
    case Default(name, w) => if Get(envs, name) == "" then Eval(w, envs) else Get(envs, name)
    case Alternate(name, w) => if Get(envs, name) == "" then "" else Eval(w, envs)
  }

  function Get(envs: seq<string>, name: string): string {
    Lookup(envs, EncodeAll(name))
  }
}

module ShellWord {
  import opened Options
  import opened EnvEntry
  import opened ShellSyntax

  datatype Result = Success(text: string) | Failure(error: ShellError)

  function WordResult(p: Parsed<Word>, envs: seq<string>): Result {
    if p.Ok? then Success(Eval(p.value, envs)) else Failure(p.error)
  }

  function PartResult(p: Parsed<Option<Part>>, envs: seq<string>): Result {
    if p.Err? then Failure(p.error)
    else Success(if p.value.None? then "" else EvalPart(p.value.value, envs))
  }

  function Prepend(text: string, r: Result): Result {
    if r.Success? then Success(text + r.text) else r
  }

  lemma EncodeAllAppend(s: string, c: char)
    ensures EncodeAll(s + [c]) == EncodeAll(s) + Encode(c)
  {
    if s == "" {
      assert EncodeAll([c]) == Encode(c) + EncodeAll("");
    } else {
      assert (s + [c])[1..] == s[1..] + [c];
      EncodeAllAppend(s[1..], c);
    }
  }

  lemma NameStep(s: string, k: nat)
    requires k < |s|
    ensures EncodeAll(s[..k + 1]) == EncodeAll(s[..k]) + Encode(s[k])
  {
    assert s[..k + 1] == s[..k] + [s[k]];
    EncodeAllAppend(s[..k], s[k]);
  }

  /** The name goes on with a further name character, and ends where there is none. */
  lemma NameBoundary(s: string, k: nat)
    requires k <= |s| && k <= NameLength(s) && (s != "" ==> !IsDigit(s[0]))
    ensures k < |s| && IsNameChar(s[k]) ==> k < NameLength(s)
    ensures k == |s| || !IsNameChar(s[k]) ==> k == NameLength(s)
  {
  }

  lemma SuffixOfSuffix(s: string, a: nat, n: nat)
    requires a + n <= |s|
    ensures s[a..][n..] == s[a + n..]
  {
  }

  /** Reading a part and then the rest of the word appends the part's value. */
  lemma SingleStep(s: string, text: string)
    ensures s == "" || s[0] == NUL || s[0] == '\'' ==>
              text + EncodeAll(ParseSingle(s).0) == text && ParseSingle(s).1 == if s == "" then "" else s[1..]
    ensures s != "" && s[0] != NUL && s[0] != '\'' ==>
              && text + EncodeAll(ParseSingle(s).0) == (text + Encode(s[0])) + EncodeAll(ParseSingle(s[1..]).0)
              && ParseSingle(s).1 == ParseSingle(s[1..]).1
  {
    if s != "" && s[0] != NUL && s[0] != '\'' {
      var more := ParseSingle(s[1..]).0;
      assert ([s[0]] + more)[1..] == more;
    }
  }

  lemma ExtendResult(before: string, h: Parsed<Option<Part>>, p: Parsed<Word>, envs: seq<string>)
    requires h.Ok?
    ensures Prepend(before, WordResult(Extend(h.value, p), envs))
         == Prepend(before + PartResult(h, envs).text, WordResult(p, envs))
    ensures Extend(h.value, p).rest == p.rest
  {
  }

  /** The one-pass evaluator, with its cursor. */
  class Evaluator {
    const word: string
    const envs: seq<string>
    var pos: nat

    constructor (word: string, envs: seq<string>)
      ensures this.word == word && this.envs == envs && pos == 0
    {
      this.word := word;
      this.envs := envs;
      pos := 0;
    }

    ghost predicate Valid() reads this { pos <= |word| }

    /** The unread text. */
    ghost function Rest(): string
      requires Valid()
      reads this
    {
      word[pos..]
    }

    function Peek(): (c: char)
      requires Valid()
      reads this
      ensures c == if Rest() == "" then NUL else Rest()[0]
    {
      if pos == |word| then NUL else word[pos]
    }

    method Next() returns (c: char)
      requires Valid()
      modifies this
      ensures Valid()
      ensures old(Rest()) == "" ==> c == NUL && pos == old(pos)
      ensures old(Rest()) != "" ==> c == old(Rest())[0] && pos == old(pos) + 1 && Rest() == old(Rest())[1..]
    {
      if pos == |word| {
        return NUL;
      }
      c := word[pos];
      pos := pos + 1;
    }

    /** `processStopOn`. */
    method ProcessStopOn(stop: char) returns (r: Result)
      requires Valid()
      modifies this
      ensures Valid() && pos >= old(pos)
      ensures r == WordResult(ParseWord(old(Rest()), stop), envs)
      ensures Rest() == ParseWord(old(Rest()), stop).rest
      decreases |word| - pos, 1
    {
      ghost var whole := ParseWord(Rest(), stop);
      var result := "";
      while pos < |word|
        invariant Valid() && old(pos) <= pos
        invariant WordResult(whole, envs) == Prepend(result, WordResult(ParseWord(Rest(), stop), envs))
        invariant whole.rest == ParseWord(Rest(), stop).rest
        decreases |word| - pos
      {
        ghost var s := Rest();
        var ch := Peek();
        if stop != NUL && ch == stop {
          var _ := Next();
          break;
        }
        var tmp;
        if ch == '\'' {
          tmp := ProcessSingleQuote();
        } else if ch == '"' {
          tmp := ProcessDoubleQuote();
        } else if ch == '$' {
          tmp := ProcessDollar();
        } else {
          tmp := ProcessPlain();
        }
        if tmp.Failure? {
          return tmp;
        }
        ExtendResult(result, ParsePart(s), ParseWord(Rest(), stop), envs);
        result := result + tmp.text;
      }
      r := Success(result);
    }

    /** The branch of `processStopOn` for a character with no function of its own. */
    method ProcessPlain() returns (r: Result)
      requires Valid() && Rest() != "" && Rest()[0] !in {'\'', '"', '$'}
      modifies this
      ensures Valid() && pos > old(pos)
      ensures r == PartResult(ParsePart(old(Rest())), envs)
      ensures Rest() == ParsePart(old(Rest())).rest
    {
      var ch := Next();
      if ch == '\\' {
        ch := Next();
        if ch == NUL {
          return Success("");
        }
      }
      r := Success(Encode(ch));
    }

    /** `processSingleQuote`. */
    method ProcessSingleQuote() returns (r: Result)
      requires Valid() && Rest() != "" && Rest()[0] == '\''
      modifies this
      ensures Valid() && pos > old(pos)
      ensures r == PartResult(ParsePart(old(Rest())), envs)
      ensures Rest() == ParsePart(old(Rest())).rest
    {
      var text := "";
      var _ := Next();
      ghost var start := Rest();
      while true
        invariant Valid() && old(pos) < pos
        invariant EncodeAll(ParseSingle(start).0) == text + EncodeAll(ParseSingle(Rest()).0)
        invariant ParseSingle(start).1 == ParseSingle(Rest()).1
        decreases |word| - pos
      {
        SingleStep(Rest(), text);
        var ch := Next();
        if ch == NUL || ch == '\'' {
          break;
        }
        text := text + Encode(ch);
      }
      r := Success(text);
    }

    /** `processDoubleQuote`. */
    method ProcessDoubleQuote() returns (r: Result)
      requires Valid() && Rest() != "" && Rest()[0] == '"'
      modifies this
      ensures Valid() && pos > old(pos)
      ensures r == PartResult(ParsePart(old(Rest())), envs)
      ensures Rest() == ParsePart(old(Rest())).rest
      decreases |word| - pos, 0
    {
      var result := "";
      var _ := Next();
      ghost var whole := ParseQuoted(Rest());
      while pos < |word|
        invariant Valid() && old(pos) < pos
        invariant WordResult(whole, envs) == Prepend(result, WordResult(ParseQuoted(Rest()), envs))
        invariant whole.rest == ParseQuoted(Rest()).rest
        decreases |word| - pos
      {
        ghost var s := Rest();
        var ch := Peek();
        if ch == '"' {
          var _ := Next();
          break;
        }
        var tmp;
        if ch == '$' {
          tmp := ProcessDollar();
          if tmp.Failure? {
            return tmp;
          }
        } else {
          tmp := ProcessQuotedPlain();
        }
        ExtendResult(result, ParseQuotedPart(s), ParseQuoted(Rest()), envs);
        result := result + tmp.text;
      }
      r := Success(result);
    }

    /** The branch of `processDoubleQuote` for a character other than '"' and '$'. */
    method ProcessQuotedPlain() returns (r: Result)
      requires Valid() && Rest() != "" && Rest()[0] !in {'"', '$'}
      modifies this
      ensures Valid() && pos > old(pos) && r.Success?
      ensures r == PartResult(ParseQuotedPart(old(Rest())), envs)
      ensures Rest() == ParseQuotedPart(old(Rest())).rest
    {
      var ch := Next();
      if ch == '\\' {
        var chNext := Peek();
        if chNext == NUL {
          return Success("");
        }
        if chNext == '"' || chNext == '$' {
          ch := Next();
        }
      }
      r := Success(Encode(ch));
    }

    /** `processDollar`. */
    method ProcessDollar() returns (r: Result)
      requires Valid() && Rest() != "" && Rest()[0] == '$'
      modifies this
      ensures Valid() && pos > old(pos)
      ensures r == PartResult(ParseDollar(old(Rest())), envs)
      ensures Rest() == ParseDollar(old(Rest())).rest
      decreases |word| - pos, 0
    {
      var _ := Next();
      var ch := Peek();
      if ch == '{' {
        var _ := Next();
        r := ProcessBraces();
        return;
      }
      ghost var s := Rest();
      var name := ProcessName();
      if name == "" {
        return Success("$");
      }
      var v := GetEnv(name);
      return Success(v);
    }

    /** The `${` branch of `processDollar`. */
    method ProcessBraces() returns (r: Result)
      requires Valid()
      modifies this
      ensures Valid() && pos >= old(pos)
      ensures r == PartResult(ParseBraces(old(Rest())), envs)
      ensures Rest() == ParseBraces(old(Rest())).rest
      decreases |word| - pos, 4
    {
      ghost var s := Rest();
      var name := ProcessName();
      r := ProcessAfterName(name, s[..NameLength(s)]);
    }

    /** The `${name` branch of `processDollar`. */
    method ProcessAfterName(name: string, ghost raw: string) returns (r: Result)
      requires Valid() && name == EncodeAll(raw)
      modifies this
      ensures Valid() && pos >= old(pos)
      ensures r == PartResult(ParseAfterName(raw, old(Rest())), envs)
      ensures Rest() == ParseAfterName(raw, old(Rest())).rest
      decreases |word| - pos, 3
    {
      ghost var s := Rest();
      var ch := Peek();
      if ch == '}' {
        var _ := Next();
        var v := GetEnv(name);
        return Success(v);
      }
      if ch == ':' {
        var _ := Next();
        var modifier := Next();
        assert |s| > 1 ==> s[1..][1..] == s[2..];
        r := ProcessModifier(name, modifier, raw);
        return;
      }
      return Failure(MissingColon);
    }

    /** The `${name:` branch of `processDollar`, after the modifier. */
    method ProcessModifier(name: string, modifier: char, ghost raw: string) returns (r: Result)
      requires Valid() && name == EncodeAll(raw)
      modifies this
      ensures Valid() && pos >= old(pos)
      ensures r == PartResult(ParseModifier(raw, modifier, old(Rest())), envs)
      ensures Rest() == ParseModifier(raw, modifier, old(Rest())).rest
      decreases |word| - pos, 2
    {
      var w := ProcessStopOn('}');
      if w.Failure? {
        return w;
      }
      var newValue := GetEnv(name);
      match modifier
      case '+' =>
        if newValue != "" {
          newValue := w.text;
        }
        return Success(newValue);
      case '-' =>
        if newValue == "" {
          newValue := w.text;
        }
        return Success(newValue);
      case _ =>
        return Failure(UnsupportedModifier(modifier));
    }

    /** `processName`. */
    method ProcessName() returns (name: string)
      requires Valid()
      modifies this
      ensures Valid() && pos == old(pos) + NameLength(old(Rest()))
      ensures name == EncodeAll(old(Rest())[..NameLength(old(Rest()))])
      ensures name == "" <==> pos == old(pos)
      ensures Rest() == old(Rest())[NameLength(old(Rest()))..]
    {
      name := "";
      ghost var s, start := Rest(), pos;
      ghost var n, k := NameLength(s), 0;
      while pos < |word|
        invariant Valid() && pos == start + k && 0 <= k <= n
        invariant name == EncodeAll(s[..k])
        invariant name == "" <==> k == 0
        invariant k > 0 ==> !IsDigit(s[0])
        decreases |word| - pos
      {
        var ch := Peek();
        assert ch == s[k];
        NameStep(s, k);
        if |name| == 0 && IsDigit(ch) {
          ch := Next();
          SuffixOfSuffix(word, start, 1);
          return Encode(ch);
        }
        NameBoundary(s, k);
        if !IsLetter(ch) && !IsDigit(ch) && ch != '_' {
          break;
        }
        ch := Next();
        name := name + Encode(ch);
        k := k + 1;
      }
      NameBoundary(s, k);
      SuffixOfSuffix(word, start, k);
    }

    /** `getEnv`. */
    method GetEnv(name: string) returns (v: string)
      ensures v == Lookup(envs, name)
    {
      for k := 0 to |envs|
        invariant Lookup(envs, name) == Lookup(envs[k..], name)
      {
        var env := envs[k];
        assert envs[k..][1..] == envs[k + 1..];
        var i := IndexOf(env, '=');
        if i < 0 {
          if name == env {
            return "";
          }
          continue;
        }
        if name != env[..i] {
          continue;
        }
        return env[i + 1..];
      }
      return "";
    }
  }

  /** What `ProcessWord` computes: parse, then evaluate. */
  function Process(word: string, envs: seq<string>): Result {
    WordResult(ParseWord(word, NUL), envs)
  }

  /** `ProcessWord`. */
  method ProcessWord(word: string, envs: seq<string>) returns (r: Result)
    ensures r == Process(word, envs)
  {
    var sw := new Evaluator(word, envs);
    assert sw.Rest() == word;
    r := sw.ProcessStopOn(NUL);
  }
}
