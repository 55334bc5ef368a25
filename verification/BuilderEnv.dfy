/**
  The ENV instruction of a Dockerfile (`builder/dispatchers.go`, `builder/evaluator.go`).
  The builder keeps its environment as a list of entries that it rewrites in place. Against it
  stands a specification on maps: expand all the words of an instruction in the environment
  from before it, then bind the names in order.
 */
module EnvSpec {
  import opened EnvEntry
  import opened ShellSyntax
  import opened ShellWord

  // ---------- the list ----------

  /** Overwrites the first entry with this key, or appends one. */
  function SetEntry(envs: seq<string>, k: string, v: string): seq<string> {
    if envs == [] then [k + "=" + v]
    else if Key(envs[0]) == k then [k + "=" + v] + envs[1..]
    else [envs[0]] + SetEntry(envs[1..], k, v)
  }

  /** The assignments `args[j] = args[j + 1]` and so on, in order. */
  function SetEntries(envs: seq<string>, args: seq<string>, j: nat): seq<string>
    decreases |args| - j
  {
    if j + 1 < |args| then SetEntries(SetEntry(envs, args[j], args[j + 1]), args, j + 2) else envs
  }

  datatype Expanded = Words(args: seq<string>) | Bad(error: ShellError)

  function ExpandAll(words: seq<string>, envs: seq<string>): (r: Expanded)
    ensures r.Words? ==> |r.args| == |words|
  {
    if words == [] then Words([])
    else
      AddWord(ExpandAll(words[..|words| - 1], envs), Process(words[|words| - 1], envs))
  }

  /** One more word; the first bad one is the one that is reported. */
  function AddWord(x: Expanded, w: Result): Expanded {
    if x.Bad? then x else if w.Failure? then Bad(w.error) else Words(x.args + [w.text])
  }

  datatype Outcome = Done | NoArguments | OddArguments | BadWord(error: ShellError)

  /** One ENV instruction on the list. */
  function Instruction(envs: seq<string>, words: seq<string>): (seq<string>, Outcome) {
    var x := ExpandAll(words, envs);
    if x.Bad? then (envs, BadWord(x.error))
    else if words == [] then (envs, NoArguments)
    else if |words| % 2 != 0 then (envs, OddArguments)
    else (SetEntries(envs, x.args, 0), Done)
  }

  /** A Dockerfile's ENV instructions; the first one that fails ends the build. */
  function Run(envs: seq<string>, script: seq<seq<string>>): (seq<string>, Outcome)
    decreases |script|
  {
    if script == [] then (envs, Done)
    else
      var r := Instruction(envs, script[0]);
      if r.1.Done? then Run(r.0, script[1..]) else r
  }

  // ---------- the map ----------

  function At(m: map<string, string>, n: string): string {
    if n in m then m[n] else ""
  }

  function EvalIn(w: Word, m: map<string, string>): string {
    match w
    case Nil => ""
    case Cons(h, t) => PartIn(h, m) + EvalIn(t, m)
  }

  function PartIn(p: Part, m: map<string, string>): string {
    match p
    case Lit(c) => Encode(c)
    case Single(text) => EncodeAll(text)
    case Double(body) => EvalIn(body, m)
    case Var(name) => At(m, EncodeAll(name))
    case Default(name, w) => if At(m, EncodeAll(name)) == "" then EvalIn(w, m) else At(m, EncodeAll(name))
    case Alternate(name, w) => if At(m, EncodeAll(name)) == "" then "" else EvalIn(w, m)
  }

  /**
    Binding a name. A name that itself holds '=' never matches an entry: its entry is appended,
    and so it binds the part before its first '=' when that is still unbound.
   */
  function Bind(m: map<string, string>, k: string, v: string): map<string, string> {
    if '=' !in k then m[k := v]
    else if Key(k) in m then m
    else m[Key(k) := Value(k) + "=" + v]
  }

  function BindAll(m: map<string, string>, args: seq<string>, j: nat): map<string, string>
    decreases |args| - j
  {
    if j + 1 < |args| then BindAll(Bind(m, args[j], args[j + 1]), args, j + 2) else m
  }

  function ExpandAllIn(words: seq<string>, m: map<string, string>): (r: Expanded)
    ensures r.Words? ==> |r.args| == |words|
  {
    if words == [] then Words([])
    else
      var init := ExpandAllIn(words[..|words| - 1], m);
      if init.Bad? then init
      else
        var p := ParseWord(words[|words| - 1], NUL);
        if p.Err? then Bad(p.error) else Words(init.args + [EvalIn(p.value, m)])
  }

  function InstructionIn(m: map<string, string>, words: seq<string>): (map<string, string>, Outcome) {
    var x := ExpandAllIn(words, m);
    if x.Bad? then (m, BadWord(x.error))
    else if words == [] then (m, NoArguments)
    else if |words| % 2 != 0 then (m, OddArguments)
    else (BindAll(m, x.args, 0), Done)
  }

  function RunIn(m: map<string, string>, script: seq<seq<string>>): (map<string, string>, Outcome)
    decreases |script|
  {
    if script == [] then (m, Done)
    else
      var r := InstructionIn(m, script[0]);
      if r.1.Done? then RunIn(r.0, script[1..]) else r
  }

  // ---------- the list refines the map ----------

  ghost predicate Agrees(envs: seq<string>, m: map<string, string>) {
    && (forall n :: n in m <==> HasKey(envs, n))
    && (forall n :: Lookup(envs, n) == At(m, n))
  }

  /** The map that a list stands for. */
  function AsMap(envs: seq<string>): map<string, string> {
    if envs == [] then map[] else AsMap(envs[1..])[Key(envs[0]) := Value(envs[0])]
  }

  lemma {:induction false} AsMapAgrees(envs: seq<string>)
    ensures Agrees(envs, AsMap(envs))
  {
    if envs != [] {
      AsMapAgrees(envs[1..]);
      assert envs == [envs[0]] + envs[1..];
      forall n ensures n in AsMap(envs) <==> HasKey(envs, n) ensures Lookup(envs, n) == At(AsMap(envs), n) {
        HasKeyCons(envs[0], envs[1..], n);
      }
    }
  }

  lemma {:induction false} EvalAgrees(w: Word, envs: seq<string>, m: map<string, string>)
    requires Agrees(envs, m)
    ensures Eval(w, envs) == EvalIn(w, m)
    decreases w
  {
    if w.Cons? {
      match w.head {
        case Lit(_) =>
        case Single(_) =>
        case Double(body) => EvalAgrees(body, envs, m);
        case Var(_) =>
        case Default(_, v) => EvalAgrees(v, envs, m);
        case Alternate(_, v) => EvalAgrees(v, envs, m);
      }
      EvalAgrees(w.tail, envs, m);
    }
  }

  lemma HasKeyCons(e: string, b: seq<string>, n: string)
    ensures HasKey([e] + b, n) <==> Key(e) == n || HasKey(b, n)
    ensures Lookup([e] + b, n) == if Key(e) == n then Value(e) else Lookup(b, n)
  {
    var s := [e] + b;
    assert s[1..] == b && s[0] == e;
    if HasKey(b, n) {
      var j :| 0 <= j < |b| && Key(b[j]) == n;
      assert s[j + 1] == b[j];
    }
    if j :| 0 <= j < |s| && Key(s[j]) == n && j > 0 {
      assert b[j - 1] == s[j];
    }
  }

  /** What one assignment does to every lookup, and to the set of bound names. */
  lemma {:induction false} SetEntryLookup(envs: seq<string>, k: string, v: string, n: string)
    ensures '=' !in k ==> Lookup(SetEntry(envs, k, v), n) == if n == k then v else Lookup(envs, n)
    ensures '=' in k ==>
              Lookup(SetEntry(envs, k, v), n) ==
              if n == Key(k) && !HasKey(envs, n) then Value(k) + "=" + v else Lookup(envs, n)
    ensures HasKey(SetEntry(envs, k, v), n) <==> HasKey(envs, n) || n == Key(k)
  {
    var e := k + "=" + v;
    KeyOfEntry(k, v);
    if envs == [] {
      HasKeyCons(e, [], n);
      assert [e] + [] == [e];
    } else {
      var rest := envs[1..];
      KeyHasNoEquals(envs[0]);
      assert envs == [envs[0]] + rest;
      HasKeyCons(envs[0], rest, n);
      if Key(envs[0]) == k {
        HasKeyCons(e, rest, n);
      } else {
        SetEntryLookup(rest, k, v, n);
        HasKeyCons(envs[0], SetEntry(rest, k, v), n);
      }
    }
  }

  lemma KeyOfEntry(k: string, v: string)
    ensures '=' !in k ==> Key(k + "=" + v) == k && Value(k + "=" + v) == v
    ensures '=' in k ==> Key(k + "=" + v) == Key(k) && Value(k + "=" + v) == Value(k) + "=" + v
  {
    if '=' !in k {
      EntryRoundTrip(k, v);
    } else {
      var i := IndexOf(k, '=');
      var e := k + "=" + v;
      assert e[..i] == k[..i] && e[i] == '=';
      assert IndexOf(e, '=') == i;
      assert e[i + 1..] == k[i + 1..] + "=" + v;
    }
  }

  lemma SetEntryAgrees(envs: seq<string>, m: map<string, string>, k: string, v: string)
    requires Agrees(envs, m)
    ensures Agrees(SetEntry(envs, k, v), Bind(m, k, v))
  {
    forall n
      ensures Lookup(SetEntry(envs, k, v), n) == At(Bind(m, k, v), n)
      ensures n in Bind(m, k, v) <==> HasKey(SetEntry(envs, k, v), n)
    {
      SetEntryLookup(envs, k, v, n);
    }
  }

  lemma {:induction false} SetEntriesAgree(envs: seq<string>, m: map<string, string>, args: seq<string>, j: nat)
    requires Agrees(envs, m)
    ensures Agrees(SetEntries(envs, args, j), BindAll(m, args, j))
    decreases |args| - j
  {
    if j + 1 < |args| {
      SetEntryAgrees(envs, m, args[j], args[j + 1]);
      SetEntriesAgree(SetEntry(envs, args[j], args[j + 1]), Bind(m, args[j], args[j + 1]), args, j + 2);
    }
  }

  lemma {:induction false} ExpandAllAgrees(words: seq<string>, envs: seq<string>, m: map<string, string>)
    requires Agrees(envs, m)
    ensures ExpandAll(words, envs) == ExpandAllIn(words, m)
    decreases |words|
  {
    if words != [] {
      ExpandAllAgrees(words[..|words| - 1], envs, m);
      var p := ParseWord(words[|words| - 1], NUL);
      if p.Ok? {
        EvalAgrees(p.value, envs, m);
      }
    }
  }

  /**
    After any script of ENV instructions, with any names and any starting list, lookup in the
    list is lookup in the map that was updated in order, and both end in the same outcome.
   */
  lemma {:induction false} RunAgrees(envs: seq<string>, m: map<string, string>, script: seq<seq<string>>)
    requires Agrees(envs, m)
    ensures Agrees(Run(envs, script).0, RunIn(m, script).0)
    ensures Run(envs, script).1 == RunIn(m, script).1
    decreases |script|
  {
    if script != [] {
      var words := script[0];
      ExpandAllAgrees(words, envs, m);
      var x := ExpandAll(words, envs);
      if x.Words? && words != [] && |words| % 2 == 0 {
        SetEntriesAgree(envs, m, x.args, 0);
        RunAgrees(SetEntries(envs, x.args, 0), BindAll(m, x.args, 0), script[1..]);
      }
    }
  }

  /** So a builder that starts from any list behaves as one that starts from the map of that list. */
  lemma RunFromList(envs: seq<string>, script: seq<seq<string>>, n: string)
    ensures Lookup(Run(envs, script).0, n) == At(RunIn(AsMap(envs), script).0, n)
    ensures Run(envs, script).1 == RunIn(AsMap(envs), script).1
  {
    AsMapAgrees(envs);
    RunAgrees(envs, AsMap(envs), script);
  }

  // ---------- what an instruction means ----------

  /** The first word that cannot be expanded. */
  predicate FirstBad(words: seq<string>, envs: seq<string>, i: nat) {
    && i < |words| && Process(words[i], envs).Failure?
    && forall j :: 0 <= j < i ==> Process(words[j], envs).Success?
  }

  ghost predicate ExpandsTo(words: seq<string>, envs: seq<string>, x: Expanded) {
    if x.Words? then |x.args| == |words| && forall i :: 0 <= i < |words| ==> Process(words[i], envs) == Success(x.args[i])
    else exists i: nat :: FirstBad(words, envs, i) && Process(words[i], envs) == Failure(x.error)
  }

  lemma ExpandsStep(words: seq<string>, envs: seq<string>, x: Expanded)
    requires words != [] && ExpandsTo(words[..|words| - 1], envs, x)
    ensures ExpandsTo(words, envs, AddWord(x, Process(words[|words| - 1], envs)))
  {
    var init, last := words[..|words| - 1], words[|words| - 1];
    if x.Bad? {
      var i: nat :| FirstBad(init, envs, i) && Process(init[i], envs) == Failure(x.error);
      assert words[i] == init[i] && FirstBad(words, envs, i);
    } else if Process(last, envs).Failure? {
      assert FirstBad(words, envs, |words| - 1);
    }
  }

  lemma {:induction false} ExpandAllEach(words: seq<string>, envs: seq<string>)
    ensures ExpandsTo(words, envs, ExpandAll(words, envs))
  {
    if words != [] {
      ExpandAllEach(words[..|words| - 1], envs);
      ExpandsStep(words, envs, ExpandAll(words[..|words| - 1], envs));
    }
  }

  /** At `i` is the name of a pair, and it is `n`. */
  predicate NameAt(args: seq<string>, i: nat, n: string) {
    i % 2 == 0 && i + 1 < |args| && args[i] == n
  }

  /** A bound name that no pair gives a value to keeps its value. */
  lemma {:induction false} SetEntriesKeeps(envs: seq<string>, args: seq<string>, j: nat, n: string)
    requires j % 2 == 0 && HasKey(envs, n) && forall i: nat :: i >= j ==> !NameAt(args, i, n)
    ensures Lookup(SetEntries(envs, args, j), n) == Lookup(envs, n)
    decreases |args| - j
  {
    if j + 1 < |args| {
      assert !NameAt(args, j, n);
      SetEntryLookup(envs, args[j], args[j + 1], n);
      SetEntriesKeeps(SetEntry(envs, args[j], args[j + 1]), args, j + 2, n);
    }
  }

  lemma LastPairSet(envs: seq<string>, args: seq<string>, i: nat, n: string)
    requires '=' !in n && NameAt(args, i, n) && forall q: nat :: q > i ==> !NameAt(args, q, n)
    ensures Lookup(SetEntries(envs, args, i), n) == args[i + 1]
  {
    SetEntryLookup(envs, n, args[i + 1], n);
    BareEntry(n);
    SetEntriesKeeps(SetEntry(envs, n, args[i + 1]), args, i + 2, n);
  }

  /** Of several pairs that give a value to a name the last one counts. */
  lemma {:induction false} LastPairCounts(envs: seq<string>, args: seq<string>, j: nat, n: string, i: nat)
    requires j % 2 == 0 && '=' !in n && j <= i && NameAt(args, i, n) && forall q: nat :: q > i ==> !NameAt(args, q, n)
    ensures Lookup(SetEntries(envs, args, j), n) == args[i + 1]
    decreases |args| - j
  {
    var envs' := SetEntry(envs, args[j], args[j + 1]);
    if i > j {
      assert i >= j + 2;
      LastPairCounts(envs', args, j + 2, n, i);
    } else {
      LastPairSet(envs, args, i, n);
    }
  }

  /** A name that is not what comes before the first '=' of any pair's name means what it meant. */
  lemma {:induction false} OtherNamesStay(envs: seq<string>, args: seq<string>, j: nat, n: string)
    requires j % 2 == 0 && forall i: nat, k :: i >= j && NameAt(args, i, k) ==> Key(k) != n
    ensures Lookup(SetEntries(envs, args, j), n) == Lookup(envs, n)
    decreases |args| - j
  {
    if j + 1 < |args| {
      assert NameAt(args, j, args[j]);
      if '=' !in args[j] {
        BareEntry(args[j]);
      }
      SetEntryLookup(envs, args[j], args[j + 1], n);
      OtherNamesStay(SetEntry(envs, args[j], args[j + 1]), args, j + 2, n);
    }
  }

  /** At `i` is the name of a pair, and it expands to `n`. */
  predicate Sets(words: seq<string>, envs: seq<string>, i: nat, n: string) {
    i % 2 == 0 && i + 1 < |words| && Process(words[i], envs) == Success(n)
  }

  /** The pair at `i` is the last one whose name expands to `n`. */
  ghost predicate LastSet(words: seq<string>, envs: seq<string>, i: nat, n: string) {
    Sets(words, envs, i, n) && forall q: nat :: q > i ==> !Sets(words, envs, q, n)
  }

  /** How an instruction ends: the words are expanded in order, and the first bad one ends it before the count is looked at. */
  ghost predicate EndsRight(envs: seq<string>, words: seq<string>, envs': seq<string>, r: Outcome) {
    && (r.BadWord? <==> exists i: nat :: FirstBad(words, envs, i))
    && (forall i: nat :: FirstBad(words, envs, i) ==> r == BadWord(Process(words[i], envs).error))
    && (!r.BadWord? ==> (r.NoArguments? <==> words == []) && (r.OddArguments? <==> |words| % 2 != 0))
    && (!r.Done? ==> envs' == envs)
  }

  /** What it sets: each name gets the value of its last pair, expanded as before the instruction, and nothing else changes. */
  ghost predicate SetsRight(envs: seq<string>, words: seq<string>, envs': seq<string>) {
    && (forall i: nat, n :: LastSet(words, envs, i, n) && '=' !in n ==>
          Process(words[i + 1], envs) == Success(Lookup(envs', n)))
    && (forall n :: (forall i: nat, k :: Sets(words, envs, i, k) ==> Key(k) != n) ==> Lookup(envs', n) == Lookup(envs, n))
  }

  lemma InstructionEnds(envs: seq<string>, words: seq<string>)
    ensures EndsRight(envs, words, Instruction(envs, words).0, Instruction(envs, words).1)
  {
    ExpandAllEach(words, envs);
  }

  lemma InstructionSets(envs: seq<string>, words: seq<string>)
    requires Instruction(envs, words).1.Done?
    ensures SetsRight(envs, words, Instruction(envs, words).0)
  {
    ExpandAllEach(words, envs);
    PairsSet(envs, words, ExpandAll(words, envs).args);
  }

  lemma PairsSet(envs: seq<string>, words: seq<string>, args: seq<string>)
    requires ExpandsTo(words, envs, Words(args))
    ensures SetsRight(envs, words, SetEntries(envs, args, 0))
  {
    forall i: nat, k ensures NameAt(args, i, k) <==> Sets(words, envs, i, k) {
    }
    forall i: nat, n | LastSet(words, envs, i, n) && '=' !in n
      ensures Process(words[i + 1], envs) == Success(Lookup(SetEntries(envs, args, 0), n))
    {
      LastPairCounts(envs, args, 0, n, i);
    }
    forall n | forall i: nat, k :: Sets(words, envs, i, k) ==> Key(k) != n
      ensures Lookup(SetEntries(envs, args, 0), n) == Lookup(envs, n)
    {
      OtherNamesStay(envs, args, 0, n);
    }
  }

  /**
    One assignment is a plain map update on every lookup exactly when the name is free of '=',
    or is hidden by an existing entry while the value is empty.
   */
  lemma PlainUpdateIff(envs: seq<string>, k: string, v: string)
    ensures (forall n :: Lookup(SetEntry(envs, k, v), n) == if n == k then v else Lookup(envs, n))
        <==> '=' !in k || (v == "" && HasKey(envs, Key(k)))
  {
    forall n ensures '=' !in k ==> Lookup(SetEntry(envs, k, v), n) == if n == k then v else Lookup(envs, n) {
      SetEntryLookup(envs, k, v, n);
    }
    if '=' in k {
      SetEntryLookup(envs, k, v, k);
      SetEntryLookup(envs, k, v, Key(k));
      KeyHasNoEquals(k);
      forall i | 0 <= i < |envs| ensures Key(envs[i]) != k { KeyHasNoEquals(envs[i]); }
      LookupAbsent(envs, k);
      if !HasKey(envs, Key(k)) {
        LookupAbsent(envs, Key(k));
        assert Lookup(SetEntry(envs, k, v), Key(k)) != "";
      } else if v == "" {
        forall n ensures Lookup(SetEntry(envs, k, v), n) == if n == k then v else Lookup(envs, n) {
          SetEntryLookup(envs, k, v, n);
        }
      }
    }
  }

  /** Setting the name `A=B` to `c` leaves that name without a value and sets `A` instead. */
  lemma PlainUpdateExample()
    ensures SetEntry([], "A=B", "c") == ["A=B=c"]
    ensures Lookup(["A=B=c"], "A=B") == "" && Lookup(["A=B=c"], "A") == "B=c"
  {
    var e := "A=B=c";
    assert "A=B" + "=" + "c" == e;
    EntryRoundTrip("A", "B=c");
    assert "A" + "=" + "B=c" == e;
    HasKeyCons(e, [], "A=B");
    HasKeyCons(e, [], "A");
    assert [e] + [] == [e];
  }
}

module BuilderEnv {
  import opened EnvEntry
  import opened ShellWord
  import opened EnvSpec

  class Builder {
    var env: seq<string>

    constructor (env: seq<string>)
      ensures this.env == env
    {
      this.env := env;
    }

    /** The inner loop of `env`: one `name value` pair. */
    method SetVariable(name: string, value: string)
      modifies this
      ensures env == SetEntry(old(env), name, value)
    {
      var newVar := name + "=" + value;
      for i := 0 to |env|
        invariant env == old(env)
        invariant forall j :: 0 <= j < i ==> Key(env[j]) != name
      {
        if Key(env[i]) == name {
          SetEntryAt(env, name, value, i);
          env := env[i := newVar];
          return;
        }
      }
      SetEntryAt(env, name, value, |env|);
      env := env + [newVar];
    }

    /** `env`: the handler of the instruction, up to the commit. */
    method Env(args: seq<string>) returns (r: Outcome)
      modifies this
      ensures args == [] ==> r == NoArguments && env == old(env)
      ensures |args| % 2 != 0 ==> r == OddArguments && env == old(env)
      ensures args != [] && |args| % 2 == 0 ==> r == Done && env == SetEntries(old(env), args, 0)
    {
      if |args| == 0 {
        return NoArguments;
      }
      if |args| % 2 != 0 {
        return OddArguments;
      }
      var j := 0;
      ghost var goal, pairs, k := SetEntries(env, args, 0), |args| / 2, 0;
      assert |args| == 2 * pairs;
      while j < |args|
        invariant j == 2 * k && 0 <= k <= pairs
        invariant SetEntries(env, args, j) == goal
      {
        ghost var before := env;
        SetVariable(args[j], args[j + 1]);
        SetEntriesStep(before, args, j, env);
        j, k := j + 2, k + 1;
      }
      r := Done;
    }

    /** The loop of `dispatch` that expands the words. */
    method Expand(words: seq<string>) returns (x: Expanded)
      ensures x == ExpandAll(words, env)
    {
      var strList := new string[|words|](i => "");
      var i := 0;
      while i < |words|
        invariant 0 <= i <= |words|
        invariant ExpandAll(words[..i], env) == Words(strList[..i])
      {
        assert words[..i + 1][..i] == words[..i];
        var str := ProcessWord(words[i], env);
        if str.Failure? {
          BadPrefix(words, i + 1, env);
          return Bad(str.error);
        }
        strList[i] := str.text;
        i := i + 1;
      }
      assert words[..i] == words && strList[..i] == strList[..];
      x := Words(strList[..]);
    }

    /** `dispatch` of an ENV line: every word is expanded before the handler runs. */
    method Dispatch(words: seq<string>) returns (r: Outcome)
      modifies this
      ensures (env, r) == Instruction(old(env), words)
      ensures EndsRight(old(env), words, env, r)
      ensures r.Done? ==> SetsRight(old(env), words, env)
    {
      var x := Expand(words);
      if x.Bad? {
        r := BadWord(x.error);
      } else {
        r := Env(x.args);
      }
      InstructionEnds(old(env), words);
      if r.Done? {
        InstructionSets(old(env), words);
      }
    }
  }

  lemma {:induction false} SetEntryAt(envs: seq<string>, k: string, v: string, i: nat)
    requires i <= |envs| && (forall j :: 0 <= j < i ==> Key(envs[j]) != k) && (i < |envs| ==> Key(envs[i]) == k)
    ensures SetEntry(envs, k, v) == if i < |envs| then envs[i := k + "=" + v] else envs + [k + "=" + v]
    decreases i
  {
    if i > 0 {
      SetEntryAt(envs[1..], k, v, i - 1);
      assert envs == [envs[0]] + envs[1..];
    } else if envs != [] {
      assert envs[0 := k + "=" + v] == [k + "=" + v] + envs[1..];
    }
  }

  lemma SetEntriesStep(envs: seq<string>, args: seq<string>, j: nat, envs': seq<string>)
    requires j + 1 < |args| && envs' == SetEntry(envs, args[j], args[j + 1])
    ensures SetEntries(envs, args, j) == SetEntries(envs', args, j + 2)
  {
  }

  /** The first bad word decides. */
  lemma BadPrefix(words: seq<string>, n: nat, envs: seq<string>)
    requires n <= |words| && ExpandAll(words[..n], envs).Bad?
    ensures ExpandAll(words, envs) == ExpandAll(words[..n], envs)
    decreases |words| - n
  {
    if n == |words| {
      assert words[..n] == words;
    } else {
      assert words[..n + 1][..n] == words[..n];
      BadPrefix(words, n + 1, envs);
    }
  }
}
