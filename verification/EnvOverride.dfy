/**
  `ReplaceOrAppendEnvValues` (`utils/utils.go`): override an environment list in place. An
  override `k=v` replaces the entry of `k` or is appended, a bare `k` blanks the entry, and a
  final pass cuts the blank entries out.
 */
module EnvOverrideSpec {
  import opened EnvEntry

  /** Position `i` is the last one with its key. */
  predicate IsLast(d: seq<string>, i: nat)
    requires i < |d|
  {
    forall j :: i < j < |d| ==> Key(d[j]) != Key(d[i])
  }

  /** What the overrides make of an entry `e` with key `k`: the last one that concerns it decides. */
  function Verdict(o: seq<string>, k: string, e: string): string {
    if o == [] then e
    else
      var last := o[|o| - 1];
      if Key(last) == k then (if '=' in last then last else "") else Verdict(o[..|o| - 1], k, e)
  }

  function Rewritten(d: seq<string>, o: seq<string>): (r: seq<string>)
    ensures |r| == |d|
    ensures forall i :: 0 <= i < |d| ==> r[i] == Cell(d, o, i)
  {
    seq(|d|, i requires 0 <= i < |d| => Cell(d, o, i))
  }

  function Cell(d: seq<string>, o: seq<string>, i: nat): string
    requires i < |d|
  {
    if IsLast(d, i) then Verdict(o, Key(d[i]), d[i]) else d[i]
  }

  /** The `k=v` overrides of keys that the list does not have, in order. */
  function Appended(d: seq<string>, o: seq<string>): seq<string> {
    if o == [] then []
    else
      var last := o[|o| - 1];
      Appended(d, o[..|o| - 1]) + if '=' in last && !HasKey(d, Key(last)) then [last] else []
  }

  function NonBlank(s: seq<string>): seq<string> {
    if s == [] then [] else (if s[0] == "" then [] else [s[0]]) + NonBlank(s[1..])
  }

  /** The list with the overrides applied. */
  function Overridden(d: seq<string>, o: seq<string>): seq<string> {
    NonBlank(Rewritten(d, o) + Appended(d, o))
  }

  // ---------- what a name means afterwards ----------

  lemma {:induction false} NonBlankLookup(s: seq<string>, n: string)
    requires n != ""
    ensures Lookup(NonBlank(s), n) == Lookup(s, n)
  {
    if s != [] {
      NonBlankLookup(s[1..], n);
      if s[0] == "" {
        assert NonBlank(s) == NonBlank(s[1..]);
      } else {
        assert NonBlank(s)[1..] == NonBlank(s[1..]);
      }
    }
  }

  lemma {:induction false} VerdictKey(o: seq<string>, k: string, e: string)
    requires Key(e) == k
    ensures Verdict(o, k, e) == "" || Key(Verdict(o, k, e)) == k
  {
    if o != [] {
      VerdictKey(o[..|o| - 1], k, e);
    }
  }

  lemma {:induction false} AppendedKeys(d: seq<string>, o: seq<string>, n: string)
    requires HasKey(d, n)
    ensures !HasKey(Appended(d, o), n)
  {
    if o != [] {
      var init := Appended(d, o[..|o| - 1]);
      AppendedKeys(d, o[..|o| - 1], n);
      forall k | 0 <= k < |Appended(d, o)| ensures Key(Appended(d, o)[k]) != n {
        if k < |init| {
          assert Appended(d, o)[k] == init[k];
        }
      }
    }
  }

  /** The first position with a key. */
  function FirstAt(d: seq<string>, n: string): (i: nat)
    requires HasKey(d, n)
    ensures i < |d| && Key(d[i]) == n && forall j :: 0 <= j < i ==> Key(d[j]) != n
  {
    if Key(d[0]) == n then 0
    else
      assert HasKey(d[1..], n) by {
        var k :| 0 <= k < |d| && Key(d[k]) == n;
        assert d[1..][k - 1] == d[k];
      }
      1 + FirstAt(d[1..], n)
  }

  /**
    A name that the defaults have gets its last override, the value given or none for a bare name,
    if the defaults have it once; of a repeated name the first entry is left alone and hides the rest.
   */
  lemma KnownNameLookup(d: seq<string>, o: seq<string>, n: string)
    requires n != "" && HasKey(d, n)
    ensures var i := FirstAt(d, n);
            Lookup(Overridden(d, o), n) == if IsLast(d, i) then Value(Verdict(o, n, d[i])) else Value(d[i])
  {
    var i := FirstAt(d, n);
    var r, a := Rewritten(d, o), Appended(d, o);
    VerdictKey(o, n, d[i]);
    forall j | 0 <= j < |r| && (j < i || (j > i && IsLast(d, i))) ensures Key(r[j]) != n {
      VerdictKey(o, Key(d[j]), d[j]);
    }
    NonBlankLookup(r + a, n);
    LookupConcat(r, a, n);
    AppendedKeys(d, o, n);
    if r[i] == "" {
      assert IsLast(d, i) && !HasKey(r, n);
      LookupAbsent(a, n);
    } else {
      assert HasKey(r, n);
      LookupAt(r, n, i);
    }
  }

  /** The value of the first `k=v` override of a name. */
  function FirstValue(o: seq<string>, n: string): string {
    if o == [] then "" else if '=' in o[0] && Key(o[0]) == n then Value(o[0]) else FirstValue(o[1..], n)
  }

  /** Some `k=v` override has this key. */
  predicate Assigned(o: seq<string>, n: string) {
    exists k :: 0 <= k < |o| && '=' in o[k] && Key(o[k]) == n
  }

  lemma AssignedSnoc(o: seq<string>, e: string, n: string)
    ensures Assigned(o + [e], n) <==> Assigned(o, n) || ('=' in e && Key(e) == n)
  {
    var s := o + [e];
    assert s[|o|] == e && forall k :: 0 <= k < |o| ==> s[k] == o[k];
    if k :| 0 <= k < |o| && '=' in o[k] && Key(o[k]) == n {
      assert s[k] == o[k];
    }
  }

  lemma OneLookup(e: string, n: string)
    ensures Lookup([e], n) == if Key(e) == n then Value(e) else ""
    ensures HasKey([e], n) <==> Key(e) == n
  {
  }

  lemma {:induction false} AppendedLookup(d: seq<string>, o: seq<string>, n: string)
    requires !HasKey(d, n)
    ensures Lookup(Appended(d, o), n) == FirstValue(o, n)
    ensures HasKey(Appended(d, o), n) <==> Assigned(o, n)
  {
    if o != [] {
      var o', last := o[..|o| - 1], o[|o| - 1];
      var init := Appended(d, o');
      assert o == o' + [last];
      AppendedLookup(d, o', n);
      FirstValueSnoc(o', last, n);
      AssignedSnoc(o', last, n);
      if !HasKey(init, n) {
        LookupAbsent(init, n);
      }
      if '=' in last && !HasKey(d, Key(last)) {
        LookupConcat(init, [last], n);
        OneLookup(last, n);
        HasKeyAppend(init, last, n);
      } else {
        assert Appended(d, o) == init;
      }
    }
  }

  lemma {:induction false} FirstValueSnoc(o: seq<string>, e: string, n: string)
    ensures FirstValue(o + [e], n) ==
            if Assigned(o, n) then FirstValue(o, n) else if '=' in e && Key(e) == n then Value(e) else ""
  {
    if o == [] {
      assert (o + [e])[1..] == [];
    } else {
      assert (o + [e])[1..] == o[1..] + [e];
      FirstValueSnoc(o[1..], e, n);
      AssignedCons(o, n);
    }
  }

  lemma AssignedCons(o: seq<string>, n: string)
    requires o != []
    ensures Assigned(o, n) <==> ('=' in o[0] && Key(o[0]) == n) || Assigned(o[1..], n)
  {
  }

  /** A name that the defaults do not have keeps its first override: later ones are appended behind it. */
  lemma NewNameLookup(d: seq<string>, o: seq<string>, n: string)
    requires n != "" && !HasKey(d, n)
    ensures Lookup(Overridden(d, o), n) == FirstValue(o, n)
  {
    var r, a := Rewritten(d, o), Appended(d, o);
    forall j | 0 <= j < |r| ensures Key(r[j]) != n {
      assert Key(d[j]) != n;
      VerdictKey(o, Key(d[j]), d[j]);
    }
    NonBlankLookup(r + a, n);
    LookupConcat(r, a, n);
    AppendedLookup(d, o, n);
  }

  // ---------- which entries there are afterwards ----------

  lemma {:induction false} NonBlankKeys(s: seq<string>, n: string)
    requires n != ""
    ensures HasKey(NonBlank(s), n) <==> HasKey(s, n)
  {
    if s != [] {
      NonBlankKeys(s[1..], n);
      HasKeyFirst(s, n);
      if s[0] == "" {
        assert NonBlank(s) == NonBlank(s[1..]);
      } else {
        HasKeyFirst(NonBlank(s), n);
        assert NonBlank(s)[1..] == NonBlank(s[1..]);
      }
    }
  }

  lemma HasKeyFirst(s: seq<string>, n: string)
    requires s != []
    ensures HasKey(s, n) <==> Key(s[0]) == n || HasKey(s[1..], n)
  {
  }

  lemma HasKeyConcat(a: seq<string>, b: seq<string>, n: string)
    ensures HasKey(a + b, n) <==> HasKey(a, n) || HasKey(b, n)
  {
    var s := a + b;
    if i :| 0 <= i < |a| && Key(a[i]) == n {
      assert s[i] == a[i];
    }
    if i :| 0 <= i < |b| && Key(b[i]) == n {
      assert s[|a| + i] == b[i];
    }
  }

  lemma {:induction false} NonBlankCount(s: seq<string>, e: string)
    ensures multiset(NonBlank(s))[e] == if e == "" then 0 else multiset(s)[e]
  {
    if s != [] {
      NonBlankCount(s[1..], e);
      assert s == [s[0]] + s[1..];
    }
  }

  /** The override at `j` is the last one that concerns the name `n`. */
  predicate LastFor(o: seq<string>, n: string, j: nat) {
    j < |o| && Key(o[j]) == n && forall q :: j < q < |o| ==> Key(o[q]) != n
  }

  predicate Concerned(o: seq<string>, n: string) {
    exists j :: 0 <= j < |o| && Key(o[j]) == n
  }

  lemma {:induction false} VerdictIs(o: seq<string>, k: string, e: string)
    ensures forall j: nat :: LastFor(o, k, j) ==> Verdict(o, k, e) == if '=' in o[j] then o[j] else ""
    ensures !Concerned(o, k) ==> Verdict(o, k, e) == e
    ensures Verdict(o, k, e) == e || Verdict(o, k, e) == "" || Verdict(o, k, e) in o
  {
    if o != [] {
      var init := o[..|o| - 1];
      VerdictIs(init, k, e);
      forall j: nat | LastFor(o, k, j) ensures Verdict(o, k, e) == if '=' in o[j] then o[j] else "" {
        assert j < |init| ==> LastFor(init, k, j);
      }
      if j :| 0 <= j < |init| && Key(init[j]) == k {
        assert Key(o[j]) == k;
      }
    }
  }

  /** A name that the defaults have once: its last override replaces the entry, or removes it if it is bare. */
  lemma LastOverride(d: seq<string>, o: seq<string>, n: string, j: nat)
    requires n != "" && HasKey(d, n) && IsLast(d, FirstAt(d, n)) && LastFor(o, n, j)
    ensures '=' in o[j] ==> HasKey(Overridden(d, o), n) && Lookup(Overridden(d, o), n) == Value(o[j])
    ensures '=' !in o[j] ==> !HasKey(Overridden(d, o), n)
  {
    var i := FirstAt(d, n);
    var r, a := Rewritten(d, o), Appended(d, o);
    KnownNameLookup(d, o, n);
    VerdictIs(o, n, d[i]);
    AppendedKeys(d, o, n);
    NonBlankKeys(r + a, n);
    HasKeyConcat(r, a, n);
    if '=' in o[j] {
      assert Key(r[i]) == n;
    } else {
      forall q | 0 <= q < |r| ensures Key(r[q]) != n {
        VerdictKey(o, Key(d[q]), d[q]);
      }
    }
  }

  /** A name that the defaults do not have is there afterwards exactly when it has been given a value. */
  lemma NewNameThere(d: seq<string>, o: seq<string>, n: string)
    requires n != "" && !HasKey(d, n)
    ensures HasKey(Overridden(d, o), n) <==> Assigned(o, n)
  {
    var r, a := Rewritten(d, o), Appended(d, o);
    forall q | 0 <= q < |r| ensures Key(r[q]) != n {
      VerdictKey(o, Key(d[q]), d[q]);
    }
    NonBlankKeys(r + a, n);
    HasKeyConcat(r, a, n);
    AppendedLookup(d, o, n);
  }

  lemma {:induction false} SameCount(a: seq<string>, b: seq<string>, e: string)
    requires |a| == |b| && forall i :: 0 <= i < |a| ==> (a[i] == e <==> b[i] == e)
    ensures multiset(a)[e] == multiset(b)[e]
  {
    if a != [] {
      SameCount(a[1..], b[1..], e);
      assert a == [a[0]] + a[1..] && b == [b[0]] + b[1..];
    }
  }

  lemma {:induction false} AppendedFrom(d: seq<string>, o: seq<string>, e: string)
    requires e in Appended(d, o)
    ensures e in o
  {
    if o != [] && e in Appended(d, o[..|o| - 1]) {
      AppendedFrom(d, o[..|o| - 1], e);
    }
  }

  /** An entry that no override concerns stays as often as it is there, and only a blank one goes. */
  lemma UntouchedKept(d: seq<string>, o: seq<string>, e: string)
    requires !Concerned(o, Key(e))
    ensures multiset(Overridden(d, o))[e] == if e == "" then 0 else multiset(d)[e]
  {
    var r, a := Rewritten(d, o), Appended(d, o);
    NonBlankCount(r + a, e);
    if e in a {
      AppendedFrom(d, o, e);
    }
    if e != "" {
      forall i | 0 <= i < |d| ensures r[i] == e <==> d[i] == e {
        VerdictKey(o, Key(d[i]), d[i]);
        VerdictIs(o, Key(d[i]), d[i]);
      }
      SameCount(r, d, e);
    }
  }

  /** Nothing is made up, and nothing blank is left. */
  lemma NothingInvented(d: seq<string>, o: seq<string>, e: string)
    requires e in Overridden(d, o)
    ensures e != "" && (e in d || e in o)
  {
    var r, a := Rewritten(d, o), Appended(d, o);
    NonBlankCount(r + a, e);
    assert e in multiset(Overridden(d, o));
    assert e in multiset(r + a);
    if e in a {
      AppendedFrom(d, o, e);
    } else {
      var i :| 0 <= i < |r| && r[i] == e;
      VerdictIs(o, Key(d[i]), d[i]);
    }
  }

  // ---------- the law ----------

  /** The last override of a name decides, and without one the default stays. */
  ghost predicate LastDecides(d: seq<string>, o: seq<string>, n: string) {
    Lookup(Overridden(d, o), n) == Value(Verdict(o, n, n + "=" + Lookup(d, n)))
  }

  lemma {:induction false} VerdictValue(o: seq<string>, k: string, e: string, e': string)
    requires Value(e) == Value(e')
    ensures Value(Verdict(o, k, e)) == Value(Verdict(o, k, e'))
  {
    if o != [] {
      VerdictValue(o[..|o| - 1], k, e, e');
    }
  }

  /**
    For a new name the law holds exactly when the first value given is also what the last override
    says; for a known one exactly when the defaults have it once, or its first entry happens to
    have the value that the last override says.
   */
  lemma LastDecidesIff(d: seq<string>, o: seq<string>, n: string)
    requires n != "" && '=' !in n
    ensures !HasKey(d, n) ==> (LastDecides(d, o, n) <==> FirstValue(o, n) == Value(Verdict(o, n, n + "=")))
    ensures HasKey(d, n) ==>
              var i := FirstAt(d, n);
              LastDecides(d, o, n) <==> IsLast(d, i) || Value(d[i]) == Value(Verdict(o, n, d[i]))
  {
    if HasKey(d, n) {
      var i := FirstAt(d, n);
      KnownNameLookup(d, o, n);
      LookupAt(d, n, i);
      EntryRoundTrip(n, Lookup(d, n));
      VerdictValue(o, n, d[i], n + "=" + Lookup(d, n));
    } else {
      NewNameLookup(d, o, n);
      LookupAbsent(d, n);
      assert n + "=" + "" == n + "=";
    }
  }

  lemma Entries()
    ensures Key("A=0") == Key("A=1") == Key("A=2") == Key("A=3") == Key("A") == "A"
    ensures Value("A=0") == "0" && Value("A=1") == "1" && Value("A=2") == "2" && Value("A=3") == "3"
  {
    EntryRoundTrip("A", "0");
    EntryRoundTrip("A", "1");
    EntryRoundTrip("A", "2");
    EntryRoundTrip("A", "3");
    assert "A" + "=" + "0" == "A=0" && "A" + "=" + "1" == "A=1" && "A" + "=" + "2" == "A=2" && "A" + "=" + "3" == "A=3";
  }

  /** Two overrides of one name: the first value wins for a new name, the last one for a known name. */
  lemma NewNameExample()
    ensures Lookup(Overridden([], ["A=1", "A=2"]), "A") == "1" && !LastDecides([], ["A=1", "A=2"], "A")
    ensures Lookup(Overridden(["A=0"], ["A=1", "A=2"]), "A") == "2"
  {
    Entries();
    var o := ["A=1", "A=2"];
    NewNameLookup([], o, "A");
    assert FirstValue(o, "A") == "1";
    assert Verdict(o, "A", "A=") == "A=2";
    LastDecidesIff([], o, "A");
    assert "A" + "=" == "A=";
    var d := ["A=0"];
    assert Key(d[0]) == "A";
    KnownNameLookup(d, o, "A");
    assert Verdict(o, "A", "A=0") == "A=2";
  }

  /** A bare name does not take back a new name. */
  lemma UnsetNewNameExample()
    ensures Lookup(Overridden([], ["A=1", "A"]), "A") == "1" && !LastDecides([], ["A=1", "A"], "A")
  {
    Entries();
    var o := ["A=1", "A"];
    NewNameLookup([], o, "A");
    assert FirstValue(o, "A") == "1";
    assert Verdict(o, "A", "A=") == "";
    LastDecidesIff([], o, "A");
    assert "A" + "=" == "A=";
  }

  /** A default given twice: the override replaces the second entry, and the first one still hides it. */
  lemma RepeatedDefaultExample()
    ensures Lookup(Overridden(["A=1", "A=2"], ["A=3"]), "A") == "1" && !LastDecides(["A=1", "A=2"], ["A=3"], "A")
  {
    Entries();
    var d, o := ["A=1", "A=2"], ["A=3"];
    assert Key(d[0]) == "A" && Key(d[1]) == "A";
    assert FirstAt(d, "A") == 0 && !IsLast(d, 0);
    KnownNameLookup(d, o, "A");
    assert Verdict(o, "A", "A=1") == "A=3";
    LastDecidesIff(d, o, "A");
  }
}

module EnvOverride {
  import opened EnvEntry
  import opened EnvOverrideSpec

  /** The first loop: the last position of every key. */
  method BuildCache(d: seq<string>) returns (cache: map<string, int>)
    ensures forall k :: k in cache <==> HasKey(d, k)
    ensures forall k :: k in cache ==> 0 <= cache[k] < |d| && Key(d[cache[k]]) == k && IsLast(d, cache[k])
  {
    cache := map[];
    for i := 0 to |d|
      invariant forall k :: k in cache ==> 0 <= cache[k] < i && Key(d[cache[k]]) == k
      invariant forall j :: 0 <= j < i ==> Key(d[j]) in cache && j <= cache[Key(d[j])]
    {
      cache := cache[Key(d[i]) := i];
    }
  }

  /** The second loop: replace, blank or append. */
  method ApplyOverrides(d: seq<string>, overrides: seq<string>) returns (r: seq<string>)
    ensures r == Rewritten(d, overrides) + Appended(d, overrides)
  {
    var cache := BuildCache(d);
    r := d;
    assert Rewritten(d, []) == d;
    for j := 0 to |overrides|
      invariant r == Rewritten(d, overrides[..j]) + Appended(d, overrides[..j])
    {
      ghost var o, o' := overrides[..j], overrides[..j + 1];
      assert o'[..j] == o;
      var value := overrides[j];
      var k := Key(value);
      assert o'[|o'| - 1] == value;
      if k in cache {
        var x := if '=' in value then value else "";
        RewriteOne(d, o', cache[k]);
        UpdateLeft(Rewritten(d, o), Appended(d, o), cache[k], x);
        r := r[cache[k] := x];
      } else {
        RewriteNone(d, o');
        if '=' in value {
          AppendRight(Rewritten(d, o), Appended(d, o), value);
          r := r + [value];
        }
      }
    }
    assert overrides[..|overrides|] == overrides;
  }

  lemma LastIsUnique(d: seq<string>, i: nat, j: nat)
    requires i < |d| && j < |d| && i != j && IsLast(d, i) && IsLast(d, j)
    ensures Key(d[i]) != Key(d[j])
  {
  }

  lemma RewriteOne(d: seq<string>, o: seq<string>, i: nat)
    requires o != [] && i < |d| && IsLast(d, i) && Key(o[|o| - 1]) == Key(d[i])
    ensures Rewritten(d, o) == Rewritten(d, o[..|o| - 1])[i := if '=' in o[|o| - 1] then o[|o| - 1] else ""]
    ensures Appended(d, o) == Appended(d, o[..|o| - 1])
  {
    var o', x := o[..|o| - 1], if '=' in o[|o| - 1] then o[|o| - 1] else "";
    assert HasKey(d, Key(o[|o| - 1]));
    forall j | 0 <= j < |d| ensures Cell(d, o, j) == if j == i then x else Cell(d, o', j) {
      if j != i && IsLast(d, j) {
        LastIsUnique(d, i, j);
      }
    }
  }

  lemma RewriteNone(d: seq<string>, o: seq<string>)
    requires o != [] && !HasKey(d, Key(o[|o| - 1]))
    ensures Rewritten(d, o) == Rewritten(d, o[..|o| - 1])
    ensures Appended(d, o) == Appended(d, o[..|o| - 1]) + if '=' in o[|o| - 1] then [o[|o| - 1]] else []
  {
  }

  lemma AppendRight(a: seq<string>, b: seq<string>, x: string)
    ensures a + b + [x] == a + (b + [x])
  {
  }

  lemma UpdateLeft(a: seq<string>, b: seq<string>, i: nat, x: string)
    requires i < |a|
    ensures (a + b)[i := x] == a[i := x] + b
  {
  }

  /** The last loop: cut out the blank entries, stepping back after each cut. */
  method CutBlanks(s: seq<string>) returns (r: seq<string>)
    ensures r == NonBlank(s)
  {
    r := s;
    var i := 0;
    assert r[..0] == [] && r[0..] == r;
    while i < |r|
      invariant 0 <= i <= |r|
      invariant NonBlank(s) == r[..i] + NonBlank(r[i..])
      decreases |r| - i
    {
      CutStep(r, i);
      if r[i] == "" {
        r := r[..i] + r[i + 1..];
      } else {
        i := i + 1;
      }
    }
    assert r[i..] == [] && r[..i] == r;
  }

  lemma CutStep(r: seq<string>, i: nat)
    requires i < |r|
    ensures r[i] == "" ==>
              var r' := r[..i] + r[i + 1..]; r'[..i] + NonBlank(r'[i..]) == r[..i] + NonBlank(r[i..])
    ensures r[i] != "" ==> r[..i + 1] + NonBlank(r[i + 1..]) == r[..i] + NonBlank(r[i..])
  {
  }

  /** `ReplaceOrAppendEnvValues`. */
  method ReplaceOrAppendEnvValues(defaults: seq<string>, overrides: seq<string>) returns (r: seq<string>)
    ensures r == Overridden(defaults, overrides)
    ensures forall e :: e in r ==> e != "" && (e in defaults || e in overrides)
    ensures forall e :: e in defaults && e != "" && !Concerned(overrides, Key(e)) ==> multiset(r)[e] == multiset(defaults)[e]
  {
    var s := ApplyOverrides(defaults, overrides);
    r := CutBlanks(s);
    forall e | e in r ensures e != "" && (e in defaults || e in overrides) {
      NothingInvented(defaults, overrides, e);
    }
    forall e | e in defaults && e != "" && !Concerned(overrides, Key(e)) ensures multiset(r)[e] == multiset(defaults)[e] {
      UntouchedKept(defaults, overrides, e);
    }
  }
}
