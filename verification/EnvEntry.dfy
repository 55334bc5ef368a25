/**
  Environment entries. Docker keeps an environment as a list of strings `name=value`; an entry
  without '=' names a variable whose value is empty. The builder, `runconfig` and `utils` all
  split an entry at its first '='.
 */
module EnvEntry {

  /** `strings.Index` for a single character. */
  function IndexOf(s: string, c: char): (i: int)
    ensures -1 <= i < |s|
    ensures i == -1 <==> c !in s
    ensures i >= 0 ==> s[i] == c && c !in s[..i]
  {
    if s == "" then -1
    else if s[0] == c then 0
    else
      var k := IndexOf(s[1..], c);
      if k < 0 then -1 else k + 1
  }

  /** The part before the first '=', or the whole entry. */
  function Key(e: string): string {
    var i := IndexOf(e, '=');
    if i < 0 then e else e[..i]
  }

  /** The part after the first '=', or the empty string. */
  function Value(e: string): string {
    var i := IndexOf(e, '=');
    if i < 0 then "" else e[i + 1..]
  }

  predicate HasKey(envs: seq<string>, name: string) {
    exists i :: 0 <= i < |envs| && Key(envs[i]) == name
  }

  /** First-match lookup; the empty string when there is no entry. */
  function Lookup(envs: seq<string>, name: string): string {
    if envs == [] then ""
    else if Key(envs[0]) == name then Value(envs[0])
    else Lookup(envs[1..], name)
  }

  /** An entry splits back into the '='-free name and the value it was made from. */
  lemma EntryRoundTrip(k: string, v: string)
    requires '=' !in k
    ensures Key(k + "=" + v) == k && Value(k + "=" + v) == v
  {
    var e := k + "=" + v;
    assert e[|k|] == '=';
    assert e[..|k|] == k;
    assert IndexOf(e, '=') == |k|;
  }

  /** An entry without `=` is a name with an empty value. */
  lemma BareEntry(e: string)
    requires '=' !in e
    ensures Key(e) == e && Value(e) == ""
  {
  }

  lemma KeyHasNoEquals(e: string)
    ensures '=' !in Key(e)
  {
  }

  lemma LookupAbsent(envs: seq<string>, name: string)
    requires !HasKey(envs, name)
    ensures Lookup(envs, name) == ""
  {
  }

  /** Lookup reads the first entry with the given key. */
  lemma {:induction false} LookupAt(envs: seq<string>, name: string, i: nat)
    requires i < |envs| && Key(envs[i]) == name
    requires forall j :: 0 <= j < i ==> Key(envs[j]) != name
    ensures Lookup(envs, name) == Value(envs[i])
  {
    if i > 0 {
      LookupAt(envs[1..], name, i - 1);
    }
  }

  /** Lookup in a concatenation prefers the left list. */
  lemma {:induction false} LookupConcat(a: seq<string>, b: seq<string>, name: string)
    ensures Lookup(a + b, name) == if HasKey(a, name) then Lookup(a, name) else Lookup(b, name)
  {
    if a == [] {
      assert a + b == b;
    } else {
      assert (a + b)[1..] == a[1..] + b;
      LookupConcat(a[1..], b, name);
      if HasKey(a, name) && Key(a[0]) != name {
        var i :| 0 <= i < |a| && Key(a[i]) == name;
        assert a[1..][i - 1] == a[i];
      }
      if HasKey(a[1..], name) {
        var i :| 0 <= i < |a[1..]| && Key(a[1..][i]) == name;
        assert a[i + 1] == a[1..][i];
      }
    }
  }

  lemma HasKeyAppend(u: seq<string>, e: string, n: string)
    ensures HasKey(u + [e], n) <==> HasKey(u, n) || Key(e) == n
  {
    var s := u + [e];
    assert s[|u|] == e;
    if k :| 0 <= k < |u| && Key(u[k]) == n {
      assert s[k] == u[k];
    }
  }
}
