/**
  Merging a user's container configuration over an image's (`Merge` in `runconfig/merge.go`).
  An absent command line or map differs from an empty one; list and map values are copied where
  the source may share them.
 */
module MergeSpec {
  import opened EnvEntry

  /** A command line that may be absent, or a possibly empty list. */
  datatype Command = Nil | Slice(words: seq<string>)

  /** A set held in a Go map: nil, or possibly empty. */
  datatype Names = NoNames | Names(names: set<string>)

  datatype Config = Config(user: string, exposedPorts: Names, env: seq<string>, entrypoint: Command, cmd: Command,
                           workingDir: string, volumes: Names)

  predicate IsEmpty(c: Command) { c.Nil? || c.words == [] }

  predicate HasNone(n: Names) { n.NoNames? || n.names == {} }

  predicate Given(c: Command) { c.Slice? && |c.words| > 0 }

  predicate In(x: string, n: Names) { n.Names? && x in n.names }

  function MergeNames(u: Names, i: Names): Names {
    if HasNone(u) then i else if i.NoNames? then u else Names(u.names + i.names)
  }

  /** Appends the entries of `i`, in order, whose key is not there yet. */
  function AddMissing(u: seq<string>, i: seq<string>): seq<string>
    decreases |i|
  {
    if i == [] then u
    else AddMissing(if HasKey(u, Key(i[0])) then u else u + [i[0]], i[1..])
  }

  function MergeEnv(u: seq<string>, i: seq<string>): seq<string> {
    if u == [] then i else AddMissing(u, i)
  }

  function Merged(u: Config, i: Config): Config {
    Config(
      if u.user == "" then i.user else u.user,
      MergeNames(u.exposedPorts, i.exposedPorts),
      MergeEnv(u.env, i.env),
      if u.entrypoint.Nil? then i.entrypoint else u.entrypoint,
      if IsEmpty(u.entrypoint) && IsEmpty(u.cmd) then i.cmd else u.cmd,
      if u.workingDir == "" then i.workingDir else u.workingDir,
      MergeNames(u.volumes, i.volumes))
  }

  // ---------- environments ----------

  lemma HasKeyTail(i: seq<string>, n: string)
    requires i != []
    ensures HasKey(i, n) <==> Key(i[0]) == n || HasKey(i[1..], n)
  {
  }

  /** The keys of both lists, and lookup that prefers the first. */
  lemma {:induction false} AddMissingLookup(u: seq<string>, i: seq<string>, n: string)
    ensures HasKey(AddMissing(u, i), n) <==> HasKey(u, n) || HasKey(i, n)
    ensures Lookup(AddMissing(u, i), n) == if HasKey(u, n) then Lookup(u, n) else Lookup(i, n)
    decreases |i|
  {
    if i == [] {
      if !HasKey(u, n) {
        LookupAbsent(u, n);
      }
    } else {
      var e := i[0];
      HasKeyTail(i, n);
      if HasKey(u, Key(e)) {
        AddMissingLookup(u, i[1..], n);
      } else {
        AddMissingLookup(u + [e], i[1..], n);
        HasKeyAppend(u, e, n);
        LookupConcat(u, [e], n);
        assert Lookup([e], n) == if Key(e) == n then Value(e) else Lookup([], n);
      }
    }
  }

  lemma {:induction false} AddMissingSnoc(u: seq<string>, i: seq<string>, e: string)
    ensures AddMissing(u, i + [e]) ==
            if HasKey(AddMissing(u, i), Key(e)) then AddMissing(u, i) else AddMissing(u, i) + [e]
    decreases |i|
  {
    if i == [] {
      assert (i + [e])[1..] == [];
    } else {
      assert (i + [e])[1..] == i[1..] + [e];
      AddMissingSnoc(if HasKey(u, Key(i[0])) then u else u + [i[0]], i[1..], e);
    }
  }

  lemma {:induction false} AddMissingAssociative(a: seq<string>, b: seq<string>, c: seq<string>)
    ensures AddMissing(AddMissing(a, b), c) == AddMissing(a, AddMissing(b, c))
    decreases |c|
  {
    if c != [] {
      var e := c[0];
      AddMissingLookup(a, b, Key(e));
      if HasKey(b, Key(e)) {
        AddMissingAssociative(a, b, c[1..]);
      } else {
        AddMissingSnoc(a, b, e);
        AddMissingAssociative(a, b + [e], c[1..]);
      }
    }
  }

  lemma {:induction false} AddMissingNothing(u: seq<string>, i: seq<string>)
    requires forall k :: 0 <= k < |i| ==> HasKey(u, Key(i[k]))
    ensures AddMissing(u, i) == u
    decreases |i|
  {
    if i != [] {
      forall k | 0 <= k < |i[1..]| ensures HasKey(u, Key(i[1..][k])) {
        assert i[1..][k] == i[k + 1];
      }
      AddMissingNothing(u, i[1..]);
    }
  }

  lemma {:induction false} AddMissingKeeps(u: seq<string>, i: seq<string>)
    ensures u <= AddMissing(u, i)
    decreases |i|
  {
    if i != [] {
      AddMissingKeeps(if HasKey(u, Key(i[0])) then u else u + [i[0]], i[1..]);
    }
  }

  lemma MergeEnvAssociative(a: seq<string>, b: seq<string>, c: seq<string>)
    ensures MergeEnv(MergeEnv(a, b), c) == MergeEnv(a, MergeEnv(b, c))
  {
    AddMissingKeeps(a, b);
    AddMissingAssociative(a, b, c);
  }

  // ---------- the laws ----------

  /** A name means what the user gave it, else what the image gave it. */
  lemma MergedLookup(u: Config, i: Config, n: string)
    ensures Lookup(Merged(u, i).env, n) == if HasKey(u.env, n) then Lookup(u.env, n) else Lookup(i.env, n)
  {
    AddMissingLookup(u.env, i.env, n);
  }

  /** Merging an image again changes nothing; in particular a configuration merged over itself is itself. */
  lemma MergeIdempotent(u: Config, i: Config)
    ensures Merged(Merged(u, i), i) == Merged(u, i)
    ensures Merged(u, u) == u
  {
    var e := MergeEnv(u.env, i.env);
    forall k | 0 <= k < |i.env| ensures HasKey(e, Key(i.env[k])) {
      AddMissingLookup(u.env, i.env, Key(i.env[k]));
    }
    AddMissingNothing(e, i.env);
    AddMissingNothing(u.env, u.env);
  }

  /**
    Merging is associative except for one family: an entrypoint present but empty on top, a real
    entrypoint in the middle, no command in either, and a different command at the bottom.
   */
  lemma MergeAssociativeIff(a: Config, b: Config, c: Config)
    ensures Merged(Merged(a, b), c) == Merged(a, Merged(b, c)) <==>
            !(a.entrypoint == Slice([]) && !IsEmpty(b.entrypoint) && IsEmpty(a.cmd) && IsEmpty(b.cmd) && b.cmd != c.cmd)
  {
    MergeEnvAssociative(a.env, b.env, c.env);
    NamesAssociative(a.exposedPorts, b.exposedPorts, c.exposedPorts);
    NamesAssociative(a.volumes, b.volumes, c.volumes);
  }

  lemma NamesAssociative(a: Names, b: Names, c: Names)
    ensures MergeNames(MergeNames(a, b), c) == MergeNames(a, MergeNames(b, c))
  {
  }

  /** A member of the failing family. */
  lemma MergeNotAssociative()
    ensures var none := Config("", NoNames, [], Nil, Nil, "", NoNames);
            var a, b, c := none.(entrypoint := Slice([])), none.(entrypoint := Slice(["sh"])), none.(cmd := Slice(["ls"]));
            Merged(Merged(a, b), c).cmd == Slice(["ls"]) && Merged(a, Merged(b, c)).cmd == Nil
  {
  }
}

module Merge {
  import opened EnvEntry
  import opened MergeSpec

  class ContainerConfig {
    var user: string
    var exposedPorts: Names
    var env: seq<string>
    var entrypoint: Command
    var cmd: Command
    var workingDir: string
    var volumes: Names

    ghost function Config(): Config
      reads this
    {
      MergeSpec.Config(user, exposedPorts, env, entrypoint, cmd, workingDir, volumes)
    }

    /** The environment loops: append the image's entries whose key the user does not have. */
    method MergeEnvironment(imageEnv: seq<string>)
      modifies this`env
      ensures env == MergeEnv(old(env), imageEnv)
    {
      if |env| == 0 {
        env := imageEnv;
        return;
      }
      for k := 0 to |imageEnv|
        invariant AddMissing(old(env), imageEnv) == AddMissing(env, imageEnv[k..])
      {
        assert imageEnv[k..][1..] == imageEnv[k + 1..];
        var found := FindKey(env, Key(imageEnv[k]));
        if !found {
          env := env + [imageEnv[k]];
        }
      }
    }

    /** `Merge`, with this as the user's configuration. */
    method Merge(image: ContainerConfig)
      modifies this
      ensures Config() == Merged(old(Config()), old(image.Config()))
      // what the user has set stays, and what is not set becomes the image's, a command only without an entrypoint of the user's
      ensures user == if old(user) != "" then old(user) else old(image.user)
      ensures workingDir == if old(workingDir) != "" then old(workingDir) else old(image.workingDir)
      ensures entrypoint == if old(entrypoint) != Nil then old(entrypoint) else old(image.entrypoint)
      ensures cmd == if Given(old(entrypoint)) || Given(old(cmd)) then old(cmd) else old(image.cmd)
    {
      var i := MergeSpec.Config(image.user, image.exposedPorts, image.env, image.entrypoint, image.cmd,
                                image.workingDir, image.volumes);
      if user == "" {
        user := i.user;
      }
      exposedPorts := AddNames(exposedPorts, i.exposedPorts);
      MergeEnvironment(i.env);
      if IsEmpty(entrypoint) {
        if IsEmpty(cmd) {
          cmd := i.cmd;
        }
        if entrypoint.Nil? {
          entrypoint := i.entrypoint;
        }
      }
      if workingDir == "" {
        workingDir := i.workingDir;
      }
      volumes := AddNames(volumes, i.volumes);
    }
  }

  /** The inner environment loop. */
  method FindKey(env: seq<string>, key: string) returns (found: bool)
    ensures found <==> HasKey(env, key)
  {
    for j := 0 to |env|
      invariant forall l :: 0 <= l < j ==> Key(env[l]) != key
    {
      if Key(env[j]) == key {
        return true;
      }
    }
    found := false;
  }

  /** The insertion loop over the image's map, in any order. */
  method AddNames(u: Names, i: Names) returns (r: Names)
    ensures r == MergeNames(u, i)
    ensures forall x :: In(x, r) <==> In(x, u) || In(x, i)
  {
    if HasNone(u) {
      return i;
    }
    r := u;
    if i.Names? {
      var todo := i.names;
      while todo != {}
        invariant r.Names? && todo <= i.names && r.names == u.names + (i.names - todo)
        decreases todo
      {
        var x :| x in todo;
        r := Names(r.names + {x});
        todo := todo - {x};
      }
    }
  }
}
