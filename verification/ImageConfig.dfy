/**
  Image identity (`image/image.go`): configuration fields, digests and the JSON decoder.

  The decoder and the hash functions are parameters. A configuration is the map of its JSON
  fields. A digest and the hexadecimal ID made from it are the same value here: the algorithm
  prefix is constant.
 */
module ImageConfig {
  import opened Options

  type ID = string
  type Fields = map<string, string>

  /** The two fields of a v1 image that the pull looks at. */
  datatype Image = Image(id: ID, parent: ID)

  datatype Library = Library(
    decode: string -> Option<Image>,     // NewImgJSON
    fields: string -> Option<Fields>,    // the fields hashed for a v1 image, after the pre-1.8.3 fallback
    validID: string -> bool,             // ValidateID
    validDigest: string -> bool,         // Digest.Validate
    strongID: Fields -> ID,              // StrongID of a configuration
    next: ID -> ID                       // SHA256 of an ID, the next probe
  )

  /** Digests are never empty, and no valid ID is. */
  ghost predicate Sound(lib: Library) {
    && (forall c :: lib.strongID(c) != "")
    && (forall x :: lib.next(x) != "")
    && !lib.validID("")
  }

  ghost predicate Injective(lib: Library) {
    forall c, d :: lib.strongID(c) == lib.strongID(d) ==> c == d
  }

  const Dropped: set<string> := {"id", "parent", "Size"}

  /** `MakeImageConfig`: `parent` is empty for a base layer. */
  function MakeImageConfig(lib: Library, v1: string, layer: string, parent: ID): Option<Fields> {
    var f := lib.fields(v1);
    if f.None? || !lib.validDigest(layer) || (parent != "" && !lib.validDigest(parent)) then None
    else
      var c := f.value["layer_id" := layer];
      Some((if parent != "" then c["parent_id" := parent] else c) - Dropped)
  }

  /** The fields of a v1 image that reach its configuration unchanged. */
  function Core(lib: Library, v1: string): Option<Fields> {
    var f := lib.fields(v1);
    if f.None? then None else Some(f.value - (Dropped + {"layer_id", "parent_id"}))
  }

  /** The `parent_id` field that a v1 image brings by itself. */
  function OwnParent(lib: Library, v1: string): Option<ID> {
    var f := lib.fields(v1);
    if f.Some? && "parent_id" in f.value then Some(f.value["parent_id"]) else None
  }

  /** The parent that reaches the configuration: the given one, else the image's own. */
  function EffectiveParent(lib: Library, v1: string, parent: ID): Option<ID> {
    if parent != "" then Some(parent) else OwnParent(lib, v1)
  }

  /**
    What a configuration holds: the layer, the given parent, and the fields of the v1 image but for
    `id`, `parent` and `Size`; it can be made unless the image has no fields or a digest is invalid.
   */
  lemma ConfigHolds(lib: Library, v: string, l: string, p: ID, k: string)
    ensures MakeImageConfig(lib, v, l, p).Some? <==>
            lib.fields(v).Some? && lib.validDigest(l) && (p == "" || lib.validDigest(p))
    ensures MakeImageConfig(lib, v, l, p).Some? ==>
              var c, f := MakeImageConfig(lib, v, l, p).value, lib.fields(v).value;
              && (k in {"id", "parent", "Size"} ==> k !in c)
              && (k == "layer_id" ==> k in c && c[k] == l)
              && (k == "parent_id" && p != "" ==> k in c && c[k] == p)
              && (k !in {"id", "parent", "Size", "layer_id"} && !(k == "parent_id" && p != "") ==>
                    (k in c <==> k in f) && (k in c ==> c[k] == f[k]))
  {
  }

  /** Two configurations are equal exactly when layer, core fields and effective parent are. */
  lemma ConfigDetermines(lib: Library, v: string, l: string, p: ID, v': string, l': string, p': ID)
    requires MakeImageConfig(lib, v, l, p).Some? && MakeImageConfig(lib, v', l', p').Some?
    ensures MakeImageConfig(lib, v, l, p) == MakeImageConfig(lib, v', l', p') <==>
            && l == l' && Core(lib, v) == Core(lib, v')
            && EffectiveParent(lib, v, p) == EffectiveParent(lib, v', p')
  {
    var c, c' := MakeImageConfig(lib, v, l, p).value, MakeImageConfig(lib, v', l', p').value;
    ConfigParts(lib, v, l, p);
    ConfigParts(lib, v', l', p');
    var hidden := Dropped + {"layer_id", "parent_id"};
    if l == l' && Core(lib, v) == Core(lib, v') && EffectiveParent(lib, v, p) == EffectiveParent(lib, v', p') {
      assert c.Keys == c'.Keys;
      forall k | k in c ensures c[k] == c'[k] {
        if k != "layer_id" && k != "parent_id" {
          assert (c - hidden)[k] == (c' - hidden)[k];
        }
      }
      assert c == c';
    }
  }

  lemma ConfigParts(lib: Library, v: string, l: string, p: ID)
    requires MakeImageConfig(lib, v, l, p).Some?
    ensures var c := MakeImageConfig(lib, v, l, p).value;
            && "layer_id" in c && c["layer_id"] == l
            && EffectiveParent(lib, v, p) == (if "parent_id" in c then Some(c["parent_id"]) else None)
            && Core(lib, v) == Some(c - (Dropped + {"layer_id", "parent_id"}))
            && c.Keys == (c - (Dropped + {"layer_id", "parent_id"})).Keys + {"layer_id"} +
                         (if "parent_id" in c then {"parent_id"} else {})
  {
    var f := lib.fields(v).value;
    var c := MakeImageConfig(lib, v, l, p).value;
    assert f - (Dropped + {"layer_id", "parent_id"}) == c - (Dropped + {"layer_id", "parent_id"});
  }
}
