/** The preset-map repositories: the Redis one, a hash per record plus an index set written by
    separate commands through the record codec, and the in-memory one used as a stand-in. */
module PresetMaps {
  import opened Wrappers
  import opened Text
  import opened Codec
  import opened RoundTrip

  const INDEX := "presetmaps"

  datatype PresetMap = PresetMap(name: string, mapping: map<string, string>, extension: string)

  datatype DbError = AlreadyExists | NotFound | InvalidName | Unsavable(error: Error) | DatabaseError

  function RecordKey(name: string): string {
    Qualified("presetmap:", name)
  }

  // ---------------------------------------------------------------- the stored form

  const SCHEMA: seq<Field> := [
    Leaf("presetmap_name", false, KString),
    ExpandMap("pmapping", false),
    ExpandStruct("output", false, false, EXTENSION_SCHEMA)]

  function Fields(pm: PresetMap): seq<Value> {
    [Str(pm.name), Map(pm.mapping), Struct([Str(pm.extension)])]
  }

  predicate IsRecord(vs: seq<Value>) {
    |vs| == 3 && vs[0].Str? && vs[1].Map? && vs[2].Struct? && |vs[2].fields| == 1 && vs[2].fields[0].Str?
  }

  function RecordOf(vs: seq<Value>): PresetMap
    requires IsRecord(vs)
  {
    PresetMap(vs[0].s, vs[1].m, vs[2].fields[0].s)
  }

  /** The destination that GetPresetMap prepares. */
  function Prepared(name: string): PresetMap {
    PresetMap(name, map[], "")
  }

  const EXTENSION_SCHEMA: seq<Field> := [Leaf("extension", false, KString)]

  lemma NameAndMappingAreWellFormed()
    ensures var two := [SCHEMA[0], SCHEMA[1]];
      WellFormed(two, []) && Patterns(two, []) == [Exact("presetmap_name"), Under("pmapping_")]
  {
    var none: seq<Field> := [];
    assert [] + ["presetmap_name"] == ["presetmap_name"];
    WellFormedSnoc(none, SCHEMA[0], []);
    assert [] + ["pmapping"] == ["pmapping"];
    assert Patterns(none + [SCHEMA[0]], []) == [Exact("presetmap_name")];
    assert MapPrefix(["pmapping"]) == "pmapping_" && "pmapping_"[1] != "presetmap_name"[1];
    WellFormedSnoc(none + [SCHEMA[0]], SCHEMA[1], []);
    assert none + [SCHEMA[0]] + [SCHEMA[1]] == [SCHEMA[0], SCHEMA[1]];
    assert Patterns(none + [SCHEMA[0]] + [SCHEMA[1]], [])
        == [Exact("presetmap_name")] + [Under("pmapping_")] == [Exact("presetmap_name"), Under("pmapping_")];
  }

  lemma OutputIsWellFormed()
    ensures WellFormedField(SCHEMA[2], []) && FieldPatterns(SCHEMA[2], []) == [Exact("output_extension")]
  {
    var none: seq<Field> := [];
    assert [] + ["output"] == ["output"];
    JoinSnoc(["output"], "extension", "_");
    WellFormedSnoc(none, EXTENSION_SCHEMA[0], ["output"]);
    assert none + [EXTENSION_SCHEMA[0]] == EXTENSION_SCHEMA;
    assert Key(["output"], "extension") == "output_extension";
    assert FieldPatterns(SCHEMA[2], []) == Patterns(EXTENSION_SCHEMA, ["output"]) == [Exact("output_extension")];
  }

  lemma SchemaIsWellFormed()
    ensures WellFormed(SCHEMA, [])
  {
    NameAndMappingAreWellFormed();
    OutputIsWellFormed();
    assert "pmapping_"[1] != "presetmap_name"[1] && "output_extension"[0] !in ["pmapping_"[0], "presetmap_name"[0]];
    WellFormedSnoc([SCHEMA[0], SCHEMA[1]], SCHEMA[2], []);
    assert [SCHEMA[0], SCHEMA[1]] + [SCHEMA[2]] == SCHEMA;
  }

  lemma {:induction false} RecordFits(vs: seq<Value>)
    ensures IsRecord(vs) <==> FitsAll(SCHEMA, vs) && vs[1].Map?
  {
    if FitsAll(SCHEMA, vs) {
      assert Fits(SCHEMA[0], vs[0]) && Fits(SCHEMA[1], vs[1]) && Fits(SCHEMA[2], vs[2]);
      assert Fits(EXTENSION_SCHEMA[0], vs[2].fields[0]);
    }
  }

  // ---------------------------------------------------------------- reading and writing records

  ghost function Encoded(pm: PresetMap): Result<Hash, Error> {
    RecordFits(Fields(pm));
    SaveFields(SCHEMA, Fields(pm), [])
  }

  ghost function Decoded(h: Hash, name: string): PresetMap {
    RecordFits(Fields(Prepared(name)));
    LoadsAsRecord(h, Fields(Prepared(name)));
    RecordOf(LoadFields(SCHEMA, h, Fields(Prepared(name)), []).value)
  }

  lemma {:induction false} LoadsAsRecord(h: Hash, dst: seq<Value>)
    requires FitsAll(SCHEMA, dst) && IsRecord(dst)
    ensures LoadFields(SCHEMA, h, dst, []).Success? && IsRecord(LoadFields(SCHEMA, h, dst, []).value)
  {
    TextAlwaysLoads(SCHEMA, h, dst, []);
    var vs := LoadFields(SCHEMA, h, dst, []).value;
    RecordFits(vs);
    LoadsAt(SCHEMA, h, dst, [], 1);
  }

  /** A record is savable exactly when it maps at least one provider. */
  lemma EncodedExactlyWhenMapped(pm: PresetMap)
    ensures Encoded(pm).Success? <==> pm.mapping != map[]
  {
    var vs := Fields(pm);
    RecordFits(vs);
    SaveSucceedsExactlyWhenSavable(SCHEMA, vs, []);
    assert Savable(SCHEMA[0], vs[0]) && Savable(SCHEMA[2], vs[2]);
    assert Savable(SCHEMA[1], vs[1]) <==> pm.mapping != map[];
  }

  ghost function ProviderKey(p: string): string {
    "pmapping_" + p
  }

  ghost predicate MappingEntries(h: Hash, m: map<string, string>) {
    && (forall p :: p in m ==> ProviderKey(p) in h && h[ProviderKey(p)] == m[p])
    && (forall k :: k in h ==> IsProviderKey(k, m))
  }

  ghost predicate IsProviderKey(k: string, m: map<string, string>) {
    exists p :: p in m && k == ProviderKey(p)
  }

  /** The hash of a preset map, by its keys. */
  ghost predicate HashOf(h: Hash, pm: PresetMap) {
    && "presetmap_name" in h && h["presetmap_name"] == pm.name
    && "output_extension" in h && h["output_extension"] == pm.extension
    && (forall p :: p in pm.mapping ==> ProviderKey(p) in h && h[ProviderKey(p)] == pm.mapping[p])
    && (forall k :: k in h ==> k == "presetmap_name" || k == "output_extension" || IsProviderKey(k, pm.mapping))
  }

  lemma {:induction false} MappingKey(p: string)
    ensures Key(["pmapping"], p) == ProviderKey(p)
  {
    JoinSnoc(["pmapping"], p, "_");
    assert "pmapping" + "_" == "pmapping_";
  }

  lemma {:induction false} ProviderSaved(m: map<string, string>, h: Hash, p: string)
    requires Prefixed(["pmapping"], m, h) && p in m
    ensures ProviderKey(p) in h && h[ProviderKey(p)] == m[p]
  {
    MappingKey(p);
  }

  lemma {:induction false} OnlyProvidersSaved(m: map<string, string>, h: Hash, k: string)
    requires Prefixed(["pmapping"], m, h) && k in h
    ensures IsProviderKey(k, m)
  {
    var p :| p in m && k == Key(["pmapping"], p);
    MappingKey(p);
    assert k == ProviderKey(p);
  }

  lemma {:induction false} MappingSaved(m: map<string, string>, h: Hash)
    requires Prefixed(["pmapping"], m, h)
    ensures MappingEntries(h, m)
  {
    forall p | p in m ensures ProviderKey(p) in h && h[ProviderKey(p)] == m[p] {
      ProviderSaved(m, h, p);
    }
    forall k | k in h ensures IsProviderKey(k, m) {
      OnlyProvidersSaved(m, h, k);
    }
  }

  lemma ProviderKeysAreApart(k: string, m: map<string, string>)
    requires IsProviderKey(k, m)
    ensures k != "presetmap_name" && k != "output_extension"
  {
    var p :| p in m && k == ProviderKey(p);
    assert k[0] == 'p' && k[1] == 'm';
    assert "presetmap_name"[1] == 'r' && "output_extension"[0] == 'o';
  }

  lemma HashOfParts(pm: PresetMap, b: Hash)
    requires MappingEntries(b, pm.mapping)
    ensures HashOf(map["presetmap_name" := pm.name] + b + map["output_extension" := pm.extension], pm)
  {
    assert |"presetmap_name"| != |"output_extension"|;
    forall k | k in b ensures k != "presetmap_name" && k != "output_extension" {
      ProviderKeysAreApart(k, pm.mapping);
    }
  }

  lemma {:induction false} ExtensionSaved(extension: string)
    ensures Fits(SCHEMA[2], Struct([Str(extension)]))
    ensures SaveField(SCHEMA[2], Struct([Str(extension)]), []) == Success(map["output_extension" := extension])
  {
    JoinSnoc(["output"], "extension", "_");
    assert [] + ["output"] == ["output"];
    assert "output" + "_" + "extension" == "output_extension";
    OneFieldSaved(EXTENSION_SCHEMA[0], Str(extension), ["output"], map["output_extension" := extension]);
    assert [EXTENSION_SCHEMA[0]] == EXTENSION_SCHEMA;
  }

  lemma {:induction false} NameSaved(name: string)
    ensures Fits(SCHEMA[0], Str(name))
    ensures SaveField(SCHEMA[0], Str(name), []) == Success(map["presetmap_name" := name])
  {
    assert [] + ["presetmap_name"] == ["presetmap_name"];
  }

  lemma {:induction false} EncodedAsParts(pm: PresetMap)
    requires pm.mapping != map[]
    ensures Encoded(pm) == Success(map["presetmap_name" := pm.name] + WithPrefix(["pmapping"], pm.mapping)
                                   + map["output_extension" := pm.extension])
  {
    RecordFits(Fields(pm));
    NameSaved(pm.name);
    ExtensionSaved(pm.extension);
    assert [] + ["pmapping"] == ["pmapping"];
    ThreeSaved(SCHEMA, Fields(pm), [], map["presetmap_name" := pm.name], WithPrefix(["pmapping"], pm.mapping),
               map["output_extension" := pm.extension]);
  }

  /** A preset map is stored under its own keys: its name, its extension, and each provider's id under the
      provider's name after a prefix. */
  lemma {:induction false} EncodedByItsKeys(pm: PresetMap)
    requires pm.mapping != map[]
    ensures Encoded(pm).Success? && HashOf(Encoded(pm).value, pm)
  {
    EncodedAsParts(pm);
    MappingSaved(pm.mapping, WithPrefix(["pmapping"], pm.mapping));
    HashOfParts(pm, WithPrefix(["pmapping"], pm.mapping));
  }

  lemma {:induction false} ThreeSaved(fs: seq<Field>, vs: seq<Value>, prefixes: seq<string>, a: Hash, b: Hash, c: Hash)
    requires |fs| == |vs| == 3 && Fits(fs[0], vs[0]) && Fits(fs[1], vs[1]) && Fits(fs[2], vs[2])
    requires SaveField(fs[0], vs[0], prefixes) == Success(a) && SaveField(fs[1], vs[1], prefixes) == Success(b)
    requires SaveField(fs[2], vs[2], prefixes) == Success(c)
    ensures FitsAll(fs, vs) && SaveFields(fs, vs, prefixes) == Success(a + b + c)
  {
    OneFieldSaved(fs[0], vs[0], prefixes, a);
    assert fs[..1] == [fs[0]] && vs[..1] == [vs[0]];
    SaveSnoc(fs[..1], vs[..1], fs[1], vs[1], prefixes, a, b);
    assert fs[..2] == fs[..1] + [fs[1]] && vs[..2] == vs[..1] + [vs[1]];
    SaveSnoc(fs[..2], vs[..2], fs[2], vs[2], prefixes, a + b, c);
    assert fs == fs[..2] + [fs[2]] && vs == vs[..2] + [vs[2]];
  }

  lemma {:induction false} OverlayOfRecord(vs: seq<Value>, before: seq<Value>)
    requires IsRecord(vs) && IsRecord(before) && FitsAll(SCHEMA, vs) && FitsAll(SCHEMA, before)
    ensures var after := Overlays(SCHEMA, vs, before);
      IsRecord(after) && RecordOf(after) == PresetMap(vs[0].s, before[1].m + vs[1].m, vs[2].fields[0].s)
  {
    var after := Overlays(SCHEMA, vs, before);
    OverlaysAt(SCHEMA, vs, before, 0);
    OverlaysAt(SCHEMA, vs, before, 1);
    OverlaysAt(SCHEMA, vs, before, 2);
    OverlaysAt(EXTENSION_SCHEMA, vs[2].fields, before[2].fields, 0);
    assert before[1].m + map[] == before[1].m;
    RecordFits(after);
  }

  /** HMSET of a record over a stored one: name and extension are replaced, the provider mapping
      is merged. */
  lemma WriteMerges(h: Hash, name: string, pm: PresetMap)
    requires pm.mapping != map[] && Encoded(pm).Success?
    ensures Decoded(h + Encoded(pm).value, name)
         == PresetMap(pm.name, Decoded(h, name).mapping + pm.mapping, pm.extension)
  {
    var vs, dst := Fields(pm), Fields(Prepared(name));
    RecordFits(vs);
    RecordFits(dst);
    LoadsAsRecord(h, dst);
    SchemaIsWellFormed();
    SaveOverlaysStoredRecord(SCHEMA, vs, dst, h);
    OverlayOfRecord(vs, LoadFields(SCHEMA, h, dst, []).value);
  }

  /** Into a fresh hash the record is written as it is. */
  lemma WriteFresh(name: string, pm: PresetMap)
    requires pm.mapping != map[] && Encoded(pm).Success?
    ensures Encoded(pm).value != map[] && Decoded(Encoded(pm).value, name) == pm
  {
    WriteMerges(map[], name, pm);
    var dst := Fields(Prepared(name));
    RecordFits(dst);
    LoadAllOfNothing(SCHEMA, dst, []);
    assert Expandable(SCHEMA[2], dst[2]);
    assert AllExpandable(SCHEMA, dst);
    assert map[] + Encoded(pm).value == Encoded(pm).value;
    assert map[] + pm.mapping == pm.mapping;
    assert Decoded(map[], name) == Prepared(name);
  }
}
