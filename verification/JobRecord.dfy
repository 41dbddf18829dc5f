/** The record of a job: the tags of its fields, and exactly which jobs come back from Redis. The
    creation time stands for the text that Go's `time` prints it as and parses it from. */
module JobRecord {
  import opened Wrappers
  import opened Text
  import opened Codec
  import opened RoundTrip

  // ---------------------------------------------------------------- the tags

  const NO_FILE := "{0 0 0 0 }"

  const NO_SPLICE := "[]"

  const STREAMING_SCHEMA: seq<Field> := [
    Leaf("segmentDuration", false, KUint),
    Leaf("protocol", false, KString),
    Leaf("playlistFileName", false, KString)]

  const ENVIRONMENT_SCHEMA: seq<Field> := [
    Leaf("cloud", true, KString),
    Leaf("region", true, KString),
    ExpandMap("computetags", true),
    Leaf("inputalias", true, KString),
    Leaf("outputalias", true, KString)]

  const JOB_SCHEMA: seq<Field> := [
    Leaf("jobID", false, KString),
    Leaf("name", true, KString),
    Leaf("providerName", false, KString),
    Leaf("providerJobID", false, KString),
    ExpandStruct("streamingparams", false, false, STREAMING_SCHEMA),
    ExpandStruct("executionenvironment", false, false, ENVIRONMENT_SCHEMA),
    Untouched,                                // ExecutionFeatures
    Leaf("execution-cfg", true, KString),
    Leaf("creationTime", false, KString),     // the time's printed text
    Leaf("source", false, KString),
    Leaf("sourceinfo", true, KStruct(NO_FILE)),
    Leaf("", false, KStruct(NO_SPLICE)),      // SourceSplice, which has no tag
    Leaf("destbasepath", true, KString),
    ExpandMap("sidecarassets", true),
    Untouched,                                // Outputs
    Untouched,                                // AudioDownmix
    Untouched,                                // ExplicitKeyframeOffsets
    Leaf("labels", true, KStrings)]

  const STREAMING: nat := 4
  const ENVIRONMENT: nat := 5
  const COMPUTE_TAGS: nat := 2
  const SOURCE_INFO: nat := 10
  const SOURCE_SPLICE: nat := 11
  const SIDECAR_ASSETS: nat := 13
  const LABELS: nat := 17

  // ---------------------------------------------------------------- keys that cannot clash

  function TextOf(p: Pattern): string {
    match p case Exact(key) => key case Under(prefix) => prefix
  }

  /** What the patterns of a field have in common: how they start, and how long they are. */
  datatype Shape = Shape(first: char, second: char, least: nat, most: nat)

  predicate Has(s: Shape, p: Pattern) {
    var t := TextOf(p);
    2 <= |t| && t[0] == s.first && t[1] == s.second && s.least <= |t| <= s.most
  }

  predicate AllHave(s: Shape, ps: seq<Pattern>) {
    forall i :: 0 <= i < |ps| ==> Has(s, ps[i])
  }

  predicate DifferentStarts(s: Shape, t: Shape) {
    s.first != t.first || s.second != t.second
  }

  lemma ApartByStart(s: Shape, t: Shape, ps: seq<Pattern>, qs: seq<Pattern>)
    requires DifferentStarts(s, t) && AllHave(s, ps) && AllHave(t, qs)
    ensures AllApart(ps, qs)
  {
  }

  lemma ApartByLength(s: Shape, t: Shape, ps: seq<Pattern>, qs: seq<Pattern>)
    requires s.most < t.least && AllHave(s, ps) && AllHave(t, qs)
    requires forall i :: 0 <= i < |ps| ==> ps[i].Exact?
    ensures AllApart(ps, qs) && AllApart(qs, ps)
  {
  }

  lemma {:induction false} TopKey(name: string)
    ensures Key([], name) == name && Join([name], "_") == name
    ensures [] + [name] == [name]
  {
  }

  const LONGEST_INNER := 16

  /** The names that the schema uses below the top level. */
  predicate InnerField(f: Field) {
    (f.Leaf? || f.ExpandMap?) && 1 <= |f.name| <= LONGEST_INNER - (if f.Leaf? then 0 else 1)
  }

  /** The shape of a field at the top level; a struct's holds for fields of any name of bounded length. */
  function ShapeOf(f: Field): Shape
    requires (f.Leaf? || f.ExpandMap? || f.ExpandStruct?) && 2 <= |f.name|
  {
    var n := |f.name|;
    var least, most := if f.Leaf? then n else if f.ExpandMap? then n + 1 else n + 2,
                       if f.Leaf? then n else if f.ExpandMap? then n + 1 else n + 1 + LONGEST_INNER;
    Shape(f.name[0], f.name[1], least, most)
  }

  lemma {:induction false} InnerPatterns(path: string, f: Field)
    requires 2 <= |path| && InnerField(f)
    ensures FieldPatterns(f, [path]) ==
      [if f.Leaf? then Exact(path + "_" + f.name) else Under(path + "_" + f.name + "_")]
    ensures WellFormedField(f, [path])
    ensures AllHave(ShapeOf(ExpandStruct(path, false, false, [])), FieldPatterns(f, [path]))
  {
    JoinSnoc([path], f.name, "_");
  }

  lemma {:induction false} HasItsShape(f: Field)
    requires (f.Leaf? || f.ExpandMap? || f.ExpandStruct?) && 2 <= |f.name|
    requires f.ExpandStruct? ==> forall i :: 0 <= i < |f.sub| ==> InnerField(f.sub[i])
    ensures AllHave(ShapeOf(f), FieldPatterns(f, []))
  {
    TopKey(f.name);
    if f.ExpandStruct? {
      var ps := FieldPatterns(f, []);
      forall k | 0 <= k < |ps| ensures Has(ShapeOf(f), ps[k]) {
        PatternOfAField(f.sub, [f.name], ps[k]);
        var i :| 0 <= i < |f.sub| && ps[k] in FieldPatterns(f.sub[i], [f.name]);
        InnerPatterns(f.name, f.sub[i]);
      }
    }
  }

  lemma {:induction false} InnerFieldsApart(path: string, f: Field, g: Field)
    requires 2 <= |path| && InnerField(f) && InnerField(g) && f.Leaf?
    requires if g.Leaf? then f.name != g.name else |f.name| <= |g.name|
    ensures AllApart(FieldPatterns(f, [path]), FieldPatterns(g, [path]))
    ensures AllApart(FieldPatterns(g, [path]), FieldPatterns(f, [path]))
  {
    InnerPatterns(path, f);
    InnerPatterns(path, g);
    var a, b := path + "_" + f.name, path + "_" + g.name;
    assert a[|path| + 1..] == f.name && b[|path| + 1..] == g.name;
  }

  lemma {:induction false} StreamingIsWellFormed(path: string)
    requires 2 <= |path|
    ensures WellFormed(STREAMING_SCHEMA, [path])
    ensures forall i :: 0 <= i < |STREAMING_SCHEMA| ==> InnerField(STREAMING_SCHEMA[i])
  {
    var fs := STREAMING_SCHEMA;
    forall i | 0 <= i < |fs| ensures WellFormedField(fs[i], [path]) {
      InnerPatterns(path, fs[i]);
    }
    forall i, j | 0 <= i < j < |fs| ensures AllApart(FieldPatterns(fs[i], [path]), FieldPatterns(fs[j], [path])) {
      InnerFieldsApart(path, fs[i], fs[j]);
    }
    PairwiseIsWellFormed(fs, [path]);
  }

  lemma {:induction false} EnvironmentIsWellFormed(path: string)
    requires 2 <= |path|
    ensures WellFormed(ENVIRONMENT_SCHEMA, [path])
    ensures forall i :: 0 <= i < |ENVIRONMENT_SCHEMA| ==> InnerField(ENVIRONMENT_SCHEMA[i])
  {
    var fs := ENVIRONMENT_SCHEMA;
    forall i | 0 <= i < |fs| ensures WellFormedField(fs[i], [path]) {
      InnerPatterns(path, fs[i]);
    }
    forall i, j | 0 <= i < j < |fs| ensures AllApart(FieldPatterns(fs[i], [path]), FieldPatterns(fs[j], [path])) {
      if i != COMPUTE_TAGS {
        InnerFieldsApart(path, fs[i], fs[j]);
      } else {
        InnerFieldsApart(path, fs[j], fs[i]);
      }
    }
    PairwiseIsWellFormed(fs, [path]);
  }

  /** A field of the schema whose tag names it. */
  predicate Tagged(f: Field) {
    (f.Leaf? || f.ExpandMap? || f.ExpandStruct?) && 2 <= |f.name|
  }

  /** A field that the codec passes over, one without a tag, or a tagged one whose own fields, if it is a
      struct, have short names and keys of their own. */
  predicate Regular(f: Field) {
    if Tagged(f)
    then f.ExpandStruct? ==> WellFormed(f.sub, [f.name]) && forall i :: 0 <= i < |f.sub| ==> InnerField(f.sub[i])
    else f.Untouched? || (f.Leaf? && f.name == "")
  }

  lemma {:induction false} FieldIsRegular(i: nat)
    requires i < |JOB_SCHEMA|
    ensures Regular(JOB_SCHEMA[i])
  {
    StreamingIsWellFormed("streamingparams");
    EnvironmentIsWellFormed("executionenvironment");
  }

  lemma {:induction false} RegularIsWellFormed(f: Field)
    requires Regular(f)
    ensures WellFormedField(f, [])
    ensures Tagged(f) ==> AllHave(ShapeOf(f), FieldPatterns(f, []))
    ensures !Tagged(f) ==> FieldPatterns(f, []) == [] || FieldPatterns(f, []) == [Exact("")]
  {
    if Tagged(f) {
      TopKey(f.name);
      HasItsShape(f);
    } else {
      TopKey("");
    }
  }

  /** Two fields with tags start differently or are told apart by length. */
  predicate Distinguished(f: Field, g: Field)
    requires Tagged(f) && Tagged(g)
  {
    || DifferentStarts(ShapeOf(f), ShapeOf(g))
    || (f.Leaf? && ShapeOf(f).most < ShapeOf(g).least)
    || (g.Leaf? && ShapeOf(g).most < ShapeOf(f).least)
  }

  lemma {:induction false} TagsAreDistinguished(i: nat, j: nat)
    requires i < j < |JOB_SCHEMA| && Tagged(JOB_SCHEMA[i]) && Tagged(JOB_SCHEMA[j])
    ensures Distinguished(JOB_SCHEMA[i], JOB_SCHEMA[j])
  {
  }

  lemma {:induction false} OneWithoutTag(i: nat, j: nat)
    requires i < j < |JOB_SCHEMA| && !Tagged(JOB_SCHEMA[i]) && !Tagged(JOB_SCHEMA[j])
    ensures JOB_SCHEMA[i].Untouched? || JOB_SCHEMA[j].Untouched?
  {
  }

  lemma {:induction false} TaggedApart(f: Field, g: Field)
    requires Regular(f) && Regular(g) && Tagged(f) && Tagged(g) && Distinguished(f, g)
    ensures AllApart(FieldPatterns(f, []), FieldPatterns(g, []))
  {
    RegularIsWellFormed(f);
    RegularIsWellFormed(g);
    var ps, qs := FieldPatterns(f, []), FieldPatterns(g, []);
    if DifferentStarts(ShapeOf(f), ShapeOf(g)) {
      ApartByStart(ShapeOf(f), ShapeOf(g), ps, qs);
    } else if f.Leaf? && ShapeOf(f).most < ShapeOf(g).least {
      ApartByLength(ShapeOf(f), ShapeOf(g), ps, qs);
    } else {
      ApartByLength(ShapeOf(g), ShapeOf(f), qs, ps);
    }
  }

  lemma {:induction false} UntaggedApart(f: Field, g: Field)
    requires Regular(f) && Regular(g) && Tagged(f) && !Tagged(g)
    ensures AllApart(FieldPatterns(f, []), FieldPatterns(g, [])) && AllApart(FieldPatterns(g, []), FieldPatterns(f, []))
  {
    RegularIsWellFormed(f);
    RegularIsWellFormed(g);
  }

  lemma {:induction false} RegularApart(f: Field, g: Field)
    requires Regular(f) && Regular(g)
    requires Tagged(f) && Tagged(g) ==> Distinguished(f, g)
    requires Tagged(f) || Tagged(g) || f.Untouched? || g.Untouched?
    ensures AllApart(FieldPatterns(f, []), FieldPatterns(g, []))
  {
    if Tagged(f) && Tagged(g) {
      TaggedApart(f, g);
    } else if Tagged(f) {
      UntaggedApart(f, g);
    } else if Tagged(g) {
      UntaggedApart(g, f);
    }
  }

  lemma {:induction false} FieldsApart(i: nat, j: nat)
    requires i < j < |JOB_SCHEMA|
    ensures AllApart(FieldPatterns(JOB_SCHEMA[i], []), FieldPatterns(JOB_SCHEMA[j], []))
  {
    FieldIsRegular(i);
    FieldIsRegular(j);
    if Tagged(JOB_SCHEMA[i]) && Tagged(JOB_SCHEMA[j]) {
      TagsAreDistinguished(i, j);
    } else if !Tagged(JOB_SCHEMA[i]) && !Tagged(JOB_SCHEMA[j]) {
      OneWithoutTag(i, j);
    }
    RegularApart(JOB_SCHEMA[i], JOB_SCHEMA[j]);
  }

  /** No two fields of a job share a key of its hash. */
  lemma {:induction false} SchemaIsWellFormed()
    ensures WellFormed(JOB_SCHEMA, [])
  {
    forall i, j | 0 <= i < j < |JOB_SCHEMA|
      ensures AllApart(FieldPatterns(JOB_SCHEMA[i], []), FieldPatterns(JOB_SCHEMA[j], []))
    {
      FieldsApart(i, j);
    }
    forall i | 0 <= i < |JOB_SCHEMA| ensures WellFormedField(JOB_SCHEMA[i], []) {
      FieldIsRegular(i);
      RegularIsWellFormed(JOB_SCHEMA[i]);
    }
    PairwiseIsWellFormed(JOB_SCHEMA, []);
  }

  // ---------------------------------------------------------------- which jobs come back

  /** Labels that come back: none, or a separable list that prints as something. */
  ghost predicate LabelsReturn(labels: seq<string>) {
    labels == [] || (labels != [""] && Separable(labels))
  }

  /** What a job may hold if it is to come back: nothing in the fields that the codec passes over,
      no source info and no splice, no map that is empty and yet not nil. */
  ghost predicate Carried(job: seq<Value>)
    requires FitsAll(JOB_SCHEMA, job)
  {
    && (forall i :: 0 <= i < |JOB_SCHEMA| && JOB_SCHEMA[i].Untouched? ==> job[i] == Opaque(0))
    && job[SOURCE_INFO] == Blob(NO_FILE)
    && job[SOURCE_SPLICE] == Blob(NO_SPLICE)
    && job[SIDECAR_ASSETS] != Map(map[])
    && ComputeTags(job) != Map(map[])
    && LabelsReturn(Labels(job))
  }

  function ComputeTags(job: seq<Value>): Value
    requires FitsAll(JOB_SCHEMA, job)
  {
    assert Fits(JOB_SCHEMA[ENVIRONMENT], job[ENVIRONMENT]);
    job[ENVIRONMENT].fields[COMPUTE_TAGS]
  }

  function Labels(job: seq<Value>): seq<string>
    requires FitsAll(JOB_SCHEMA, job)
  {
    assert Fits(JOB_SCHEMA[LABELS], job[LABELS]);
    job[LABELS].ss
  }

  lemma {:induction false} PrintsAsNothing(l: seq<string>)
    ensures Join(l, LIST_SEPARATOR) == "" <==> l == [] || l == [""]
  {
  }

  /** The text fields, whatever they hold, and the number. */
  lemma {:induction false} PlainLeafReturns(f: Field, v: Value)
    requires Fits(f, v) && f.Leaf? && f.name != ""
    requires f.kind.KString? || (f.kind.KUint? && !f.omitEmpty)
    ensures InDomain(f, v)
  {
  }

  lemma {:induction false} StreamingReturns(job: seq<Value>)
    requires FitsAll(JOB_SCHEMA, job)
    ensures InDomain(JOB_SCHEMA[STREAMING], job[STREAMING])
  {
    var f, v := JOB_SCHEMA[STREAMING], job[STREAMING];
    assert Fits(f, v);
    forall i | 0 <= i < |f.sub| ensures InDomain(f.sub[i], v.fields[i]) {
      PlainLeafReturns(f.sub[i], v.fields[i]);
    }
  }

  lemma {:induction false} EnvironmentReturns(job: seq<Value>)
    requires FitsAll(JOB_SCHEMA, job)
    ensures InDomain(JOB_SCHEMA[ENVIRONMENT], job[ENVIRONMENT]) <==> ComputeTags(job) != Map(map[])
  {
    var f, v := JOB_SCHEMA[ENVIRONMENT], job[ENVIRONMENT];
    assert Fits(f, v);
    forall i | 0 <= i < |f.sub| && i != COMPUTE_TAGS ensures InDomain(f.sub[i], v.fields[i]) {
      PlainLeafReturns(f.sub[i], v.fields[i]);
    }
    assert f.sub[COMPUTE_TAGS] == ExpandMap("computetags", true);
  }

  lemma {:induction false} LabelsReturnExactly(job: seq<Value>)
    requires FitsAll(JOB_SCHEMA, job)
    ensures InDomain(JOB_SCHEMA[LABELS], job[LABELS]) <==> LabelsReturn(Labels(job))
  {
    assert Fits(JOB_SCHEMA[LABELS], job[LABELS]);
    PrintsAsNothing(Labels(job));
  }

  /** The part of `Carried` that is about one field. */
  ghost predicate FieldCarried(job: seq<Value>, i: nat)
    requires FitsAll(JOB_SCHEMA, job) && i < |JOB_SCHEMA|
  {
    && (JOB_SCHEMA[i].Untouched? ==> job[i] == Opaque(0))
    && (i == ENVIRONMENT ==> ComputeTags(job) != Map(map[]))
    && (i == SOURCE_INFO ==> job[i] == Blob(NO_FILE))
    && (i == SOURCE_SPLICE ==> job[i] == Blob(NO_SPLICE))
    && (i == SIDECAR_ASSETS ==> job[i] != Map(map[]))
    && (i == LABELS ==> LabelsReturn(Labels(job)))
  }

  lemma {:induction false} FieldReturns(job: seq<Value>, i: nat)
    requires FitsAll(JOB_SCHEMA, job) && i < |JOB_SCHEMA|
    ensures InDomain(JOB_SCHEMA[i], job[i]) <==> FieldCarried(job, i)
  {
    if i == STREAMING {
      StreamingReturns(job);
    } else if i == ENVIRONMENT {
      EnvironmentReturns(job);
    } else if i == LABELS {
      LabelsReturnExactly(job);
    } else if JOB_SCHEMA[i].Leaf? && JOB_SCHEMA[i].kind.KString? {
      PlainLeafReturns(JOB_SCHEMA[i], job[i]);
    }
  }

  lemma {:induction false} CarriedIsTheDomain(job: seq<Value>)
    requires FitsAll(JOB_SCHEMA, job)
    ensures AllInDomain(JOB_SCHEMA, job) <==> Carried(job)
  {
    forall i | 0 <= i < |JOB_SCHEMA| ensures InDomain(JOB_SCHEMA[i], job[i]) <==> FieldCarried(job, i) {
      FieldReturns(job, i);
    }
    if forall i :: 0 <= i < |JOB_SCHEMA| ==> FieldCarried(job, i) {
      assert FieldCarried(job, ENVIRONMENT) && FieldCarried(job, SOURCE_INFO) && FieldCarried(job, SOURCE_SPLICE);
      assert FieldCarried(job, SIDECAR_ASSETS) && FieldCarried(job, LABELS);
    }
  }

  /** The destination that GetJob prepares. */
  function Prepared(id: string): (dst: seq<Value>)
    ensures FitsAll(JOB_SCHEMA, dst)
  {
    Zeros(JOB_SCHEMA)[0 := Str(id)]
  }

  lemma {:induction false} EveryJobIsSaved(job: seq<Value>)
    requires FitsAll(JOB_SCHEMA, job)
    ensures SaveFields(JOB_SCHEMA, job, []).Success?
  {
    forall i | 0 <= i < |JOB_SCHEMA| ensures Savable(JOB_SCHEMA[i], job[i]) {
      assert Fits(JOB_SCHEMA[i], job[i]);
    }
    SaveSucceedsExactlyWhenSavable(JOB_SCHEMA, job, []);
  }

  lemma {:induction false} ZerosAt(fs: seq<Field>, i: nat)
    requires i < |fs|
    ensures Zeros(fs)[i] == Zero(fs[i])
    decreases |fs|
  {
    var n := |fs| - 1;
    if i == n {
    } else {
      ZerosAt(fs[..n], i);
    }
  }

  lemma {:induction false} FlatBlanks(fs: seq<Field>, vs: seq<Value>)
    requires FitsAll(fs, vs) && forall i :: 0 <= i < |fs| ==> !fs[i].ExpandStruct?
    ensures Blanks(fs, vs) == Zeros(fs)
    decreases |fs|
  {
    if fs == [] {
    } else {
      var n := |fs| - 1;
      FlatBlanks(fs[..n], vs[..n]);
    }
  }

  /** Up to its id, the prepared job is the blank of any job. */
  lemma {:induction false} PreparedIsBlank(job: seq<Value>, id: string, i: nat)
    requires FitsAll(JOB_SCHEMA, job) && 0 < i < |JOB_SCHEMA|
    ensures Prepared(id)[i] == Blank(JOB_SCHEMA[i], job[i])
  {
    var f, v := JOB_SCHEMA[i], job[i];
    assert Fits(f, v);
    ZerosAt(JOB_SCHEMA, i);
    if f.ExpandStruct? {
      FlatBlanks(f.sub, v.fields);
    }
  }

  lemma {:induction false} OverlayOnPrepared(job: seq<Value>, id: string)
    requires FitsAll(JOB_SCHEMA, job)
    ensures Overlays(JOB_SCHEMA, job, Prepared(id)) == Overlays(JOB_SCHEMA, job, Blanks(JOB_SCHEMA, job))
  {
    var left, right := Overlays(JOB_SCHEMA, job, Prepared(id)), Overlays(JOB_SCHEMA, job, Blanks(JOB_SCHEMA, job));
    forall i | 0 <= i < |JOB_SCHEMA| ensures left[i] == right[i] {
      OverlaysAt(JOB_SCHEMA, job, Prepared(id), i);
      OverlaysAt(JOB_SCHEMA, job, Blanks(JOB_SCHEMA, job), i);
      BlanksAt(JOB_SCHEMA, job, i);
      if i == 0 {
        assert JOB_SCHEMA[0] == Leaf("jobID", false, KString);
      } else {
        PreparedIsBlank(job, id, i);
      }
    }
  }

  lemma {:induction false} JobIsExpandable(job: seq<Value>)
    requires FitsAll(JOB_SCHEMA, job)
    ensures AllExpandable(JOB_SCHEMA, job)
  {
    forall i | 0 <= i < |JOB_SCHEMA| ensures Expandable(JOB_SCHEMA[i], job[i]) {
      assert Fits(JOB_SCHEMA[i], job[i]);
    }
  }

  /** What GetJob answers for a job that CreateJob saved. */
  lemma {:induction false} SavedJobReads(job: seq<Value>, id: string)
    requires FitsAll(JOB_SCHEMA, job) && SaveFields(JOB_SCHEMA, job, []).Success?
    ensures LoadFields(JOB_SCHEMA, SaveFields(JOB_SCHEMA, job, []).value, Prepared(id), [])
         == Success(Overlays(JOB_SCHEMA, job, Prepared(id)))
  {
    SchemaIsWellFormed();
    JobIsExpandable(Prepared(id));
    FreshSaveOverlaysDestination(JOB_SCHEMA, job, Prepared(id));
  }

  /** Every job can be saved, and GetJob answers it as it was exactly when it is carried. */
  lemma {:induction false} JobReturnsExactlyWhenCarried(job: seq<Value>, id: string)
    requires FitsAll(JOB_SCHEMA, job)
    ensures SaveFields(JOB_SCHEMA, job, []).Success?
    ensures LoadFields(JOB_SCHEMA, SaveFields(JOB_SCHEMA, job, []).value, Prepared(id), []) == Success(job)
       <==> Carried(job)
  {
    EveryJobIsSaved(job);
    SavedJobReads(job, id);
    OverlayOnPrepared(job, id);
    JobIsExpandable(job);
    OverlaysOnBlanks(JOB_SCHEMA, job, []);
    CarriedIsTheDomain(job);
  }

  /** Whatever source info a job was saved with, it is answered without. */
  lemma {:induction false} SourceInfoIsLost(job: seq<Value>, id: string)
    requires FitsAll(JOB_SCHEMA, job)
    ensures SaveFields(JOB_SCHEMA, job, []).Success?
    ensures var r := LoadFields(JOB_SCHEMA, SaveFields(JOB_SCHEMA, job, []).value, Prepared(id), []);
      r.Success? && r.value[SOURCE_INFO] == Blob(NO_FILE)
  {
    EveryJobIsSaved(job);
    SavedJobReads(job, id);
    OverlaysAt(JOB_SCHEMA, job, Prepared(id), SOURCE_INFO);
    ZerosAt(JOB_SCHEMA, SOURCE_INFO);
  }

  /** A job whose source is a high-definition file, and nothing else. */
  function JobWithSourceInfo(): (job: seq<Value>)
    ensures FitsAll(JOB_SCHEMA, job)
  {
    Zeros(JOB_SCHEMA)[SOURCE_INFO := Blob("{1920 1080 25 4096 progressive}")]
  }

  /** It is saved, and answered with another source. */
  lemma {:induction false} SourceInfoComesBackEmpty(id: string)
    ensures var job := JobWithSourceInfo();
      var saved := SaveFields(JOB_SCHEMA, job, []);
      && saved.Success?
      && LoadFields(JOB_SCHEMA, saved.value, Prepared(id), []).Success?
      && LoadFields(JOB_SCHEMA, saved.value, Prepared(id), []).value[SOURCE_INFO] == Blob(NO_FILE) != job[SOURCE_INFO]
  {
    var job := JobWithSourceInfo();
    SourceInfoIsLost(job, id);
    assert |job[SOURCE_INFO].text| != |NO_FILE|;
  }

  // ---------------------------------------------------------------- the keys of a job's hash

  ghost predicate Stores(h: Hash, key: string, text: string) {
    key in h && h[key] == text
  }

  /** A text field of the job, by its place and its key. */
  lemma {:induction false} FieldStored(job: seq<Value>, i: nat, key: string)
    requires FitsAll(JOB_SCHEMA, job) && i < |JOB_SCHEMA|
    requires JOB_SCHEMA[i].Leaf? && JOB_SCHEMA[i].name == key && key != ""
    ensures SaveFields(JOB_SCHEMA, job, []).Success?
    ensures !(JOB_SCHEMA[i].omitEmpty && Printed(job[i]) == "") ==>
      Stores(SaveFields(JOB_SCHEMA, job, []).value, key, Printed(job[i]))
  {
    EveryJobIsSaved(job);
    SchemaIsWellFormed();
    TopKey(key);
    SavedAt(JOB_SCHEMA, job, [], i, key);
  }

  ghost predicate FirstTexts(h: Hash, id: string, name: string, providerName: string, providerJobID: string) {
    && Stores(h, "jobID", id)
    && (name != "" ==> Stores(h, "name", name))
    && Stores(h, "providerName", providerName)
    && Stores(h, "providerJobID", providerJobID)
  }

  ghost predicate LaterTexts(h: Hash, report: string, creationTime: string, source: string, basePath: string) {
    && (report != "" ==> Stores(h, "execution-cfg", report))
    && Stores(h, "creationTime", creationTime)
    && Stores(h, "source", source)
    && (basePath != "" ==> Stores(h, "destbasepath", basePath))
  }

  lemma {:induction false} TextStored(job: seq<Value>, i: nat, key: string, text: string)
    requires FitsAll(JOB_SCHEMA, job) && i < |JOB_SCHEMA|
    requires JOB_SCHEMA[i].Leaf? && JOB_SCHEMA[i].name == key && key != "" && job[i] == Str(text)
    ensures SaveFields(JOB_SCHEMA, job, []).Success?
    ensures text != "" || !JOB_SCHEMA[i].omitEmpty ==> Stores(SaveFields(JOB_SCHEMA, job, []).value, key, text)
  {
    FieldStored(job, i, key);
  }

  lemma {:induction false} IdStored(job: seq<Value>, h: Hash, text: string)
    requires FitsAll(JOB_SCHEMA, job) && SaveFields(JOB_SCHEMA, job, []) == Success(h) && job[0] == Str(text)
    ensures Stores(h, "jobID", text)
  {
    TextStored(job, 0, "jobID", text);
  }

  lemma {:induction false} NameStored(job: seq<Value>, h: Hash, text: string)
    requires FitsAll(JOB_SCHEMA, job) && SaveFields(JOB_SCHEMA, job, []) == Success(h) && job[1] == Str(text)
    ensures text != "" ==> Stores(h, "name", text)
  {
    TextStored(job, 1, "name", text);
  }

  lemma {:induction false} ProviderNameStored(job: seq<Value>, h: Hash, text: string)
    requires FitsAll(JOB_SCHEMA, job) && SaveFields(JOB_SCHEMA, job, []) == Success(h) && job[2] == Str(text)
    ensures Stores(h, "providerName", text)
  {
    TextStored(job, 2, "providerName", text);
  }

  lemma {:induction false} ProviderJobIDStored(job: seq<Value>, h: Hash, text: string)
    requires FitsAll(JOB_SCHEMA, job) && SaveFields(JOB_SCHEMA, job, []) == Success(h) && job[3] == Str(text)
    ensures Stores(h, "providerJobID", text)
  {
    TextStored(job, 3, "providerJobID", text);
  }

  lemma {:induction false} ReportStored(job: seq<Value>, h: Hash, text: string)
    requires FitsAll(JOB_SCHEMA, job) && SaveFields(JOB_SCHEMA, job, []) == Success(h) && job[7] == Str(text)
    ensures text != "" ==> Stores(h, "execution-cfg", text)
  {
    TextStored(job, 7, "execution-cfg", text);
  }

  lemma {:induction false} CreationTimeStored(job: seq<Value>, h: Hash, text: string)
    requires FitsAll(JOB_SCHEMA, job) && SaveFields(JOB_SCHEMA, job, []) == Success(h) && job[8] == Str(text)
    ensures Stores(h, "creationTime", text)
  {
    TextStored(job, 8, "creationTime", text);
  }

  lemma {:induction false} SourceStored(job: seq<Value>, h: Hash, text: string)
    requires FitsAll(JOB_SCHEMA, job) && SaveFields(JOB_SCHEMA, job, []) == Success(h) && job[9] == Str(text)
    ensures Stores(h, "source", text)
  {
    TextStored(job, 9, "source", text);
  }

  lemma {:induction false} BasePathStored(job: seq<Value>, h: Hash, text: string)
    requires FitsAll(JOB_SCHEMA, job) && SaveFields(JOB_SCHEMA, job, []) == Success(h) && job[12] == Str(text)
    ensures text != "" ==> Stores(h, "destbasepath", text)
  {
    TextStored(job, 12, "destbasepath", text);
  }

  /** Each text of a job is stored under its own key; some are left out when they are empty. */
  lemma {:induction false} FirstStoredByTheirKeys(job: seq<Value>, h: Hash, id: string, name: string,
          providerName: string, providerJobID: string)
    requires FitsAll(JOB_SCHEMA, job) && SaveFields(JOB_SCHEMA, job, []) == Success(h)
    requires job[0] == Str(id) && job[1] == Str(name) && job[2] == Str(providerName) && job[3] == Str(providerJobID)
    ensures FirstTexts(h, id, name, providerName, providerJobID)
  {
    IdStored(job, h, id);
    NameStored(job, h, name);
    ProviderNameStored(job, h, providerName);
    ProviderJobIDStored(job, h, providerJobID);
  }

  lemma {:induction false} LaterStoredByTheirKeys(job: seq<Value>, h: Hash, report: string, creationTime: string,
          source: string, basePath: string)
    requires FitsAll(JOB_SCHEMA, job) && SaveFields(JOB_SCHEMA, job, []) == Success(h)
    requires job[7] == Str(report) && job[8] == Str(creationTime) && job[9] == Str(source) && job[12] == Str(basePath)
    ensures LaterTexts(h, report, creationTime, source, basePath)
  {
    ReportStored(job, h, report);
    CreationTimeStored(job, h, creationTime);
    SourceStored(job, h, source);
    BasePathStored(job, h, basePath);
  }
}
