/** From the outputs of a job to its element groups, and the task graph they give. */
module Assemblers {
  import opened Wrappers
  import opened MapOrders
  import opened Decimal
  import opened Elements
  import opened JobGraph
  import opened AudioElements

  datatype Output = Output(presetName: string, fileName: string)

  datatype OutputCfg = OutputCfg(preset: Preset, fileName: string)

  datatype JobError =
    | UnknownStorage | BadFeatures | PresetNotFound | MixedDolbyVision | Unbuildable(error: BuildError)

  type Cfgs = map<string, OutputCfg>

  // ---------------------------------------------------------------- output configurations

  /** Output `i` is the last one to name its preset. */
  predicate LastOfItsPreset(outputs: seq<Output>, i: nat) {
    i < |outputs| && forall j :: i < j < |outputs| ==> outputs[j].presetName != outputs[i].presetName
  }

  ghost predicate Names(outputs: seq<Output>, n: string) {
    exists i :: 0 <= i < |outputs| && outputs[i].presetName == n
  }

  /** One configuration per preset name, that of the last output to name it. */
  ghost predicate CfgsOf(outputs: seq<Output>, repository: map<string, Preset>, cfgs: Cfgs) {
    && (forall n :: n in cfgs ==> Names(outputs, n))
    && (forall i :: 0 <= i < |outputs| ==> outputs[i].presetName in repository && outputs[i].presetName in cfgs)
    && (forall i: nat {:trigger LastOfItsPreset(outputs, i)} :: LastOfItsPreset(outputs, i) ==>
          cfgs[outputs[i].presetName] == OutputCfg(repository[outputs[i].presetName], outputs[i].fileName))
  }

  lemma OneMoreOutput(outputs: seq<Output>, repository: map<string, Preset>, cfgs: Cfgs, o: Output)
    requires CfgsOf(outputs, repository, cfgs) && o.presetName in repository
    ensures CfgsOf(outputs + [o], repository, cfgs[o.presetName := OutputCfg(repository[o.presetName], o.fileName)])
  {
    var more := outputs + [o];
    assert more[|outputs|].presetName == o.presetName;
    forall n | Names(outputs, n) ensures Names(more, n) {
      var i :| 0 <= i < |outputs| && outputs[i].presetName == n;
      assert more[i].presetName == n;
    }
    forall i: nat | LastOfItsPreset(more, i) && i < |outputs|
      ensures LastOfItsPreset(outputs, i) && more[i].presetName != o.presetName
    {
      assert more[|outputs|].presetName != more[i].presetName;
      assert forall j :: i < j < |outputs| ==> more[j] == outputs[j];
    }
  }

  lemma {:induction false} LastIndex(outputs: seq<Output>, i: nat) returns (k: nat)
    requires i < |outputs|
    ensures LastOfItsPreset(outputs, k) && i <= k && outputs[k].presetName == outputs[i].presetName
    decreases |outputs| - i
  {
    if j :| i < j < |outputs| && outputs[j].presetName == outputs[i].presetName {
      k := LastIndex(outputs, j);
    } else {
      k := i;
    }
  }

  /** Every output keeps its file exactly when no two outputs with one preset name different files. */
  lemma OutputsSurviveExactly(outputs: seq<Output>, repository: map<string, Preset>, cfgs: Cfgs)
    requires CfgsOf(outputs, repository, cfgs)
    ensures (forall i :: 0 <= i < |outputs| ==> cfgs[outputs[i].presetName].fileName == outputs[i].fileName) <==>
      forall i, j :: 0 <= i < j < |outputs| && outputs[i].presetName == outputs[j].presetName ==>
        outputs[i].fileName == outputs[j].fileName
  {
    if forall i, j :: 0 <= i < j < |outputs| && outputs[i].presetName == outputs[j].presetName ==>
         outputs[i].fileName == outputs[j].fileName {
      forall i | 0 <= i < |outputs| ensures cfgs[outputs[i].presetName].fileName == outputs[i].fileName {
        var k := LastIndex(outputs, i);
      }
    }
  }

  /** Outputs are kept by preset name: a later output with the same preset replaces an earlier one. */
  method OutputCfgsFrom(outputs: seq<Output>, repository: map<string, Preset>) returns (r: Result<Cfgs, JobError>)
    ensures r.Failure? ==>
      r.error == PresetNotFound && exists i :: 0 <= i < |outputs| && outputs[i].presetName !in repository
    ensures r.Success? ==> CfgsOf(outputs, repository, r.value)
  {
    var cfgs: Cfgs := map[];
    for k := 0 to |outputs|
      invariant CfgsOf(outputs[..k], repository, cfgs)
    {
      var name := outputs[k].presetName;
      if name !in repository {
        return Failure(PresetNotFound);
      }
      OneMoreOutput(outputs[..k], repository, cfgs, outputs[k]);
      assert outputs[..k + 1] == outputs[..k] + [outputs[k]];
      cfgs := cfgs[name := OutputCfg(repository[name], outputs[k].fileName)];
    }
    assert outputs[..|outputs|] == outputs;
    r := Success(cfgs);
  }

  ghost predicate HasKind(cfgs: Cfgs, dolbyVision: bool) {
    exists n :: n in cfgs && cfgs[n].preset.dolbyVision == dolbyVision
  }

  /** Whether every preset is Dolby Vision; presets of both kinds are refused. */
  method DolbyVisionOnAllPresets(cfgs: Cfgs) returns (r: Result<bool, JobError>)
    ensures r.Failure? <==> HasKind(cfgs, true) && HasKind(cfgs, false)
    ensures r.Failure? ==> r.error == MixedDolbyVision
    ensures r.Success? ==> (r.value <==> cfgs != map[] && !HasKind(cfgs, false))
  {
    var dolbyFound, otherFound := false, false;
    var pending := cfgs.Keys;
    while pending != {}
      invariant pending <= cfgs.Keys
      invariant dolbyFound <==> exists n :: n in cfgs && n !in pending && cfgs[n].preset.dolbyVision
      invariant otherFound <==> exists n :: n in cfgs && n !in pending && !cfgs[n].preset.dolbyVision
      decreases |pending|
    {
      var n :| n in pending;
      pending := pending - {n};
      if cfgs[n].preset.dolbyVision {
        dolbyFound := true;
      } else {
        otherFound := true;
      }
    }
    if dolbyFound && otherFound {
      return Failure(MixedDolbyVision);
    }
    if cfgs != map[] {
      var some :| some in cfgs.Keys;
    }
    r := Success(dolbyFound && !otherFound);
  }

  // ---------------------------------------------------------------- element groups

  const TRANSCODE_TASK := "transcode_task_"

  function TranscodeElement(i: nat, fileName: string): Element {
    Element(TRANSCODE_TASK + Digits(i), Transcode(fileName))
  }

  /** `elements` are the transcodes of the configurations named, numbered in that order. */
  ghost predicate Built(names: seq<string>, cfgs: Cfgs, elements: seq<Element>) {
    |elements| == |names|
    && forall i :: 0 <= i < |names| ==> names[i] in cfgs && elements[i] == TranscodeElement(i, cfgs[names[i]].fileName)
  }

  predicate Buildable(p: Preset) {
    p.transcodable && (p.audio == NO_AUDIO || BitrateParses(p.audio))
  }

  function WithoutAudio(p: Preset): Preset {
    p.(audio := NO_AUDIO)
  }

  function TranscodeElementFrom(i: nat, cfg: OutputCfg): Result<Element, JobError> {
    if Buildable(cfg.preset) then Success(TranscodeElement(i, cfg.fileName))
    else Failure(Unbuildable(UnsupportedOutput))
  }

  /** The loop over a map of configurations, in whatever order it is read. It fails exactly when one
      of them cannot be built. */
  method BuildTranscodes(cfgs: Cfgs) returns (r: Result<seq<Element>, JobError>, ghost names: seq<string>)
    ensures r.Success? <==> forall n :: n in cfgs ==> Buildable(cfgs[n].preset)
    ensures r.Failure? ==> r.error.Unbuildable?
    ensures r.Success? ==> Ordering(names, cfgs.Keys) && Built(names, cfgs, r.value)
  {
    var elements: seq<Element> := [];
    var idx := 0;
    var pending := cfgs.Keys;
    names := [];
    while pending != {}
      invariant pending <= cfgs.Keys && Ordering(names, cfgs.Keys - pending)
      invariant idx == |elements| && Built(names, cfgs, elements)
      invariant forall n :: n in cfgs && n !in pending ==> Buildable(cfgs[n].preset)
      decreases |pending|
    {
      var n :| n in pending;
      var element := TranscodeElementFrom(idx, cfgs[n]);
      if element.Failure? {
        return Failure(element.error), names;
      }
      pending := pending - {n};
      elements := elements + [element.value];
      idx := idx + 1;
      names := names + [n];
    }
    assert cfgs.Keys - {} == cfgs.Keys;
    r := Success(elements);
  }

  /** The default assembler: one group, one transcode per configuration. */
  method DefaultElementAssembler(cfgs: Cfgs) returns (r: Result<Layers, JobError>, ghost names: seq<string>)
    ensures r.Success? <==> forall n :: n in cfgs ==> Buildable(cfgs[n].preset)
    ensures r.Failure? ==> r.error.Unbuildable?
    ensures r.Success? ==> Ordering(names, cfgs.Keys) && |r.value| == 1 && Built(names, cfgs, r.value[0])
  {
    var elements;
    elements, names := BuildTranscodes(cfgs);
    r := if elements.Success? then Success([elements.value]) else Failure(elements.error);
  }

  // ---------------------------------------------------------------- Dolby Vision

  /** Each file of the configurations read so far has the preset of one that writes it. */
  ghost predicate ByFile(presets: Presets, cfgs: Cfgs, pending: set<string>) {
    && (forall n :: n in cfgs && n !in pending ==> cfgs[n].fileName in presets)
    && (forall f :: f in presets ==> Writes(cfgs, presets[f], f))
  }

  ghost predicate Writes(cfgs: Cfgs, p: Preset, f: string) {
    exists n :: n in cfgs && cfgs[n] == OutputCfg(p, f)
  }

  ghost predicate Silenced(silent: Cfgs, presets: Presets) {
    silent.Keys == presets.Keys
    && forall f :: f in presets ==> silent[f] == OutputCfg(WithoutAudio(presets[f]), f)
  }

  ghost predicate AllTranscodable(cfgs: Cfgs) {
    forall n :: n in cfgs ==> cfgs[n].preset.transcodable
  }

  ghost predicate FileTranscodable(cfgs: Cfgs, f: string) {
    exists n :: n in cfgs && cfgs[n].fileName == f && cfgs[n].preset.transcodable
  }

  /** Every file has a configuration that writes it and can be transcoded. */
  ghost predicate EveryFileTranscodable(cfgs: Cfgs) {
    forall n :: n in cfgs ==> FileTranscodable(cfgs, cfgs[n].fileName)
  }

  /** Configurations by file name, without their audio: of two with one file name, either may stay. */
  method PresetsByFile(cfgs: Cfgs) returns (presets: Presets, silent: Cfgs)
    ensures ByFile(presets, cfgs, {}) && Silenced(silent, presets)
  {
    presets, silent := map[], map[];
    var pending := cfgs.Keys;
    while pending != {}
      invariant pending <= cfgs.Keys && ByFile(presets, cfgs, pending) && Silenced(silent, presets)
      decreases |pending|
    {
      var n :| n in pending;
      pending := pending - {n};
      var cfg := cfgs[n];
      assert Writes(cfgs, cfg.preset, cfg.fileName);
      presets := presets[cfg.fileName := cfg.preset];
      silent := silent[cfg.fileName := OutputCfg(WithoutAudio(cfg.preset), cfg.fileName)];
    }
  }

  const DOLBY_VISION_TASK := "dolby_vision_task"

  /** The transcodes of distinct files, numbered in their order. */
  ghost predicate Transcodes(files: seq<string>, elements: seq<Element>) {
    |elements| == |files| && forall i :: 0 <= i < |files| ==> elements[i] == TranscodeElement(i, files[i])
  }

  /** The transcodes of a Dolby Vision job: one per file name, without audio. */
  method SilentTranscodes(presets: Presets, silent: Cfgs)
      returns (r: Result<seq<Element>, JobError>, ghost files: seq<string>)
    requires Silenced(silent, presets)
    ensures r.Success? <==> forall f :: f in presets ==> presets[f].transcodable
    ensures r.Failure? ==> r.error.Unbuildable?
    ensures r.Success? ==> Ordering(files, presets.Keys) && Transcodes(files, r.value)
  {
    r, files := BuildTranscodes(silent);
    assert forall f :: f in presets ==> (Buildable(silent[f].preset) <==> presets[f].transcodable);
  }

  ghost predicate LegacyGroups(cfgs: Cfgs, sourcePath: string, presets: Presets, files: seq<string>,
                               transcodes: seq<Element>, groups: Layers) {
    && ByFile(presets, cfgs, {}) && Ordering(files, presets.Keys) && Transcodes(files, transcodes)
    && groups == [[Element(DOLBY_VISION_TASK, Encode(transcodes, [sourcePath]))]]
  }

  /** The assembler in use: one element, which holds a numbered transcode for each file and is muxed
      with the source's audio. */
  method DolbyVisionLegacyElementAssembler(cfgs: Cfgs, sourcePath: string) returns (r: Result<Layers, JobError>)
    ensures AllTranscodable(cfgs) ==> r.Success?
    ensures r.Success? ==> EveryFileTranscodable(cfgs)
    ensures r.Failure? ==> r.error.Unbuildable?
    ensures r.Success? ==>
      exists presets, files, transcodes :: LegacyGroups(cfgs, sourcePath, presets, files, transcodes, r.value)
  {
    var presets, silent := PresetsByFile(cfgs);
    var elements;
    ghost var files;
    elements, files := SilentTranscodes(presets, silent);
    StayingPresets(cfgs, presets);
    if elements.Failure? {
      return Failure(elements.error);
    }
    var groups := [[Element(DOLBY_VISION_TASK, Encode(elements.value, [sourcePath]))]];
    assert LegacyGroups(cfgs, sourcePath, presets, files, elements.value, groups);
    r := Success(groups);
  }

  const MEZZANINE_QC_ELEMENT := Element("mezzanine_qc", MezzanineQC)

  /** The audio streams muxed with a preset's video. */
  function AudioStreams(hash: Hasher, p: Preset, files: map<nat, string>): seq<string> {
    if p.audio != NO_AUDIO && hash(p.audio) in files then [files[hash(p.audio)]] else []
  }

  function EncodeElement(i: nat, f: string, streams: seq<string>): Element {
    Element("dolby_vision_" + Digits(i), Encode([TranscodeElement(i, f)], streams))
  }

  function EncodeAt(hash: Hasher, presets: Presets, audioFiles: map<nat, string>, files: seq<string>, i: nat): Element
    requires i < |files| && files[i] in presets
  {
    EncodeElement(i, files[i], AudioStreams(hash, presets[files[i]], audioFiles))
  }

  ghost predicate Encodes(hash: Hasher, presets: Presets, audioFiles: map<nat, string>, files: seq<string>,
                          encodes: seq<Element>) {
    && |encodes| == |files| && Ordering(files, presets.Keys)
    && forall i :: 0 <= i < |files| ==> encodes[i] == EncodeAt(hash, presets, audioFiles, files, i)
  }

  method EncodesOf(hash: Hasher, presets: Presets, transcodes: seq<Element>, audioFiles: map<nat, string>,
                   ghost files: seq<string>) returns (encodes: seq<Element>)
    requires Transcodes(files, transcodes) && Ordering(files, presets.Keys)
    ensures Encodes(hash, presets, audioFiles, files, encodes)
  {
    encodes := [];
    for i := 0 to |transcodes|
      invariant |encodes| == i
      invariant forall k :: 0 <= k < i ==> encodes[k] == EncodeAt(hash, presets, audioFiles, files, k)
    {
      var streams := AudioStreams(hash, presets[transcodes[i].payload.file], audioFiles);
      encodes := encodes + [Element("dolby_vision_" + Digits(i), Encode([transcodes[i]], streams))];
    }
  }

  /** Quality control and audio first, then one encode per file. */
  ghost predicate DolbyVisionGroups(hash: Hasher, presets: Presets, configs: seq<AudioConfig>, files: seq<string>,
                                    groups: Layers) {
    && OnePerHash(hash, Used(presets), configs)
    && |groups| == 2 && groups[0] == [MEZZANINE_QC_ELEMENT] + AudioElementsOf(configs)
    && Encodes(hash, presets, FilesOf(hash, configs), files, groups[1])
  }

  /** What holds of the configurations that stay, and of all of them. */
  lemma StayingPresets(cfgs: Cfgs, presets: Presets)
    requires ByFile(presets, cfgs, {})
    ensures AllTranscodable(cfgs) ==> forall f :: f in presets ==> presets[f].transcodable
    ensures (forall f :: f in presets ==> presets[f].transcodable) ==> EveryFileTranscodable(cfgs)
    ensures AllBitratesParse(cfgs) ==> forall c :: c in Used(presets) ==> BitrateParses(c)
  {
    if AllBitratesParse(cfgs) {
      forall c | c in Used(presets) ensures BitrateParses(c) {
        var f :| f in presets && presets[f].audio == c && c != NO_AUDIO;
        assert Writes(cfgs, presets[f], f);
      }
    }
    if forall f :: f in presets ==> presets[f].transcodable {
      forall n | n in cfgs ensures FileTranscodable(cfgs, cfgs[n].fileName) {
        assert Writes(cfgs, presets[cfgs[n].fileName], cfgs[n].fileName);
      }
    }
  }

  ghost predicate AllBitratesParse(cfgs: Cfgs) {
    forall n :: n in cfgs ==> cfgs[n].preset.audio == NO_AUDIO || BitrateParses(cfgs[n].preset.audio)
  }

  /** The assembler that is switched off. */
  method DolbyVisionElementAssembler(hash: Hasher, cfgs: Cfgs) returns (r: Result<Layers, JobError>)
    ensures AllTranscodable(cfgs) && AllBitratesParse(cfgs) ==> r.Success?
    ensures r.Success? ==> EveryFileTranscodable(cfgs)
    ensures r.Failure? ==> r.error.Unbuildable?
    ensures r.Success? ==> exists presets, configs, files ::
      ByFile(presets, cfgs, {}) && DolbyVisionGroups(hash, presets, configs, files, r.value)
  {
    var presets, silent := PresetsByFile(cfgs);
    var audio, transcodes;
    ghost var configs, files;
    audio, configs := AudioElementsFrom(hash, presets);
    transcodes, files := SilentTranscodes(presets, silent);
    StayingPresets(cfgs, presets);
    if audio.Failure? || transcodes.Failure? {
      return Failure(if audio.Failure? then Unbuildable(audio.error) else transcodes.error);
    }
    var encodes := EncodesOf(hash, presets, transcodes.value, audio.value.1, files);
    var groups := [[MEZZANINE_QC_ELEMENT] + audio.value.0, encodes];
    assert DolbyVisionGroups(hash, presets, configs, files, groups);
    r := Success(groups);
  }

  /** Without hash collisions every preset with audio is muxed with its own configuration's encode,
      which is among the elements that run before. */
  lemma MuxedWithOwnAudio(hash: Hasher, presets: Presets, configs: seq<AudioConfig>, f: string) returns (i: nat)
    requires OnePerHash(hash, Used(presets), configs) && NoCollision(hash, Used(presets))
    requires f in presets && presets[f].audio != NO_AUDIO
    ensures i < |configs| && configs[i] == presets[f].audio
    ensures AudioElementsOf(configs)[i].payload == AudioEncode(AudioFile(i, configs[i]), presets[f].audio)
    ensures AudioStreams(hash, presets[f], FilesOf(hash, configs)) == [AudioFile(i, configs[i])]
  {
    i := Finds(hash, Used(presets), configs, presets[f].audio);
  }

  // ---------------------------------------------------------------- the graph of a job

  /** No two UIDs are equal, and each starts with one of `initials`. */
  ghost predicate Named(es: seq<Element>, initials: string) {
    Distinct(es) && forall i :: 0 <= i < |es| ==> es[i].uid != "" && es[i].uid[0] in initials
  }

  lemma NamedOne(e: Element)
    requires e.uid != ""
    ensures Named([e], [e.uid[0]])
  {
  }

  lemma NamedJoin(a: seq<Element>, b: seq<Element>, initials: string, others: string)
    requires Named(a, initials) && Named(b, others) && forall c :: c in initials ==> c !in others
    ensures Named(a + b, initials + others)
  {
    var es := a + b;
    forall i, j | 0 <= i < j < |es| ensures es[i].uid != es[j].uid {
      if i < |a| <= j {
        assert es[i].uid[0] in initials && es[j].uid[0] in others;
      }
    }
  }

  lemma NamedNumbered(es: seq<Element>, prefix: string)
    requires prefix != "" && forall i :: 0 <= i < |es| ==> es[i].uid == prefix + Digits(i)
    ensures Named(es, [prefix[0]])
  {
    forall i, j | 0 <= i < j < |es| ensures es[i].uid != es[j].uid {
      assert es[i].uid[|prefix|..] == Digits(i) && es[j].uid[|prefix|..] == Digits(j);
      DigitsInjective(i, j);
    }
  }

  lemma OneGroup(group: seq<Element>)
    ensures Flatten([group]) == group
  {
    FlattenSnoc([], group);
  }

  lemma {:induction false} FlattenFirst(first: seq<Element>, groups: Layers)
    ensures Flatten([first] + groups) == first + Flatten(groups)
  {
    if groups == [] {
      OneGroup(first);
      assert [first] + groups == [first];
    } else {
      var n := |groups| - 1;
      FlattenFirst(first, groups[..n]);
      assert ([first] + groups)[..n + 1] == [first] + groups[..n];
    }
  }

  lemma {:induction false} NamedGroups(groups: Layers, initials: string, packaged: bool)
    requires Named(Flatten(groups), initials) && 's' !in initials && 'p' !in initials
    ensures Distinct(Flatten(AllLayers(groups, packaged)))
  {
    FlattenFirst([SOURCE], groups);
    assert AllLayers(groups, false) == [[SOURCE]] + groups;
    NamedOne(SOURCE);
    NamedJoin([SOURCE], Flatten(groups), "s", initials);
    if packaged {
      PackagingLayer(groups);
      NamedOne(PACKAGER);
      NamedJoin([SOURCE] + Flatten(groups), [PACKAGER], "s" + initials, "p");
    }
  }

  /** The UIDs of a job are pairwise distinct, with any of the three assemblers and with or without packaging. */
  lemma DefaultJobIsDistinct(names: seq<string>, cfgs: Cfgs, elements: seq<Element>, packaged: bool)
    requires Built(names, cfgs, elements)
    ensures Distinct(Flatten(AllLayers([elements], packaged)))
  {
    OneGroup(elements);
    NamedNumbered(elements, TRANSCODE_TASK);
    NamedGroups([elements], "t", packaged);
  }

  lemma LegacyJobIsDistinct(payload: Payload, packaged: bool)
    ensures Distinct(Flatten(AllLayers([[Element(DOLBY_VISION_TASK, payload)]], packaged)))
  {
    OneGroup([Element(DOLBY_VISION_TASK, payload)]);
    NamedOne(Element(DOLBY_VISION_TASK, payload));
    NamedGroups([[Element(DOLBY_VISION_TASK, payload)]], "d", packaged);
  }

  lemma DolbyVisionJobIsDistinct(hash: Hasher, presets: Presets, configs: seq<AudioConfig>, files: seq<string>,
                                 groups: Layers, packaged: bool)
    requires DolbyVisionGroups(hash, presets, configs, files, groups)
    ensures Distinct(Flatten(AllLayers(groups, packaged)))
  {
    NamedFirstGroup(configs);
    NamedEncodes(hash, presets, FilesOf(hash, configs), files, groups[1]);
    NamedPair(groups, packaged);
  }

  lemma {:induction false} NamedPair(groups: Layers, packaged: bool)
    requires |groups| == 2 && Named(groups[0], "ma") && Named(groups[1], "d")
    ensures Distinct(Flatten(AllLayers(groups, packaged)))
  {
    NamedJoin(groups[0], groups[1], "ma", "d");
    TwoGroups(groups);
    assert "ma" + "d" == "mad";
    NamedGroups(groups, "mad", packaged);
  }

  lemma NamedEncodes(hash: Hasher, presets: Presets, audioFiles: map<nat, string>, files: seq<string>,
          encodes: seq<Element>)
    requires Encodes(hash, presets, audioFiles, files, encodes)
    ensures Named(encodes, "d")
  {
    NamedNumbered(encodes, "dolby_vision_");
  }

  lemma {:induction false} NamedFirstGroup(configs: seq<AudioConfig>)
    ensures Named([MEZZANINE_QC_ELEMENT] + AudioElementsOf(configs), "ma")
  {
    NamedOne(MEZZANINE_QC_ELEMENT);
    NamedNumbered(AudioElementsOf(configs), "audio_");
    NamedJoin([MEZZANINE_QC_ELEMENT], AudioElementsOf(configs), "m", "a");
    assert "m" + "a" == "ma";
  }

  lemma {:induction false} TwoGroups(groups: Layers)
    requires |groups| == 2
    ensures Flatten(groups) == groups[0] + groups[1]
  {
    OneGroup(groups[0]);
    FlattenSnoc([groups[0]], groups[1]);
    assert groups == [groups[0]] + [groups[1]];
  }
}
