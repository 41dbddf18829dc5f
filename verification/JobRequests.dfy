/** Hybrik's job request: from a job's outputs to the elements of its job and their connections. */
module JobRequests {
  import opened Wrappers
  import opened MapOrders
  import opened Elements
  import opened JobGraph
  import opened AudioElements
  import opened Assemblers

  // ---------------------------------------------------------------- what the outputs decide

  predicate Known(outputs: seq<Output>, repository: map<string, Preset>) {
    forall i :: 0 <= i < |outputs| ==> outputs[i].presetName in repository
  }

  predicate UsesKind(outputs: seq<Output>, repository: map<string, Preset>, dolbyVision: bool)
    requires Known(outputs, repository)
  {
    exists i :: 0 <= i < |outputs| && repository[outputs[i].presetName].dolbyVision == dolbyVision
  }

  predicate UsesBothKinds(outputs: seq<Output>, repository: map<string, Preset>)
    requires Known(outputs, repository)
  {
    UsesKind(outputs, repository, true) && UsesKind(outputs, repository, false)
  }

  /** A Dolby Vision preset is transcoded without its audio. */
  predicate Accepted(p: Preset) {
    if p.dolbyVision then p.transcodable else Buildable(p)
  }

  predicate AllAccepted(outputs: seq<Output>, repository: map<string, Preset>)
    requires Known(outputs, repository)
  {
    forall i :: 0 <= i < |outputs| ==> Accepted(repository[outputs[i].presetName])
  }

  ghost predicate CfgsAccepted(cfgs: Cfgs) {
    forall n :: n in cfgs ==> Accepted(cfgs[n].preset)
  }

  /** The configurations hold the presets of the outputs and no others. */
  lemma PresetsOfOutputs(outputs: seq<Output>, repository: map<string, Preset>, cfgs: Cfgs)
    requires CfgsOf(outputs, repository, cfgs)
    ensures forall i :: 0 <= i < |outputs| ==> cfgs[outputs[i].presetName].preset == repository[outputs[i].presetName]
    ensures forall n :: n in cfgs ==> n in repository && cfgs[n].preset == repository[n]
    ensures AllAccepted(outputs, repository) <==> CfgsAccepted(cfgs)
  {
    forall i | 0 <= i < |outputs|
      ensures cfgs[outputs[i].presetName].preset == repository[outputs[i].presetName]
    {
      var k := LastIndex(outputs, i);
    }
  }

  lemma KindsOfOutputs(outputs: seq<Output>, repository: map<string, Preset>, cfgs: Cfgs, dolbyVision: bool)
    requires CfgsOf(outputs, repository, cfgs)
    ensures UsesKind(outputs, repository, dolbyVision) <==> HasKind(cfgs, dolbyVision)
  {
    PresetsOfOutputs(outputs, repository, cfgs);
  }

  /** Outputs of different presets are written to different files. */
  predicate FilesApart(outputs: seq<Output>) {
    forall i, j :: 0 <= i < j < |outputs| && outputs[i].fileName == outputs[j].fileName ==>
      outputs[i].presetName == outputs[j].presetName
  }

  ghost predicate CfgFilesApart(cfgs: Cfgs) {
    forall n, m :: n in cfgs && m in cfgs && cfgs[n].fileName == cfgs[m].fileName ==> n == m
  }

  lemma OutputOf(outputs: seq<Output>, repository: map<string, Preset>, cfgs: Cfgs, n: string) returns (k: nat)
    requires CfgsOf(outputs, repository, cfgs) && n in cfgs
    ensures k < |outputs| && outputs[k].presetName == n && cfgs[n].fileName == outputs[k].fileName
  {
    assert Names(outputs, n);
    var i: nat :| i < |outputs| && outputs[i].presetName == n;
    k := LastIndex(outputs, i);
  }

  lemma FilesOfOutputs(outputs: seq<Output>, repository: map<string, Preset>, cfgs: Cfgs)
    requires CfgsOf(outputs, repository, cfgs)
    ensures FilesApart(outputs) ==> CfgFilesApart(cfgs)
  {
    forall n, m | FilesApart(outputs) && n in cfgs && m in cfgs && cfgs[n].fileName == cfgs[m].fileName
      ensures n == m
    {
      var k := OutputOf(outputs, repository, cfgs, n);
      var l := OutputOf(outputs, repository, cfgs, m);
    }
  }

  // ---------------------------------------------------------------- what a request holds

  /** The element transcodes to the file, by itself or as one of the transcodes it holds. */
  ghost predicate Carries(e: Element, f: string) {
    e.payload == Transcode(f) || (e.payload.Encode? && HasTranscode(e.payload.transcodes, f))
  }

  ghost predicate HasTranscode(transcodes: seq<Element>, f: string) {
    exists t :: 0 <= t < |transcodes| && transcodes[t].payload == Transcode(f)
  }

  ghost predicate Carried(group: seq<Element>, f: string) {
    exists k :: 0 <= k < |group| && Carries(group[k], f)
  }

  /** The files of the configurations are those that the group transcodes to. */
  ghost predicate ServesCfgs(group: seq<Element>, cfgs: Cfgs) {
    && (forall n :: n in cfgs ==> Carried(group, cfgs[n].fileName))
    && (forall f :: Carried(group, f) ==> WritesFile(cfgs, f))
  }

  ghost predicate WritesFile(cfgs: Cfgs, f: string) {
    exists n :: n in cfgs && cfgs[n].fileName == f
  }

  /** The files transcoded to are those of the outputs that are the last to name their presets. */
  ghost predicate ServesOutputs(group: seq<Element>, outputs: seq<Output>) {
    forall f :: Carried(group, f) <==> exists i: nat :: LastOfItsPreset(outputs, i) && outputs[i].fileName == f
  }

  /** The source, the group, and the packager if one is asked for; and from each to the next every edge. */
  ghost predicate SourceToPackager(request: Request, group: seq<Element>, packaged: bool) {
    && request.elements ==
         [Element("source_file", Assets)] + group + (if packaged then [Element("packager", Packaging)] else [])
    && forall u, v :: Edge(request.connections, u, v) <==>
         (u == "source_file" && IsUid(group, v)) || (packaged && IsUid(group, u) && v == "packager")
  }

  ghost predicate IsUid(group: seq<Element>, u: string) {
    exists k :: 0 <= k < |group| && group[k].uid == u
  }

  ghost predicate AllReachable(request: Request) {
    forall e :: e in request.elements ==> Reaches(request.connections, SOURCE.uid, e.uid)
  }

  lemma LayersOfOneGroup(group: seq<Element>, packaged: bool)
    ensures Flatten(AllLayers([group], packaged)) == [SOURCE] + group + (if packaged then [PACKAGER] else [])
  {
    OneGroup(group);
    FlattenFirst([SOURCE], [group]);
    assert AllLayers([group], false) == [[SOURCE]] + [group];
    if packaged {
      PackagingLayer([group]);
    }
  }

  lemma LayersByUid(group: seq<Element>, packaged: bool, k: nat, u: string)
    ensures InLayer(AllLayers([group], packaged), k, u) <==>
      || (k == 0 && u == SOURCE.uid)
      || (k == 1 && IsUid(group, u))
      || (k == 2 && packaged && u == PACKAGER.uid)
  {
    if k == 0 {
      assert Uids([SOURCE]) == [SOURCE.uid];
    } else if k == 1 {
      UidsOf(group, u);
    } else if k == 2 && packaged {
      assert Uids([PACKAGER]) == [PACKAGER.uid];
    }
  }

  lemma {:induction false} UidsOf(group: seq<Element>, u: string)
    ensures IsUid(group, u) <==> u in Uids(group)
  {
  }

  lemma {:induction false} EdgesOfOneGroup(group: seq<Element>, packaged: bool, u: string, v: string)
    ensures Edge(Links(AllLayers([group], packaged)), u, v) <==>
      (u == SOURCE.uid && IsUid(group, v)) || (packaged && IsUid(group, u) && v == PACKAGER.uid)
  {
    var layers := AllLayers([group], packaged);
    EdgesJoinNeighbours(layers, u, v);
    forall k: nat ensures Neighbours(layers, k, u, v) <==>
        (k == 0 && u == SOURCE.uid && IsUid(group, v))
        || (k == 1 && packaged && IsUid(group, u) && v == PACKAGER.uid)
    {
      LayersByUid(group, packaged, k, u);
      LayersByUid(group, packaged, k + 1, v);
    }
    if u == SOURCE.uid && IsUid(group, v) {
      assert Neighbours(layers, 0, u, v);
    }
    if packaged && IsUid(group, u) && v == PACKAGER.uid {
      assert Neighbours(layers, 1, u, v);
    }
  }

  method RequestFor(ghost cfgs: Cfgs, groups: Layers, packaged: bool) returns (request: Request)
    requires Sound(groups, cfgs, packaged) && |groups| == 1
    ensures Distinct(request.elements) && (cfgs != map[] ==> AllReachable(request))
    ensures SourceToPackager(request, groups[0], packaged)
  {
    request := CreateJobReq(groups, packaged);
    forall e | cfgs != map[] && e in request.elements ensures Reaches(request.connections, SOURCE.uid, e.uid) {
      WholeJobIsReachable(groups, packaged, e);
    }
    assert groups == [groups[0]];
    LayersOfOneGroup(groups[0], packaged);
    forall u, v ensures Edge(request.connections, u, v) <==>
        (u == SOURCE.uid && IsUid(groups[0], v)) || (packaged && IsUid(groups[0], u) && v == PACKAGER.uid)
    {
      EdgesOfOneGroup(groups[0], packaged, u, v);
    }
  }

  // ---------------------------------------------------------------- the groups of a job

  lemma DefaultServes(names: seq<string>, cfgs: Cfgs, elements: seq<Element>)
    requires Ordering(names, cfgs.Keys) && Built(names, cfgs, elements)
    ensures ServesCfgs(elements, cfgs)
  {
    forall n | n in cfgs ensures Carried(elements, cfgs[n].fileName) {
      var k :| 0 <= k < |names| && names[k] == n;
      assert Carries(elements[k], cfgs[n].fileName);
    }
    forall f | Carried(elements, f) ensures WritesFile(cfgs, f) {
      var k :| 0 <= k < |elements| && Carries(elements[k], f);
      assert cfgs[names[k]].fileName == f;
    }
  }

  lemma LegacyCarries(cfgs: Cfgs, presets: Presets, files: seq<string>, transcodes: seq<Element>, e: Element, f: string)
    requires ByFile(presets, cfgs, {}) && Ordering(files, presets.Keys) && Transcodes(files, transcodes)
    requires e.payload.Encode? && e.payload.transcodes == transcodes
    ensures Carries(e, f) <==> f in presets
    ensures f in presets ==> WritesFile(cfgs, f)
  {
    if f in presets {
      var k :| 0 <= k < |files| && files[k] == f;
      assert transcodes[k].payload == Transcode(f);
      assert Writes(cfgs, presets[f], f);
    }
    if Carries(e, f) {
      var t :| 0 <= t < |transcodes| && transcodes[t].payload == Transcode(f);
      assert files[t] == f;
    }
  }

  lemma LegacyServes(cfgs: Cfgs, sourcePath: string, presets: Presets, files: seq<string>, transcodes: seq<Element>,
                     groups: Layers)
    requires LegacyGroups(cfgs, sourcePath, presets, files, transcodes, groups)
    ensures ServesCfgs(groups[0], cfgs)
  {
    var e := groups[0][0];
    forall f ensures Carried(groups[0], f) <==> f in presets {
      LegacyCarries(cfgs, presets, files, transcodes, e, f);
      assert Carries(e, f) <==> Carries(groups[0][0], f);
    }
    forall f | f in presets ensures WritesFile(cfgs, f) {
      LegacyCarries(cfgs, presets, files, transcodes, e, f);
    }
  }

  lemma ServesItsOutputs(group: seq<Element>, outputs: seq<Output>, repository: map<string, Preset>, cfgs: Cfgs)
    requires CfgsOf(outputs, repository, cfgs) && ServesCfgs(group, cfgs)
    ensures ServesOutputs(group, outputs)
  {
    forall f ensures Carried(group, f) <==> exists i: nat :: LastOfItsPreset(outputs, i) && outputs[i].fileName == f {
      if Carried(group, f) {
        assert WritesFile(cfgs, f);
        var n :| n in cfgs && cfgs[n].fileName == f;
        var k := LastOutputOf(outputs, repository, cfgs, n);
        assert LastOfItsPreset(outputs, k);
      }
      if i: nat :| LastOfItsPreset(outputs, i) && outputs[i].fileName == f {
        assert cfgs[outputs[i].presetName].fileName == f;
      }
    }
  }

  lemma LastOutputOf(outputs: seq<Output>, repository: map<string, Preset>, cfgs: Cfgs, n: string) returns (k: nat)
    requires CfgsOf(outputs, repository, cfgs) && n in cfgs
    ensures LastOfItsPreset(outputs, k) && outputs[k].presetName == n && cfgs[n].fileName == outputs[k].fileName
  {
    assert Names(outputs, n);
    var i: nat :| i < |outputs| && outputs[i].presetName == n;
    k := LastIndex(outputs, i);
  }

  /** The one group made for configurations of one kind. */
  ghost predicate Serves(groups: Layers, cfgs: Cfgs, dolbyVision: bool, sourcePath: string) {
    |groups| == 1 && ServesCfgs(groups[0], cfgs) && GroupOfCfgs(groups[0], cfgs, dolbyVision, sourcePath)
  }

  ghost predicate GroupOfCfgs(group: seq<Element>, cfgs: Cfgs, dolbyVision: bool, sourcePath: string) {
    if dolbyVision then TakesItsAudioFrom(group, sourcePath)
    else |group| == |cfgs| && forall k :: 0 <= k < |group| ==> group[k].payload.Transcode?
  }

  ghost predicate TakesItsAudioFrom(group: seq<Element>, sourcePath: string) {
    exists transcodes :: group == [Element("dolby_vision_task", Encode(transcodes, [sourcePath]))]
  }

  ghost predicate HoldsAsGroup(request: Request, group: seq<Element>, cfgs: Cfgs, sourcePath: string, packaged: bool) {
    && SourceToPackager(request, group, packaged)
    && ServesCfgs(group, cfgs)
    && GroupOfCfgs(group, cfgs, HasKind(cfgs, true), sourcePath)
  }

  ghost predicate HoldsCfgs(request: Request, cfgs: Cfgs, sourcePath: string, packaged: bool) {
    exists group :: HoldsAsGroup(request, group, cfgs, sourcePath, packaged)
  }

  lemma {:induction false} OneForEach(names: seq<string>, keys: set<string>)
    requires Ordering(names, keys)
    ensures |names| == |keys|
    decreases |names|
  {
    if names == [] {
      assert keys == {};
    } else {
      var n := |names| - 1;
      assert forall k :: k in keys - {names[n]} ==> k in names[..n];
      OneForEach(names[..n], keys - {names[n]});
    }
  }

  lemma PresetsOfCfgs(outputs: seq<Output>, repository: map<string, Preset>, cfgs: Cfgs)
    requires CfgsOf(outputs, repository, cfgs)
    ensures cfgs.Keys == PresetsNamed(outputs) && |cfgs| == |PresetsNamed(outputs)|
  {
    forall n ensures n in cfgs <==> n in PresetsNamed(outputs) {
      assert n in cfgs ==> Names(outputs, n);
    }
    assert |cfgs| == |cfgs.Keys|;
  }

  lemma HoldsItsOutputs(request: Request, outputs: seq<Output>, repository: map<string, Preset>, cfgs: Cfgs,
                        sourcePath: string, packaged: bool)
    requires CfgsOf(outputs, repository, cfgs) && HoldsCfgs(request, cfgs, sourcePath, packaged)
    ensures Known(outputs, repository) && Holds(request, outputs, repository, sourcePath, packaged)
  {
    var group :| HoldsAsGroup(request, group, cfgs, sourcePath, packaged);
    ServesItsOutputs(group, outputs, repository, cfgs);
    KindsOfOutputs(outputs, repository, cfgs, true);
    PresetsOfCfgs(outputs, repository, cfgs);
    assert GroupOf(group, outputs, repository, sourcePath);
  }

  // ---------------------------------------------------------------- the request

  /** What else a job brings: whether the storage of its source, its destination and its sidecar file, if
      it has one, is recognised, and whether its execution features parse. */
  datatype Surroundings = Surroundings(source: bool, destination: bool, sidecar: Option<bool>, features: bool)

  function RefusalOf(s: Surroundings): Option<JobError> {
    if !s.source || !s.destination || s.sidecar == Some(false) then Some(UnknownStorage)
    else if !s.features then Some(BadFeatures)
    else None
  }

  /** The job of the outputs is refused for an unknown preset, for presets of both kinds, or because a
      preset cannot be built, and for nothing else. Its elements have distinct UIDs and, when the job has
      outputs, are all reachable. */
  ghost predicate AnswersOutputs(outputs: seq<Output>, repository: map<string, Preset>, sourcePath: string,
                                 packaged: bool, r: Result<Request, JobError>) {
    && (r == Failure(PresetNotFound) <==> !Known(outputs, repository))
    && (Known(outputs, repository) ==>
          && (r == Failure(MixedDolbyVision) <==> UsesBothKinds(outputs, repository))
          && (r.Failure? && r != Failure(MixedDolbyVision) ==>
                r.error.Unbuildable? && !AllAccepted(outputs, repository))
          && ((UsesKind(outputs, repository, true) ==> FilesApart(outputs)) ==>
                (r.Success? <==> AllAccepted(outputs, repository) && r != Failure(MixedDolbyVision))))
    && (r.Success? ==> Distinct(r.value.elements) && (outputs != [] ==> AllReachable(r.value)))
    && (r.Success? ==> Holds(r.value, outputs, repository, sourcePath, packaged))
  }

  /** The one group of a job: a transcode for each preset named, in some order of theirs; or, when they are
      Dolby Vision presets, one element that holds the transcodes and takes its audio from the source. */
  ghost predicate GroupOf(group: seq<Element>, outputs: seq<Output>, repository: map<string, Preset>,
                          sourcePath: string)
    requires Known(outputs, repository)
  {
    if UsesKind(outputs, repository, true)
    then TakesItsAudioFrom(group, sourcePath)
    else |group| == |PresetsNamed(outputs)| && forall k :: 0 <= k < |group| ==> group[k].payload.Transcode?
  }

  ghost function PresetsNamed(outputs: seq<Output>): set<string> {
    set i | 0 <= i < |outputs| :: outputs[i].presetName
  }

  ghost predicate Holds(request: Request, outputs: seq<Output>, repository: map<string, Preset>, sourcePath: string,
                        packaged: bool) {
    exists group :: SourceToPackager(request, group, packaged) && ServesOutputs(group, outputs)
      && Known(outputs, repository) && GroupOf(group, outputs, repository, sourcePath)
  }

  method CreateJobReqFrom(surroundings: Surroundings, outputs: seq<Output>, repository: map<string, Preset>,
                          sourcePath: string, packaged: bool) returns (r: Result<Request, JobError>)
    ensures RefusalOf(surroundings).Some? ==> r == Failure(RefusalOf(surroundings).value)
    ensures RefusalOf(surroundings).None? ==> AnswersOutputs(outputs, repository, sourcePath, packaged, r)
  {
    if !surroundings.source {
      return Failure(UnknownStorage);
    }
    if !surroundings.destination {
      return Failure(UnknownStorage);
    }
    if surroundings.sidecar == Some(false) {
      return Failure(UnknownStorage);
    }
    if !surroundings.features {
      return Failure(BadFeatures);
    }
    r := JobOfOutputs(outputs, repository, sourcePath, packaged);
  }

  method JobOfOutputs(outputs: seq<Output>, repository: map<string, Preset>, sourcePath: string, packaged: bool)
      returns (r: Result<Request, JobError>)
    ensures AnswersOutputs(outputs, repository, sourcePath, packaged, r)
  {
    var cfgs := OutputCfgsFrom(outputs, repository);
    if cfgs.Failure? {
      return Failure(cfgs.error);
    }
    PresetsOfOutputs(outputs, repository, cfgs.value);
    FilesOfOutputs(outputs, repository, cfgs.value);
    KindsOfOutputs(outputs, repository, cfgs.value, true);
    KindsOfOutputs(outputs, repository, cfgs.value, false);
    assert outputs != [] ==> outputs[0].presetName in cfgs.value;
    r := JobFor(cfgs.value, sourcePath, packaged);
    if r.Success? {
      HoldsItsOutputs(r.value, outputs, repository, cfgs.value, sourcePath, packaged);
    }
  }

  /** The job of configurations. */
  method JobFor(cfgs: Cfgs, sourcePath: string, packaged: bool) returns (r: Result<Request, JobError>)
    ensures r == Failure(MixedDolbyVision) <==> HasKind(cfgs, true) && HasKind(cfgs, false)
    ensures r.Failure? && r.error != MixedDolbyVision ==> r.error.Unbuildable? && !CfgsAccepted(cfgs)
    ensures (HasKind(cfgs, true) ==> CfgFilesApart(cfgs)) ==>
      (r.Success? <==> CfgsAccepted(cfgs) && r != Failure(MixedDolbyVision))
    ensures r.Success? ==> Distinct(r.value.elements) && (cfgs != map[] ==> AllReachable(r.value))
    ensures r.Success? ==> HoldsCfgs(r.value, cfgs, sourcePath, packaged)
  {
    var dolbyVision := DolbyVisionOnAllPresets(cfgs);
    if dolbyVision.Failure? {
      return Failure(dolbyVision.error);
    }
    var groups := GroupsFor(cfgs, sourcePath, dolbyVision.value, packaged);
    if groups.Failure? {
      return Failure(groups.error);
    }
    assert dolbyVision.value <==> HasKind(cfgs, true);
    var request := RequestFor(cfgs, groups.value, packaged);
    assert HoldsAsGroup(request, groups.value[0], cfgs, sourcePath, packaged);
    r := Success(request);
  }

  /** Groups whose job has distinct UIDs and, when there is a configuration, no empty group. */
  ghost predicate Sound(groups: Layers, cfgs: Cfgs, packaged: bool) {
    && Distinct(Flatten(AllLayers(groups, packaged)))
    && (cfgs != map[] ==> forall g :: 0 <= g < |groups| ==> groups[g] != [])
  }

  lemma DefaultGroupsAreSound(names: seq<string>, cfgs: Cfgs, elements: seq<Element>, packaged: bool)
    requires Ordering(names, cfgs.Keys) && Built(names, cfgs, elements)
    ensures Sound([elements], cfgs, packaged)
  {
    DefaultJobIsDistinct(names, cfgs, elements, packaged);
    if cfgs != map[] {
      var n :| n in cfgs.Keys;
      assert n in names;
    }
  }

  lemma LegacyGroupsAreSound(payload: Payload, cfgs: Cfgs, packaged: bool)
    ensures Sound([[Element(DOLBY_VISION_TASK, payload)]], cfgs, packaged)
  {
    LegacyJobIsDistinct(payload, packaged);
  }

  lemma TranscodableWhenApart(cfgs: Cfgs)
    requires EveryFileTranscodable(cfgs) && CfgFilesApart(cfgs)
    ensures AllTranscodable(cfgs)
  {
    forall n | n in cfgs ensures cfgs[n].preset.transcodable {
      var m :| m in cfgs && cfgs[m].fileName == cfgs[n].fileName && cfgs[m].preset.transcodable;
    }
  }

  lemma AcceptedByKind(cfgs: Cfgs)
    ensures !HasKind(cfgs, false) ==> (CfgsAccepted(cfgs) <==> AllTranscodable(cfgs))
    ensures !HasKind(cfgs, true) ==> (CfgsAccepted(cfgs) <==> forall n :: n in cfgs ==> Buildable(cfgs[n].preset))
  {
  }

  method LegacyGroupsFor(cfgs: Cfgs, sourcePath: string, ghost packaged: bool) returns (r: Result<Layers, JobError>)
    ensures AllTranscodable(cfgs) ==> r.Success?
    ensures r.Success? ==> EveryFileTranscodable(cfgs) && Sound(r.value, cfgs, packaged)
    ensures r.Success? ==> Serves(r.value, cfgs, true, sourcePath)
    ensures r.Failure? ==> r.error.Unbuildable?
  {
    r := DolbyVisionLegacyElementAssembler(cfgs, sourcePath);
    if r.Success? {
      ghost var presets, files, transcodes :| LegacyGroups(cfgs, sourcePath, presets, files, transcodes, r.value);
      LegacyServes(cfgs, sourcePath, presets, files, transcodes, r.value);
      LegacyGroupsAreSound(r.value[0][0].payload, cfgs, packaged);
    }
  }

  method DefaultGroupsFor(cfgs: Cfgs, ghost packaged: bool) returns (r: Result<Layers, JobError>)
    ensures r.Success? <==> forall n :: n in cfgs ==> Buildable(cfgs[n].preset)
    ensures r.Success? ==> Sound(r.value, cfgs, packaged) && Serves(r.value, cfgs, false, "")
    ensures r.Failure? ==> r.error.Unbuildable?
  {
    ghost var names;
    r, names := DefaultElementAssembler(cfgs);
    if r.Success? {
      DefaultGroupsAreSound(names, cfgs, r.value[0], packaged);
      DefaultServes(names, cfgs, r.value[0]);
      OneForEach(names, cfgs.Keys);
      assert r.value == [r.value[0]];
    }
  }

  method GroupsFor(cfgs: Cfgs, sourcePath: string, dolbyVision: bool, ghost packaged: bool)
      returns (r: Result<Layers, JobError>)
    requires !HasKind(cfgs, !dolbyVision)
    ensures CfgsAccepted(cfgs) ==> r.Success?
    ensures r.Success? && (dolbyVision ==> CfgFilesApart(cfgs)) ==> CfgsAccepted(cfgs)
    ensures r.Failure? ==> r.error.Unbuildable?
    ensures r.Success? ==> Sound(r.value, cfgs, packaged) && Serves(r.value, cfgs, dolbyVision, sourcePath)
  {
    AcceptedByKind(cfgs);
    if dolbyVision {
      r := LegacyGroupsFor(cfgs, sourcePath, packaged);
      if r.Success? && CfgFilesApart(cfgs) {
        TranscodableWhenApart(cfgs);
      }
    } else {
      r := DefaultGroupsFor(cfgs, packaged);
    }
  }
}
