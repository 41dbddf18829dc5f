/** The modifiers as they run: over lists of target values that share pointers to mutable video
    targets and HDR10 blocks. */
module Modifiers {
  import opened Wrappers
  import opened TranscodeTargets

  class HDR10Block {
    var source: Source
    var maxCLL: nat
    var maxFALL: nat
    var masterDisplay: string

    constructor ()
      ensures View() == HDR10Metadata(Media, 0, 0, "")
    {
      source, maxCLL, maxFALL, masterDisplay := Media, 0, 0, "";
    }

    function View(): HDR10Metadata
      reads this
    {
      HDR10Metadata(source, maxCLL, maxFALL, masterDisplay)
    }
  }

  class VideoTarget {
    var bitrateMode: string
    var bitrateKb: int
    var minBitrateKb: int
    var maxBitrateKb: int
    var codec: string
    var profile: string
    var tune: Fixed
    var vtag: Fixed
    var ffmpegArgs: string
    var x265Options: Fixed
    var chromaFormat: Fixed
    var colorPrimaries: Fixed
    var colorMatrix: Fixed
    var colorTRC: Fixed
    var hdr10: HDR10Block?

    constructor (v: Video)
      requires v.hdr10.None?
      ensures View() == v
    {
      bitrateMode, bitrateKb, minBitrateKb, maxBitrateKb := v.bitrateMode, v.bitrateKb, v.minBitrateKb, v.maxBitrateKb;
      codec, profile, tune, vtag, ffmpegArgs := v.codec, v.profile, v.tune, v.vtag, v.ffmpegArgs;
      x265Options, chromaFormat := v.x265Options, v.chromaFormat;
      colorPrimaries, colorMatrix, colorTRC, hdr10 := v.colorPrimaries, v.colorMatrix, v.colorTRC, null;
    }

    function View(): Video
      reads this, hdr10
    {
      Video(bitrateMode, bitrateKb, minBitrateKb, maxBitrateKb, codec, profile, tune, vtag, ffmpegArgs, x265Options,
            chromaFormat, colorPrimaries, colorMatrix, colorTRC, if hdr10 == null then None else Some(hdr10.View()))
    }

    method SetRateControl(mode: string)
      modifies this
      ensures View() == RateControlled(old(View()), mode) && hdr10 == old(hdr10)
    {
      bitrateMode := mode;
      if mode == "vbr" {
        maxBitrateKb := PercentTargetOf(bitrateKb, 10);
        minBitrateKb := PercentTargetOf(bitrateKb, -10);
      }
    }

    method EncodeForHdr() returns (ok: bool)
      modifies this
      ensures ok == AcceptsHdr(old(View())) && hdr10 == old(hdr10)
      ensures ok ==> View() == HdrEncoded(old(View()))
    {
      if codec == "h265" {
        if profile == "" {
          profile := "main10";
        } else if profile != "main10" {
          return false;
        }
        tune := Grain;
        vtag := Hvc1;
      }
      ok := true;
    }

    static method NewMetadata(settings: HDR10Settings) returns (metadata: HDR10Block)
      ensures fresh(metadata) && metadata.View() == MetadataFor(settings)
    {
      metadata := new HDR10Block();
      if settings.maxCLL != 0 {
        metadata.maxCLL := settings.maxCLL;
      }
      if settings.maxFALL != 0 {
        metadata.maxFALL := settings.maxFALL;
      }
      if settings.masterDisplay != "" {
        metadata.masterDisplay := settings.masterDisplay;
      }
    }

    method EnrichWithHDR10Metadata(settings: HDR10Settings)
      modifies this
      ensures hdr10 != null && fresh(hdr10)
      ensures View() == old(View()).(hdr10 := Some(MetadataFor(settings)), chromaFormat := Yuv420p10le,
                                     colorPrimaries := Bt2020, colorMatrix := Bt2020nc, colorTRC := St2084)
    {
      var metadata := NewMetadata(settings);
      hdr10 := metadata;
      chromaFormat := Yuv420p10le;
      colorPrimaries := Bt2020;
      colorMatrix := Bt2020nc;
      colorTRC := St2084;
    }

    method EnrichForDolbyVision()
      modifies this
      ensures hdr10 == old(hdr10)
      ensures View() == old(View()).(ffmpegArgs := old(ffmpegArgs) + " -strict experimental",
                                     x265Options := if old(codec) == "h265" then X265DolbyVision else old(x265Options),
                                     chromaFormat := Yuv420p10le)
    {
      ffmpegArgs := ffmpegArgs + " -strict experimental";
      if codec == "h265" {
        x265Options := X265DolbyVision;
      }
      chromaFormat := Yuv420p10le;
    }
  }

  // ---------------------------------------------------------------- lists of targets

  /** A target value: copying it copies the pointer, not what it points to. */
  datatype TargetRef = TargetRef(filePattern: string, container: string, numPasses: nat, video: VideoTarget?)

  datatype Payload = Payload(targets: seq<TargetRef>, encoder10bit: bool)

  function ViewOf(t: TargetRef): Target
    reads t.video, if t.video == null then null else t.video.hdr10
  {
    Target(t.filePattern, t.container, t.numPasses, if t.video == null then None else Some(t.video.View()))
  }

  ghost function Videos(ts: seq<TargetRef>): set<object> {
    set i | 0 <= i < |ts| && ts[i].video != null :: ts[i].video
  }

  ghost function Blocks(ts: seq<TargetRef>): set<object>
    reads Videos(ts)
  {
    set i | 0 <= i < |ts| && ts[i].video != null && ts[i].video.hdr10 != null :: ts[i].video.hdr10
  }

  /** No two targets share a video target or an HDR10 block. */
  ghost predicate Owned(ts: seq<TargetRef>)
    reads Videos(ts)
  {
    forall i, j :: 0 <= i < j < |ts| && ts[i].video != null && ts[j].video != null ==>
      && ts[i].video != ts[j].video
      && (ts[i].video.hdr10 != null ==> ts[i].video.hdr10 != ts[j].video.hdr10)
  }

  ghost predicate SamePointers(ts: seq<TargetRef>, us: seq<TargetRef>) {
    |ts| == |us| && forall i :: 0 <= i < |ts| ==> us[i].video == ts[i].video
  }

  ghost predicate HaveVideo(ts: seq<TargetRef>) {
    forall i :: 0 <= i < |ts| ==> ts[i].video != null
  }

  predicate Becomes(before: Target, after: Target, m: Modifier, p: TranscodePreset) {
    ModifyTarget(before, m, p) == Success(after)
  }

  method EnrichWithRateControl(payload: Payload, p: TranscodePreset) returns (r: Result<Payload, Fault>)
    requires Owned(payload.targets) && (Supported(Lower(p.rateControl)) ==> HaveVideo(payload.targets))
    modifies Videos(payload.targets)
    ensures r == if Supported(Lower(p.rateControl)) then Success(payload) else Failure(UnsupportedRateControl)
    ensures forall i :: 0 <= i < |payload.targets| && payload.targets[i].video != null ==>
      payload.targets[i].video.hdr10 == old(payload.targets[i].video.hdr10)
    ensures r.Success? ==> forall i :: 0 <= i < |payload.targets| ==>
      Becomes(old(ViewOf(payload.targets[i])), ViewOf(payload.targets[i]), RateControl, p)
  {
    var mode := Lower(p.rateControl);
    if !Supported(mode) {
      return Failure(UnsupportedRateControl);
    }
    var targets := payload.targets;
    for idx := 0 to |targets|
      invariant targets == payload.targets
      invariant forall k :: 0 <= k < |targets| ==> targets[k].video.hdr10 == old(targets[k].video.hdr10)
      invariant forall k :: 0 <= k < idx ==>
        targets[k].video.View() == RateControlled(old(payload.targets[k].video.View()), mode)
      invariant forall k :: idx <= k < |targets| ==> targets[k].video.View() == old(payload.targets[k].video.View())
    {
      var target := targets[idx];
      target.video.SetRateControl(mode);
      targets := targets[idx := target];
    }
    r := Success(payload.(targets := targets));
  }

  /** The body of the HDR loop: it works on a copy of the target, which it gives back. */
  method EnrichTarget(target: TargetRef, hdr: HdrType, p: TranscodePreset) returns (r: Result<TargetRef, Fault>)
    requires target.video != null && HdrTypeOf(p) == Some(hdr)
    modifies target.video
    ensures r.Failure? <==> !AcceptsHdr(old(target.video.View()))
    ensures r.Failure? ==> r.error == NotMain10
    ensures r.Success? ==> r.value.video == target.video && Becomes(old(ViewOf(target)), ViewOf(r.value), Hdr, p)
    ensures target.video.hdr10 == old(target.video.hdr10) || (target.video.hdr10 != null && fresh(target.video.hdr10))
  {
    var ok := target.video.EncodeForHdr();
    if !ok {
      return Failure(NotMain10);
    }
    if hdr.HDR10? {
      target.video.EnrichWithHDR10Metadata(p.video.hdr10);
      r := Success(target);
    } else {
      target.video.EnrichForDolbyVision();
      r := Success(target.(container := "elementary"));
    }
  }

  lemma SamePointersOwnTheSame(ts: seq<TargetRef>, us: seq<TargetRef>)
    requires SamePointers(ts, us)
    ensures Owned(us) <==> Owned(ts)
    ensures Blocks(us) == Blocks(ts)
  {
  }

  /** One turn of the HDR loop: only the target at `idx` changes. */
  method EnrichAt(targets: seq<TargetRef>, idx: nat, hdr: HdrType, p: TranscodePreset)
      returns (r: Result<seq<TargetRef>, Fault>)
    requires idx < |targets| && Owned(targets) && HaveVideo(targets) && HdrTypeOf(p) == Some(hdr)
    modifies targets[idx].video
    ensures Owned(targets) && fresh(Blocks(targets) - old(Blocks(targets)))
    ensures r.Failure? <==> !AcceptsHdr(old(targets[idx].video.View()))
    ensures r.Failure? ==> r.error == NotMain10
    ensures r.Success? ==> SamePointers(targets, r.value) && r.value == targets[idx := r.value[idx]]
    ensures r.Success? ==> Owned(r.value) && Blocks(r.value) == Blocks(targets)
    ensures r.Success? ==> Becomes(old(ViewOf(targets[idx])), ViewOf(r.value[idx]), Hdr, p)
    ensures forall k :: 0 <= k < |targets| && k != idx ==>
      targets[k].video.hdr10 == old(targets[k].video.hdr10) && targets[k].video.View() == old(targets[k].video.View())
  {
    var enriched := EnrichTarget(targets[idx], hdr, p);
    if enriched.Failure? {
      return Failure(enriched.error);
    }
    var changed := targets[idx := enriched.value];
    SamePointersOwnTheSame(targets, changed);
    r := Success(changed);
  }

  method EnrichWithHDRMetadata(payload: Payload, p: TranscodePreset) returns (r: Result<Payload, Fault>)
    requires Owned(payload.targets) && (HdrTypeOf(p).Some? ==> HaveVideo(payload.targets))
    modifies Videos(payload.targets)
    ensures Owned(payload.targets) && fresh(Blocks(payload.targets) - old(Blocks(payload.targets)))
    ensures r.Failure? ==> r.error == NotMain10 && HdrTypeOf(p).Some?
    ensures r.Failure? ==> exists i :: 0 <= i < |payload.targets| && !AcceptsHdr(old(payload.targets[i].video.View()))
    ensures r.Success? ==> Enriched(payload, r.value, p)
    ensures r.Success? ==> forall i :: 0 <= i < |payload.targets| ==>
      Becomes(old(ViewOf(payload.targets[i])), ViewOf(r.value.targets[i]), Hdr, p)
  {
    var hdr := HdrTypeOf(p);
    if hdr.None? {
      return Success(payload);
    }
    var targets := payload.targets;
    for idx := 0 to |targets|
      invariant SamePointers(payload.targets, targets)
      invariant Owned(targets) && fresh(Blocks(targets) - old(Blocks(payload.targets)))
      invariant forall k :: 0 <= k < idx ==>
        Becomes(old(ViewOf(payload.targets[k])), ViewOf(targets[k]), Hdr, p)
      invariant forall k :: idx <= k < |targets| ==>
        targets[k] == payload.targets[k] && targets[k].video.hdr10 == old(payload.targets[k].video.hdr10)
        && targets[k].video.View() == old(payload.targets[k].video.View())
    {
      var enriched := EnrichAt(targets, idx, hdr.value, p);
      if enriched.Failure? {
        return Failure(enriched.error);
      }
      targets := enriched.value;
    }
    r := Success(Payload(targets, payload.encoder10bit || |targets| > 0));
  }

  /** The HDR modifier keeps the targets' pointers and, when it applies, asks for the 10-bit encoder. */
  ghost predicate Enriched(before: Payload, after: Payload, p: TranscodePreset) {
    && SamePointers(before.targets, after.targets)
    && after.encoder10bit == (before.encoder10bit || (HdrTypeOf(p).Some? && before.targets != []))
  }

  /** The body of the MXF loop: a changed copy, and a change through its pointer. */
  method ModifyCopy(target: TargetRef, p: TranscodePreset) returns (modified: TargetRef)
    requires p.video.hdr10.enabled ==> target.video != null && target.video.hdr10 != null
    modifies if target.video == null then null else target.video.hdr10
    ensures modified.video == target.video
    ensures Becomes(old(ViewOf(target)), ViewOf(modified), Mxf, p)
  {
    modified := target;
    if HdrTypeOf(p).Some? {
      modified := modified.(numPasses := 2);
    }
    if p.video.hdr10.enabled {
      modified.video.hdr10.source := SourceMetadata;
    }
  }

  /** One turn of the MXF loop: what no other target points to stays. */
  method ModifyCopyAt(targets: seq<TargetRef>, idx: nat, p: TranscodePreset) returns (modified: TargetRef)
    requires idx < |targets| && Owned(targets)
    requires p.video.hdr10.enabled ==> targets[idx].video != null && targets[idx].video.hdr10 != null
    modifies if targets[idx].video == null then null else targets[idx].video.hdr10
    ensures Owned(targets) && modified.video == targets[idx].video
    ensures Becomes(old(ViewOf(targets[idx])), ViewOf(modified), Mxf, p)
    ensures forall k :: 0 <= k < |targets| && k != idx && targets[k].video != null ==>
      targets[k].video.View() == old(targets[k].video.View())
  {
    modified := ModifyCopy(targets[idx], p);
  }

  method ModifyForMXFSources(payload: Payload, p: TranscodePreset) returns (r: Payload)
    requires Owned(payload.targets)
    requires p.video.hdr10.enabled ==>
      HaveVideo(payload.targets) && forall i :: 0 <= i < |payload.targets| ==> payload.targets[i].video.hdr10 != null
    modifies Blocks(payload.targets)
    ensures r.encoder10bit == payload.encoder10bit && SamePointers(payload.targets, r.targets)
    ensures forall i :: 0 <= i < |payload.targets| ==>
      Becomes(old(ViewOf(payload.targets[i])), ViewOf(r.targets[i]), Mxf, p)
  {
    var modifiedTargets: seq<TargetRef> := [];
    for idx := 0 to |payload.targets|
      invariant Owned(payload.targets) && SamePointers(payload.targets[..idx], modifiedTargets)
      invariant forall k :: 0 <= k < idx ==>
        Becomes(old(ViewOf(payload.targets[k])), ViewOf(modifiedTargets[k]), Mxf, p)
      invariant forall k :: idx <= k < |payload.targets| && payload.targets[k].video != null ==>
        payload.targets[k].video.View() == old(payload.targets[k].video.View())
    {
      var modified := ModifyCopyAt(payload.targets, idx, p);
      modifiedTargets := modifiedTargets + [modified];
    }
    r := payload.(targets := modifiedTargets);
  }

  // ---------------------------------------------------------------- the pipeline

  method RunModifier(payload: Payload, m: Modifier, p: TranscodePreset) returns (r: Result<Payload, Fault>)
    requires |payload.targets| == 1
    requires ModifyTarget(ViewOf(payload.targets[0]), m, p) != Failure(NilDereference)
    modifies Videos(payload.targets), Blocks(payload.targets)
    ensures r.Success? <==> old(ModifyTarget(ViewOf(payload.targets[0]), m, p)).Success?
    ensures r.Failure? ==> Failure(r.error) == old(ModifyTarget(ViewOf(payload.targets[0]), m, p))
    ensures r.Success? ==> |r.value.targets| == 1 && r.value.targets[0].video == payload.targets[0].video
    ensures r.Success? ==> Success(ViewOf(r.value.targets[0])) == old(ModifyTarget(ViewOf(payload.targets[0]), m, p))
    ensures r.Success? ==> r.value.encoder10bit == (payload.encoder10bit || (m.Hdr? && HdrTypeOf(p).Some?))
    ensures fresh(Blocks(payload.targets) - old(Blocks(payload.targets)))
  {
    match m
    case RateControl => r := EnrichWithRateControl(payload, p);
    case Hdr => r := EnrichWithHDRMetadata(payload, p);
    case Mxf =>
      var modified := ModifyForMXFSources(payload, p);
      r := Success(modified);
  }

  method RunModifiers(payload: Payload, ms: seq<Modifier>, p: TranscodePreset) returns (r: Result<Payload, Fault>)
    requires |payload.targets| == 1
    requires Pipeline(ViewOf(payload.targets[0]), ms, p) != Failure(NilDereference)
    modifies Videos(payload.targets), Blocks(payload.targets)
    ensures r.Failure? ==> Failure(r.error) == old(Pipeline(ViewOf(payload.targets[0]), ms, p))
    ensures r.Success? ==> |r.value.targets| == 1
    ensures r.Success? ==> Success(ViewOf(r.value.targets[0])) == old(Pipeline(ViewOf(payload.targets[0]), ms, p))
    ensures r.Success? ==> r.value.encoder10bit == (payload.encoder10bit || (Hdr in ms && HdrTypeOf(p).Some?))
  {
    var current := payload;
    for i := 0 to |ms|
      invariant |current.targets| == 1 && current.targets[0].video == payload.targets[0].video
      invariant Pipeline(ViewOf(current.targets[0]), ms[i..], p) == old(Pipeline(ViewOf(payload.targets[0]), ms, p))
      invariant current.encoder10bit == (payload.encoder10bit || (Hdr in ms[..i] && HdrTypeOf(p).Some?))
      invariant fresh(Blocks(payload.targets) - old(Blocks(payload.targets)))
    {
      assert Blocks(current.targets) == Blocks(payload.targets) && Videos(current.targets) == Videos(payload.targets);
      assert ms[i..][1..] == ms[i + 1..] && ms[..i + 1] == ms[..i] + [ms[i]];
      var result := RunModifier(current, ms[i], p);
      if result.Failure? {
        return Failure(result.error);
      }
      current := result.value;
    }
    assert ms[|ms|..] == [] && ms[..|ms|] == ms;
    r := Success(current);
  }

  /** Building a transcode element runs without following a nil pointer; it succeeds exactly for the
      acceptable presets, and its one target is what the preset says, field by field. */
  method TranscodePayloadFrom(p: TranscodePreset, fileName: string) returns (r: Result<Payload, Fault>)
    ensures r.Failure? ==> Failure(r.error) == FinalTarget(p, fileName)
    ensures r.Success? ==> |r.value.targets| == 1 && Success(ViewOf(r.value.targets[0])) == FinalTarget(p, fileName)
    ensures r.Success? <==> Acceptable(p)
    ensures r.Success? ==> TargetInTexts(ViewOf(r.value.targets[0]), p, fileName)
    ensures r.Success? ==> r.value.encoder10bit == (p.video.hdr10.enabled || p.video.dolbyVision)
  {
    PipelineIsSafeAndComplete(p, fileName);
    TranscodedExactly(p, fileName);
    if Acceptable(p) {
      TranscodedAs(p, fileName);
    }
    var initial := InitialTarget(p, fileName);
    if initial.Failure? {
      return Failure(initial.error);
    }
    StartsFresh(p, fileName);
    var t := initial.value;
    var video: VideoTarget? := null;
    if t.video.Some? {
      video := new VideoTarget(t.video.value);
    }
    var payload := Payload([TargetRef(t.filePattern, t.container, t.numPasses, video)], false);
    assert ViewOf(payload.targets[0]) == t;
    r := RunModifiers(payload, ModifiersFor(p), p);
  }
}
