/** What a preset's transcode target becomes: the target built from the preset, and the modifiers
    run over it, as functions on values. */
module TranscodeTargets {
  import opened Wrappers
  import opened Decimal
  import opened Elements
  import opened AudioElements
  import Assemblers

  // ---------------------------------------------------------------- presets

  datatype HDR10Settings = HDR10Settings(enabled: bool, maxCLL: nat, maxFALL: nat, masterDisplay: string)

  /** `rest` stands for the fields that no modifier reads; it is zero when all of them are. */
  datatype VideoPreset = VideoPreset(codec: string, profile: string, bitrate: string, width: string, height: string,
                                     gopSize: string, gopUnit: string, hdr10: HDR10Settings, dolbyVision: bool,
                                     rest: nat)

  const ZERO_VIDEO := VideoPreset("", "", "", "", "", "", "", HDR10Settings(false, 0, 0, ""), false, 0)

  datatype TranscodePreset = TranscodePreset(container: string, sourceContainer: string, rateControl: string,
                                             twoPass: bool, video: VideoPreset, audio: AudioConfig)

  datatype HdrType = HDR10 | DolbyVision

  function HdrTypeOf(p: TranscodePreset): Option<HdrType> {
    if p.video.hdr10.enabled then Some(HDR10)
    else if p.video.dolbyVision then Some(DolbyVision)
    else None
  }

  // ---------------------------------------------------------------- targets

  datatype Source = Media | SourceMetadata

  datatype HDR10Metadata = HDR10Metadata(source: Source, maxCLL: nat, maxFALL: nat, masterDisplay: string)

  /** The fixed texts that the modifiers write into a video target. */
  datatype Fixed =
    | Unset
    | Grain | Hvc1 | X265DolbyVision
    | Yuv420p | Yuv420p10le
    | Bt2020 | Bt2020nc | St2084

  datatype Video = Video(bitrateMode: string, bitrateKb: int, minBitrateKb: int, maxBitrateKb: int, codec: string,
                         profile: string, tune: Fixed, vtag: Fixed, ffmpegArgs: string, x265Options: Fixed,
                         chromaFormat: Fixed, colorPrimaries: Fixed, colorMatrix: Fixed, colorTRC: Fixed,
                         hdr10: Option<HDR10Metadata>)

  datatype Target = Target(filePattern: string, container: string, numPasses: nat, video: Option<Video>)

  datatype Fault =
    | NilDereference | UnsupportedContainer | BadVideo | BadAudio | UnsupportedRateControl | NotMain10

  function LowerChar(c: char): char {
    if 'A' <= c <= 'Z' then 'a' + (c - 'A') else c
  }

  /** strings.ToLower on ASCII letters. */
  function Lower(s: string): string {
    if s == "" then "" else Lower(s[..|s| - 1]) + [LowerChar(s[|s| - 1])]
  }

  /** Go's integer division, which truncates toward zero. */
  function TruncDiv(a: int, b: int): int
    requires b > 0
  {
    if a >= 0 then a / b else -(-a / b)
  }

  function PercentTargetOf(bitrate: int, percent: int): int {
    TruncDiv(bitrate * (100 + percent), 100)
  }

  predicate GopUnit(u: string) {
    u == "seconds" || u == "frames" || u == ""
  }

  /** The video target of a preset; none for an empty video preset. */
  function VideoTargetFrom(v: VideoPreset, rateControl: string): Result<Option<Video>, Fault> {
    if v == ZERO_VIDEO then Success(None)
    else if ParseInt(v.gopSize).None? || !GopUnit(Lower(v.gopUnit)) then Failure(BadVideo)
    else if ParseInt(v.bitrate).None? then Failure(BadVideo)
    else if (v.width != "" && ParseInt(v.width).None?) || (v.height != "" && ParseInt(v.height).None?)
    then Failure(BadVideo)
    else
      var profile := if v.codec == "vp8" then "" else Lower(v.profile);
      Success(Some(Video(Lower(rateControl), TruncDiv(ParseInt(v.bitrate).value, 1000), 0, 0, v.codec, profile, Unset,
                         Unset, "", Unset, Yuv420p, Unset, Unset, Unset, None)))
  }

  const OUTPUT_FORMATS := ["mp4", "hls", "webm", "mov"]

  function ContainerOf(c: string): Option<string> {
    if c == "m3u8" then Some("hls") else if c in OUTPUT_FORMATS then Some(c) else None
  }

  function InitialTarget(p: TranscodePreset, fileName: string): Result<Target, Fault> {
    match ContainerOf(p.container)
    case None => Failure(UnsupportedContainer)
    case Some(container) =>
      match VideoTargetFrom(p.video, p.rateControl)
      case Failure(e) => Failure(e)
      case Success(video) =>
        if p.audio != NO_AUDIO && !BitrateParses(p.audio) then Failure(BadAudio)
        else Success(Target(fileName, container, if p.twoPass then 2 else 1, video))
  }

  // ---------------------------------------------------------------- the modifiers

  datatype Modifier = RateControl | Hdr | Mxf

  function ModifiersFor(p: TranscodePreset): seq<Modifier> {
    (if p.rateControl != "" && p.video != ZERO_VIDEO then [RateControl] else [])
    + (if HdrTypeOf(p).Some? then [Hdr] else [])
    + (if p.sourceContainer == "mxf" then [Mxf] else [])
  }

  predicate Supported(mode: string) {
    mode == "cbr" || mode == "vbr"
  }

  function RateControlled(v: Video, mode: string): Video {
    var w := v.(bitrateMode := mode);
    if mode == "vbr"
    then w.(maxBitrateKb := PercentTargetOf(v.bitrateKb, 10), minBitrateKb := PercentTargetOf(v.bitrateKb, -10))
    else w
  }

  predicate AcceptsHdr(v: Video) {
    v.codec == "h265" ==> v.profile == "" || v.profile == "main10"
  }

  function HdrEncoded(v: Video): Video {
    if v.codec == "h265" then v.(profile := "main10", tune := Grain, vtag := Hvc1) else v
  }

  function MetadataFor(s: HDR10Settings): HDR10Metadata {
    HDR10Metadata(Media, s.maxCLL, s.maxFALL, s.masterDisplay)
  }

  function HdrVideo(v: Video, hdr: HdrType, s: HDR10Settings): Video {
    var w := HdrEncoded(v);
    match hdr
    case HDR10 =>
      w.(hdr10 := Some(MetadataFor(s)), chromaFormat := Yuv420p10le, colorPrimaries := Bt2020,
         colorMatrix := Bt2020nc, colorTRC := St2084)
    case DolbyVision =>
      w.(ffmpegArgs := w.ffmpegArgs + " -strict experimental",
         x265Options := if w.codec == "h265" then X265DolbyVision else w.x265Options,
         chromaFormat := Yuv420p10le)
  }

  /** One modifier on one target. A nil pointer that the code would follow is a fault. */
  function ModifyTarget(t: Target, m: Modifier, p: TranscodePreset): Result<Target, Fault> {
    match m
    case RateControl =>
      if !Supported(Lower(p.rateControl)) then Failure(UnsupportedRateControl)
      else if t.video.None? then Failure(NilDereference)
      else Success(t.(video := Some(RateControlled(t.video.value, Lower(p.rateControl)))))
    case Hdr =>
      if HdrTypeOf(p).None? then Success(t)
      else if t.video.None? then Failure(NilDereference)
      else if !AcceptsHdr(t.video.value) then Failure(NotMain10)
      else
        var hdr := HdrTypeOf(p).value;
        var u := t.(video := Some(HdrVideo(t.video.value, hdr, p.video.hdr10)));
        Success(if hdr.DolbyVision? then u.(container := "elementary") else u)
    case Mxf =>
      var u := if HdrTypeOf(p).Some? then t.(numPasses := 2) else t;
      if !p.video.hdr10.enabled then Success(u)
      else if u.video.None? || u.video.value.hdr10.None? then Failure(NilDereference)
      else
        var v := u.video.value;
        Success(u.(video := Some(v.(hdr10 := Some(v.hdr10.value.(source := SourceMetadata))))))
  }

  function Pipeline(t: Target, ms: seq<Modifier>, p: TranscodePreset): Result<Target, Fault>
    decreases |ms|
  {
    if ms == [] then Success(t)
    else
      match ModifyTarget(t, ms[0], p)
      case Failure(e) => Failure(e)
      case Success(u) => Pipeline(u, ms[1..], p)
  }

  function FinalTarget(p: TranscodePreset, fileName: string): Result<Target, Fault> {
    match InitialTarget(p, fileName)
    case Failure(e) => Failure(e)
    case Success(t) => Pipeline(t, ModifiersFor(p), p)
  }

  // ---------------------------------------------------------------- what the pipeline achieves

  function MaybeModify(t: Target, m: Modifier, runs: bool, p: TranscodePreset): Result<Target, Fault> {
    if runs then ModifyTarget(t, m, p) else Success(t)
  }

  function Then(r: Result<Target, Fault>, m: Modifier, runs: bool, p: TranscodePreset): Result<Target, Fault> {
    match r case Failure(e) => Failure(e) case Success(t) => MaybeModify(t, m, runs, p)
  }

  /** The pipeline is the three modifiers in their fixed order, each run or not. */
  lemma {:induction false} PipelineInOrder(t: Target, p: TranscodePreset)
    ensures Pipeline(t, ModifiersFor(p), p) ==
      Then(Then(MaybeModify(t, RateControl, p.rateControl != "" && p.video != ZERO_VIDEO, p),
                Hdr, HdrTypeOf(p).Some?, p),
           Mxf, p.sourceContainer == "mxf", p)
  {
    var ms := ModifiersFor(p);
    var rc := if p.rateControl != "" && p.video != ZERO_VIDEO then [RateControl] else [];
    var hdr := if HdrTypeOf(p).Some? then [Hdr] else [];
    var mxf := if p.sourceContainer == "mxf" then [Mxf] else [];
    assert ms == rc + hdr + mxf;
    PipelineAppend(t, rc, hdr + mxf, p);
    assert ms == rc + (hdr + mxf);
    forall u: Target ensures Pipeline(u, hdr + mxf, p) == Chain(Pipeline(u, hdr, p), mxf, p) {
      PipelineAppend(u, hdr, mxf, p);
    }
    forall u: Target, m: Modifier
      ensures Pipeline(u, [m], p) == ModifyTarget(u, m, p) && Pipeline(u, [], p) == Success(u)
    {
      assert [m][1..] == [];
    }
  }

  function Chain(r: Result<Target, Fault>, ms: seq<Modifier>, p: TranscodePreset): Result<Target, Fault> {
    match r case Failure(e) => Failure(e) case Success(t) => Pipeline(t, ms, p)
  }

  lemma {:induction false} PipelineAppend(t: Target, ms: seq<Modifier>, more: seq<Modifier>, p: TranscodePreset)
    ensures Pipeline(t, ms + more, p) == Chain(Pipeline(t, ms, p), more, p)
    decreases |ms|
  {
    if ms == [] {
      assert ms + more == more;
    } else {
      assert (ms + more)[1..] == ms[1..] + more;
      var r := ModifyTarget(t, ms[0], p);
      if r.Success? {
        PipelineAppend(r.value, ms[1..], more, p);
      }
    }
  }

  predicate RateControlAccepted(p: TranscodePreset) {
    p.rateControl == "" || p.video == ZERO_VIDEO || Supported(Lower(p.rateControl))
  }

  predicate ProfileAccepted(p: TranscodePreset) {
    HdrTypeOf(p).Some? && p.video.codec == "h265" ==>
      Lower(p.video.profile) == "" || Lower(p.video.profile) == "main10"
  }

  predicate InitialRates(v: Video, p: TranscodePreset) {
    && ParseInt(p.video.bitrate).Some?
    && v.bitrateKb == TruncDiv(ParseInt(p.video.bitrate).value, 1000)
    && v.bitrateMode == Lower(p.rateControl) && v.minBitrateKb == 0 && v.maxBitrateKb == 0
  }

  /** The bitrate, with limits around it when it is variable. */
  predicate Rates(v: Video, p: TranscodePreset) {
    && ParseInt(p.video.bitrate).Some?
    && v.bitrateKb == TruncDiv(ParseInt(p.video.bitrate).value, 1000)
    && v.bitrateMode == Lower(p.rateControl)
    && (v.bitrateMode == "vbr" ==>
          v.maxBitrateKb == PercentTargetOf(v.bitrateKb, 10) && v.minBitrateKb == PercentTargetOf(v.bitrateKb, -10))
    && (v.bitrateMode != "vbr" ==> v.minBitrateKb == 0 && v.maxBitrateKb == 0)
  }

  /** None of the settings of HDR is made yet. */
  predicate Untouched(v: Video) {
    && v.tune == Unset && v.vtag == Unset && v.ffmpegArgs == "" && v.x265Options == Unset
    && v.chromaFormat == Yuv420p && v.colorPrimaries == Unset && v.colorMatrix == Unset && v.colorTRC == Unset
  }

  /** The settings that HDR10, Dolby Vision and their h265 encodes ask for, and no others. */
  predicate HdrSettings(v: Video, p: TranscodePreset) {
    var hdr := HdrTypeOf(p);
    && v.codec == p.video.codec
    && v.chromaFormat == (if hdr.Some? then Yuv420p10le else Yuv420p)
    && (if hdr == Some(HDR10) then v.colorPrimaries == Bt2020 && v.colorMatrix == Bt2020nc && v.colorTRC == St2084
        else v.colorPrimaries == Unset && v.colorMatrix == Unset && v.colorTRC == Unset)
    && v.ffmpegArgs == (if hdr == Some(DolbyVision) then " -strict experimental" else "")
    && v.x265Options == (if hdr == Some(DolbyVision) && v.codec == "h265" then X265DolbyVision else Unset)
    && (if hdr.Some? && v.codec == "h265" then v.profile == "main10" && v.tune == Grain && v.vtag == Hvc1
        else v.profile == FirstProfile(p.video) && v.tune == Unset && v.vtag == Unset)
  }

  function FirstProfile(v: VideoPreset): string {
    if v.codec == "vp8" then "" else Lower(v.profile)
  }

  /** A target as built from its preset, up to its bitrates. */
  predicate Fresh(t: Target, p: TranscodePreset, fileName: string) {
    && t.filePattern == fileName && ContainerOf(p.container) == Some(t.container)
    && t.numPasses == (if p.twoPass then 2 else 1)
    && (t.video.Some? <==> p.video != ZERO_VIDEO)
    && (t.video.Some? ==>
          && t.video.value.hdr10.None? && t.video.value.codec == p.video.codec && Untouched(t.video.value)
          && t.video.value.profile == FirstProfile(p.video)
          && (HdrTypeOf(p).Some? ==> (AcceptsHdr(t.video.value) <==> ProfileAccepted(p))))
  }

  lemma StartsFresh(p: TranscodePreset, fileName: string)
    ensures InitialTarget(p, fileName).Success? ==>
      var t := InitialTarget(p, fileName).value;
      Fresh(t, p, fileName) && (t.video.Some? ==> InitialRates(t.video.value, p))
    ensures InitialTarget(p, fileName).Failure? ==> InitialTarget(p, fileName).error != NilDereference
  {
    if p.video.codec == "vp8" {
      assert p.video.codec != "h265";
    }
  }

  lemma RateControlStage(t: Target, p: TranscodePreset, fileName: string)
    requires Fresh(t, p, fileName) && (t.video.Some? ==> InitialRates(t.video.value, p))
    ensures var r := MaybeModify(t, RateControl, p.rateControl != "" && p.video != ZERO_VIDEO, p);
      && (r.Success? <==> RateControlAccepted(p)) && r != Failure(NilDereference)
      && (r.Success? ==> Fresh(r.value, p, fileName) && (t.video.Some? ==> Rates(r.value.video.value, p)))
  {
  }

  /** The metadata block that HDR10 asks for, and only HDR10. */
  predicate MetadataOf(m: Option<HDR10Metadata>, p: TranscodePreset, source: Source) {
    && (m.Some? <==> p.video.hdr10.enabled)
    && (m.Some? ==>
          && m.value.source == source
          && m.value.maxCLL == p.video.hdr10.maxCLL
          && m.value.maxFALL == p.video.hdr10.maxFALL
          && m.value.masterDisplay == p.video.hdr10.masterDisplay)
  }

  predicate VideoDone(v: Video, p: TranscodePreset, source: Source) {
    Rates(v, p) && HdrSettings(v, p) && MetadataOf(v.hdr10, p, source)
  }

  /** A target after the HDR stage. */
  predicate HdrDone(t: Target, p: TranscodePreset, fileName: string) {
    && t.filePattern == fileName
    && t.numPasses == (if p.twoPass then 2 else 1)
    && ContainerOf(p.container).Some?
    && t.container == (if HdrTypeOf(p) == Some(DolbyVision) then "elementary" else ContainerOf(p.container).value)
    && (t.video.Some? <==> p.video != ZERO_VIDEO)
    && (HdrTypeOf(p).Some? ==> t.video.Some?)
    && (t.video.Some? ==> VideoDone(t.video.value, p, Media))
  }

  lemma HdrVideoIsSet(v: Video, hdr: HdrType, p: TranscodePreset)
    requires Untouched(v) && v.codec == p.video.codec && v.profile == FirstProfile(p.video)
    requires AcceptsHdr(v) && HdrTypeOf(p) == Some(hdr)
    requires Rates(v, p) && v.hdr10.None?
    ensures VideoDone(HdrVideo(v, hdr, p.video.hdr10), p, Media)
  {
    assert "" + " -strict experimental" == " -strict experimental";
  }

  lemma VideoWithoutHdr(v: Video, p: TranscodePreset)
    requires Untouched(v) && v.codec == p.video.codec && v.profile == FirstProfile(p.video)
    requires HdrTypeOf(p).None? && Rates(v, p) && v.hdr10.None?
    ensures VideoDone(v, p, Media)
  {
  }

  lemma HdrRuns(t: Target, hdr: HdrType, p: TranscodePreset)
    requires HdrTypeOf(p) == Some(hdr) && t.video.Some?
    ensures var r := ModifyTarget(t, Hdr, p);
      && (r.Success? <==> AcceptsHdr(t.video.value)) && r != Failure(NilDereference)
      && (r.Success? ==> r.value == t.(video := Some(HdrVideo(t.video.value, hdr, p.video.hdr10)),
                                       container := if hdr.DolbyVision? then "elementary" else t.container))
  {
  }

  lemma HdrStage(t: Target, p: TranscodePreset, fileName: string)
    requires Fresh(t, p, fileName) && (t.video.Some? ==> Rates(t.video.value, p))
    ensures var r := MaybeModify(t, Hdr, HdrTypeOf(p).Some?, p);
      && (r.Success? <==> ProfileAccepted(p)) && r != Failure(NilDereference)
      && (r.Success? ==> HdrDone(r.value, p, fileName))
  {
    match HdrTypeOf(p)
    case None =>
      if t.video.Some? {
        VideoWithoutHdr(t.video.value, p);
      }
    case Some(hdr) =>
      HdrRuns(t, hdr, p);
      if AcceptsHdr(t.video.value) {
        HdrVideoIsSet(t.video.value, hdr, p);
      }
  }

  function SourceFor(p: TranscodePreset): Source {
    if p.sourceContainer == "mxf" then SourceMetadata else Media
  }

  /** What reaches the final target: its file and the effects of every modifier that applies. */
  predicate EffectsOf(t: Target, p: TranscodePreset, fileName: string) {
    && t.filePattern == fileName
    && (t.video.Some? <==> p.video != ZERO_VIDEO)
    && t.numPasses == (if p.twoPass || (p.sourceContainer == "mxf" && HdrTypeOf(p).Some?) then 2 else 1)
    && ContainerOf(p.container).Some?
    && t.container == (if HdrTypeOf(p) == Some(DolbyVision) then "elementary" else ContainerOf(p.container).value)
    && (HdrTypeOf(p).Some? ==> t.video.Some?)
    && (t.video.Some? ==> VideoDone(t.video.value, p, SourceFor(p)))
  }

  lemma MxfStage(t: Target, p: TranscodePreset, fileName: string)
    requires HdrDone(t, p, fileName)
    ensures var r := MaybeModify(t, Mxf, p.sourceContainer == "mxf", p);
      r.Success? && EffectsOf(r.value, p, fileName)
  {
    assert p.video.hdr10.enabled ==> HdrTypeOf(p).Some?;
  }

  /** Over all presets: no modifier follows a nil video target or a nil HDR10 block; a preset is
      transcoded exactly when its target can be built, its rate control mode is known, and HDR is not
      asked of an h265 profile other than main10; and then every applicable effect is in the final target. */
  lemma PipelineIsSafeAndComplete(p: TranscodePreset, fileName: string)
    ensures FinalTarget(p, fileName) != Failure(NilDereference)
    ensures FinalTarget(p, fileName).Success? <==>
      InitialTarget(p, fileName).Success? && RateControlAccepted(p) && ProfileAccepted(p)
    ensures FinalTarget(p, fileName).Success? ==> EffectsOf(FinalTarget(p, fileName).value, p, fileName)
  {
    StartsFresh(p, fileName);
    if InitialTarget(p, fileName).Success? {
      var t := InitialTarget(p, fileName).value;
      PipelineInOrder(t, p);
      RateControlStage(t, p, fileName);
      var r := MaybeModify(t, RateControl, p.rateControl != "" && p.video != ZERO_VIDEO, p);
      if r.Success? {
        HdrStage(r.value, p, fileName);
        var u := MaybeModify(r.value, Hdr, HdrTypeOf(p).Some?, p);
        if u.Success? {
          MxfStage(u.value, p, fileName);
        }
      }
    }
  }

  /** MXF comes before any HDR. */
  predicate MxfBeforeHdr(ms: seq<Modifier>) {
    ms != [] && (ms[0].Mxf? || (!ms[0].Hdr? && MxfBeforeHdr(ms[1..])))
  }

  /** A target that no modifier refuses. */
  predicate Agreeable(t: Target, p: TranscodePreset) {
    t.video.Some? && AcceptsHdr(t.video.value) && Supported(Lower(p.rateControl))
  }

  lemma {:induction false} BlockStays(t: Target, ms: seq<Modifier>, p: TranscodePreset)
    requires p.video.hdr10.enabled && Agreeable(t, p) && t.video.value.hdr10.Some?
    ensures Pipeline(t, ms, p).Success?
    decreases |ms|
  {
    if ms == [] {
    } else {
      BlockStays(ModifyTarget(t, ms[0], p).value, ms[1..], p);
    }
  }

  /** What the fixed order is for: over every order and choice of modifiers, an HDR10 target that none of
      them refuses ends in a nil block exactly when MXF comes before HDR. */
  lemma {:induction false} SafeExactlyWhenHdrComesFirst(t: Target, ms: seq<Modifier>, p: TranscodePreset)
    requires p.video.hdr10.enabled && Agreeable(t, p) && t.video.value.hdr10.None?
    ensures Pipeline(t, ms, p) == Failure(NilDereference) <==> MxfBeforeHdr(ms)
    ensures Pipeline(t, ms, p).Success? <==> !MxfBeforeHdr(ms)
    decreases |ms|
  {
    if ms == [] {
    } else {
      match ms[0]
      case Mxf =>
      case Hdr => BlockStays(ModifyTarget(t, ms[0], p).value, ms[1..], p);
      case RateControl => SafeExactlyWhenHdrComesFirst(ModifyTarget(t, ms[0], p).value, ms[1..], p);
    }
  }

  /** Variable bitrate limits lie ten percent around the bitrate, rounded toward zero, and no product
      leaves 64 bits. They are on the right sides of it exactly when it is not negative in kilobits,
      which leaves out the bitrates of -1000 and below. */
  lemma VariableBitrateBrackets(bitrate: int)
    requires MIN_INT64 <= bitrate <= MAX_INT64
    ensures var kb := TruncDiv(bitrate, 1000);
      && MIN_INT64 <= kb * 110 <= MAX_INT64 && MIN_INT64 <= kb * 90 <= MAX_INT64
      && (0 <= kb ==>
            && 0 <= 11 * kb - 10 * PercentTargetOf(kb, 10) < 10
            && 0 <= 9 * kb - 10 * PercentTargetOf(kb, -10) < 10)
      && (kb < 0 ==>
            && 0 <= 10 * PercentTargetOf(kb, 10) - 11 * kb < 10
            && 0 <= 10 * PercentTargetOf(kb, -10) - 9 * kb < 10)
      && (PercentTargetOf(kb, -10) <= kb <= PercentTargetOf(kb, 10) <==> 0 <= kb)
      && (0 <= kb <==> -1000 < bitrate)
  {
  }

  // ---------------------------------------------------------------- in the texts of the preset

  predicate UpperLetter(c: char) {
    'A' <= c <= 'Z'
  }

  /** `s` is `lower`, with any of its letters in capitals. */
  predicate SameButForCase(s: string, lower: string) {
    |s| == |lower| && forall i :: 0 <= i < |s| ==>
      s[i] == lower[i] || (UpperLetter(s[i]) && s[i] as int + 32 == lower[i] as int)
  }

  lemma {:induction false} LowerAt(s: string)
    ensures |Lower(s)| == |s| && forall i :: 0 <= i < |s| ==> Lower(s)[i] == LowerChar(s[i])
  {
    if s == "" {
    } else {
      LowerAt(s[..|s| - 1]);
    }
  }

  lemma {:induction false} LowerExactly(s: string, t: string)
    requires forall i :: 0 <= i < |t| ==> !UpperLetter(t[i])
    ensures Lower(s) == t <==> SameButForCase(s, t)
  {
    LowerAt(s);
    if SameButForCase(s, t) {
      forall i | 0 <= i < |s| ensures Lower(s)[i] == t[i] {
        assert !UpperLetter(t[i]);
      }
    }
  }

  ghost predicate IntText(s: string) {
    exists i :: Int64Text(s, i)
  }

  lemma IntTextParses(s: string)
    ensures ParseInt(s).Some? <==> IntText(s)
  {
    if ParseInt(s).Some? {
      ParseIntExactly(s, ParseInt(s).value);
    }
    if i :| Int64Text(s, i) {
      ParseIntExactly(s, i);
    }
  }

  /** A preset without video settings. */
  predicate NoVideo(v: VideoPreset) {
    && v.codec == "" && v.profile == "" && v.bitrate == "" && v.width == "" && v.height == "" && v.gopSize == ""
    && v.gopUnit == "" && !v.dolbyVision && v.rest == 0
    && !v.hdr10.enabled && v.hdr10.maxCLL == 0 && v.hdr10.maxFALL == 0 && v.hdr10.masterDisplay == ""
  }

  ghost predicate VideoTextsAccepted(v: VideoPreset) {
    && IntText(v.gopSize) && IntText(v.bitrate)
    && (v.gopUnit == "" || SameButForCase(v.gopUnit, "seconds") || SameButForCase(v.gopUnit, "frames"))
    && (v.width == "" || IntText(v.width)) && (v.height == "" || IntText(v.height))
  }

  /** Which presets are transcoded, by the texts they hold. */
  ghost predicate Acceptable(p: TranscodePreset) {
    && p.container in {"mp4", "hls", "webm", "mov", "m3u8"}
    && (NoVideo(p.video) || VideoTextsAccepted(p.video))
    && (p.audio == AudioConfig("", "", false, false) || IntText(p.audio.bitrate))
    && (p.rateControl == "" || NoVideo(p.video) || SameButForCase(p.rateControl, "cbr")
        || SameButForCase(p.rateControl, "vbr"))
    && ((p.video.hdr10.enabled || p.video.dolbyVision) && p.video.codec == "h265" ==>
          p.video.profile == "" || SameButForCase(p.video.profile, "main10"))
  }

  lemma TextsOfVideo(v: VideoPreset)
    ensures NoVideo(v) <==> v == ZERO_VIDEO
    ensures !NoVideo(v) ==> (VideoTextsAccepted(v) <==> VideoTextsParse(v))
  {
    IntTextParses(v.gopSize);
    IntTextParses(v.bitrate);
    IntTextParses(v.width);
    IntTextParses(v.height);
    LowerExactly(v.gopUnit, "seconds");
    LowerExactly(v.gopUnit, "frames");
    LowerExactly(v.gopUnit, "");
  }

  predicate VideoTextsParse(v: VideoPreset) {
    && ParseInt(v.gopSize).Some? && ParseInt(v.bitrate).Some? && GopUnit(Lower(v.gopUnit))
    && (v.width == "" || ParseInt(v.width).Some?) && (v.height == "" || ParseInt(v.height).Some?)
  }

  lemma TextsOfInitial(p: TranscodePreset, fileName: string)
    ensures InitialTarget(p, fileName).Success? <==>
      && p.container in {"mp4", "hls", "webm", "mov", "m3u8"}
      && (NoVideo(p.video) || VideoTextsAccepted(p.video))
      && (p.audio == AudioConfig("", "", false, false) || IntText(p.audio.bitrate))
  {
    TextsOfVideo(p.video);
    IntTextParses(p.audio.bitrate);
    assert OUTPUT_FORMATS[0] == "mp4" && OUTPUT_FORMATS[1] == "hls";
    assert OUTPUT_FORMATS[2] == "webm" && OUTPUT_FORMATS[3] == "mov";
    assert VideoTargetFrom(p.video, p.rateControl).Success? <==> NoVideo(p.video) || VideoTextsParse(p.video);
  }

  /** A preset is transcoded exactly when its texts are acceptable. */
  lemma TranscodedExactly(p: TranscodePreset, fileName: string)
    ensures FinalTarget(p, fileName).Success? <==> Acceptable(p)
  {
    PipelineIsSafeAndComplete(p, fileName);
    TextsOfInitial(p, fileName);
    TextsOfVideo(p.video);
    LowerExactly(p.rateControl, "cbr");
    LowerExactly(p.rateControl, "vbr");
    LowerExactly(p.video.profile, "main10");
    LowerExactly(p.video.profile, "");
  }

  predicate AsksHdr10(p: TranscodePreset) {
    p.video.hdr10.enabled
  }

  /** HDR10 comes first when both are asked for. */
  predicate AsksDolbyVision(p: TranscodePreset) {
    !p.video.hdr10.enabled && p.video.dolbyVision
  }

  /** The video of the target, field by field from the preset. */
  ghost predicate VideoInTexts(v: Video, p: TranscodePreset) {
    && v.codec == p.video.codec
    && SameButForCase(p.rateControl, v.bitrateMode)
    && (forall b :: Int64Text(p.video.bitrate, b) ==> v.bitrateKb == TruncDiv(b, 1000))
    && (v.bitrateMode == "vbr" ==>
          v.maxBitrateKb == PercentTargetOf(v.bitrateKb, 10) && v.minBitrateKb == PercentTargetOf(v.bitrateKb, -10))
    && (v.bitrateMode != "vbr" ==> v.maxBitrateKb == 0 && v.minBitrateKb == 0)
    && ((AsksHdr10(p) || AsksDolbyVision(p)) && p.video.codec == "h265" ==>
          v.profile == "main10" && v.tune == Grain && v.vtag == Hvc1)
    && (!((AsksHdr10(p) || AsksDolbyVision(p)) && p.video.codec == "h265") ==>
          && v.tune == Unset && v.vtag == Unset
          && (if p.video.codec == "vp8" then v.profile == "" else SameButForCase(p.video.profile, v.profile)))
    && v.chromaFormat == (if AsksHdr10(p) || AsksDolbyVision(p) then Yuv420p10le else Yuv420p)
    && v.colorPrimaries == (if AsksHdr10(p) then Bt2020 else Unset)
    && v.colorMatrix == (if AsksHdr10(p) then Bt2020nc else Unset)
    && v.colorTRC == (if AsksHdr10(p) then St2084 else Unset)
    && v.ffmpegArgs == (if AsksDolbyVision(p) then " -strict experimental" else "")
    && v.x265Options == (if AsksDolbyVision(p) && p.video.codec == "h265" then X265DolbyVision else Unset)
    && MetadataOf(v.hdr10, p, if p.sourceContainer == "mxf" then SourceMetadata else Media)
  }

  ghost predicate TargetInTexts(t: Target, p: TranscodePreset, fileName: string) {
    && t.filePattern == fileName
    && t.container ==
         (if AsksDolbyVision(p) then "elementary" else if p.container == "m3u8" then "hls" else p.container)
    && t.numPasses ==
         (if p.twoPass || (p.sourceContainer == "mxf" && (AsksHdr10(p) || AsksDolbyVision(p))) then 2 else 1)
    && (t.video.None? <==> NoVideo(p.video))
    && (t.video.Some? ==> VideoInTexts(t.video.value, p))
  }

  lemma {:induction false} LowerIsSame(s: string)
    ensures SameButForCase(s, Lower(s))
  {
    LowerAt(s);
  }

  lemma VideoFromTexts(v: Video, p: TranscodePreset)
    requires VideoDone(v, p, SourceFor(p))
    ensures VideoInTexts(v, p)
  {
    LowerIsSame(p.rateControl);
    LowerIsSame(p.video.profile);
    forall b | Int64Text(p.video.bitrate, b) ensures v.bitrateKb == TruncDiv(b, 1000) {
      ParseIntExactly(p.video.bitrate, b);
    }
  }

  /** A transcode's target is what its preset says, in the preset's own texts. */
  lemma TranscodedAs(p: TranscodePreset, fileName: string)
    requires FinalTarget(p, fileName).Success?
    ensures TargetInTexts(FinalTarget(p, fileName).value, p, fileName)
  {
    PipelineIsSafeAndComplete(p, fileName);
    TextsOfVideo(p.video);
    var t := FinalTarget(p, fileName).value;
    if t.video.Some? {
      VideoFromTexts(t.video.value, p);
    }
  }

  /** What the assemblers need to know of a preset. */
  function Summary(p: TranscodePreset): Preset {
    Preset(FinalTarget(p.(audio := NO_AUDIO), "").Success?, p.video.dolbyVision, p.audio)
  }

  /** The assemblers refuse exactly the presets whose transcode fails, whatever the file name. */
  lemma RefusedExactly(p: TranscodePreset, fileName: string)
    ensures Assemblers.Buildable(Summary(p)) <==> FinalTarget(p, fileName).Success?
  {
    PipelineIsSafeAndComplete(p, fileName);
    PipelineIsSafeAndComplete(p.(audio := NO_AUDIO), "");
  }
}
