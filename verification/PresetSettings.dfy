/** The HDR settings of a preset's video: what is stored of them, and what an update changes. */
module PresetSettings {
  import opened Wrappers
  import opened Text
  import opened Decimal
  import opened Codec
  import opened RoundTrip
  import opened ZeroValues

  const HDR10_SCHEMA: seq<Field> := [
    Leaf("enabled", false, KBool),
    Leaf("maxcll", true, KUint),
    Leaf("maxfll", true, KUint),
    Leaf("masterdisplay", true, KString)]

  const DOLBY_VISION_SCHEMA: seq<Field> := [Leaf("enabled", false, KBool)]

  const HDR10 := ExpandStruct("hdr10", true, false, HDR10_SCHEMA)
  const DOLBY_VISION := ExpandStruct("dolbyvision", true, false, DOLBY_VISION_SCHEMA)

  const VIDEO := ["preset", "video"]

  datatype Hdr10 = Hdr10(enabled: bool, maxCLL: nat, maxFALL: nat, masterDisplay: string)

  predicate Sized(s: Hdr10) {
    s.maxCLL <= MAX_UINT64 && s.maxFALL <= MAX_UINT64
  }

  function Hdr10Value(s: Hdr10): Value {
    Struct([Bool(s.enabled), Uint(s.maxCLL), Uint(s.maxFALL), Str(s.masterDisplay)])
  }

  function DolbyVisionValue(enabled: bool): Value {
    Struct([Bool(enabled)])
  }

  // ---------------------------------------------------------------- what is stored

  lemma {:induction false} KeysOfVideo(setting: string, name: string)
    ensures Key(VIDEO + [setting], name) == "preset_video_" + setting + "_" + name
  {
    JoinSnoc(["preset"], "video", "_");
    assert ["preset"] + ["video"] == VIDEO;
    JoinSnoc(VIDEO, setting, "_");
    JoinSnoc(VIDEO + [setting], name, "_");
    assert "preset" + "_" + "video" + "_" == "preset_video_";
  }

  lemma {:induction false} LeafSaved(f: Field, v: Value, prefixes: seq<string>, key: string, text: string)
    requires f.Leaf? && f.name != "" && Fits(f, v) && Key(prefixes, f.name) == key && Printed(v) == text
    requires f.omitEmpty ==> text != ""
    ensures SaveField(f, v, prefixes) == Success(map[key := text])
  {
  }

  lemma {:induction false} DolbyVisionFits(enabled: bool)
    ensures Fits(DOLBY_VISION, DolbyVisionValue(enabled)) && Comparable(DOLBY_VISION_SCHEMA)
    ensures AllZero(DOLBY_VISION_SCHEMA, DolbyVisionValue(enabled).fields) <==> !enabled
  {
    assert Fits(DOLBY_VISION_SCHEMA[0], Bool(enabled));
  }

  lemma {:induction false} DolbyVisionFieldsSaved()
    ensures FitsAll(DOLBY_VISION_SCHEMA, [Bool(true)])
    ensures SaveFields(DOLBY_VISION_SCHEMA, [Bool(true)], VIDEO + ["dolbyvision"])
         == Success(map["preset_video_dolbyvision_enabled" := "true"])
  {
    KeysOfVideo("dolbyvision", "enabled");
    assert "preset_video_" + "dolbyvision" + "_" + "enabled" == "preset_video_dolbyvision_enabled";
    var f, path := Leaf("enabled", false, KBool), VIDEO + ["dolbyvision"];
    LeafSaved(f, Bool(true), path, "preset_video_dolbyvision_enabled", "true");
    OneFieldSaved(f, Bool(true), path, map["preset_video_dolbyvision_enabled" := "true"]);
  }

  /** Dolby Vision is stored when it is enabled, and leaves no trace when it is not. */
  lemma {:induction false} DolbyVisionStored(enabled: bool)
    ensures Fits(DOLBY_VISION, DolbyVisionValue(enabled))
    ensures SaveField(DOLBY_VISION, DolbyVisionValue(enabled), VIDEO) ==
      Success(if enabled then map["preset_video_dolbyvision_enabled" := "true"] else map[])
  {
    DolbyVisionFits(enabled);
    OmittedExactlyWhenZero(DOLBY_VISION, [Bool(enabled)], VIDEO);
    DolbyVisionFieldsSaved();
  }

  predicate Disabled(s: Hdr10) {
    !s.enabled && s.maxCLL == 0 && s.maxFALL == 0 && s.masterDisplay == ""
  }

  lemma {:induction false} Hdr10Fits(s: Hdr10)
    requires Sized(s)
    ensures Fits(HDR10, Hdr10Value(s)) && Comparable(HDR10_SCHEMA)
    ensures AllZero(HDR10_SCHEMA, Hdr10Value(s).fields) <==> Disabled(s)
  {
    var vs := Hdr10Value(s).fields;
    assert Fits(HDR10_SCHEMA[0], vs[0]) && Fits(HDR10_SCHEMA[1], vs[1]);
    assert Fits(HDR10_SCHEMA[2], vs[2]) && Fits(HDR10_SCHEMA[3], vs[3]);
    assert IsZero(HDR10_SCHEMA[0], vs[0]) <==> !s.enabled;
    assert IsZero(HDR10_SCHEMA[1], vs[1]) <==> s.maxCLL == 0;
    assert IsZero(HDR10_SCHEMA[2], vs[2]) <==> s.maxFALL == 0;
    assert IsZero(HDR10_SCHEMA[3], vs[3]) <==> s.masterDisplay == "";
  }

  /** The entries of settings that are not all zero. */
  function Hdr10Entries(s: Hdr10): Hash {
    map["preset_video_hdr10_enabled" := if s.enabled then "true" else "false"]
    + map["preset_video_hdr10_maxcll" := Digits(s.maxCLL)]
    + map["preset_video_hdr10_maxfll" := Digits(s.maxFALL)]
    + if s.masterDisplay == "" then map[] else map["preset_video_hdr10_masterdisplay" := s.masterDisplay]
  }

  lemma {:induction false} Hdr10Keys()
    ensures var path := VIDEO + ["hdr10"];
      && Key(path, "enabled") == "preset_video_hdr10_enabled" && Key(path, "maxcll") == "preset_video_hdr10_maxcll"
      && Key(path, "maxfll") == "preset_video_hdr10_maxfll"
      && Key(path, "masterdisplay") == "preset_video_hdr10_masterdisplay"
  {
    KeysOfVideo("hdr10", "enabled");
    KeysOfVideo("hdr10", "maxcll");
    KeysOfVideo("hdr10", "maxfll");
    KeysOfVideo("hdr10", "masterdisplay");
    assert "preset_video_" + "hdr10" + "_" == "preset_video_hdr10_";
    assert "preset_video_hdr10_" + "enabled" == "preset_video_hdr10_enabled";
    assert "preset_video_hdr10_" + "maxcll" == "preset_video_hdr10_maxcll";
    assert "preset_video_hdr10_" + "maxfll" == "preset_video_hdr10_maxfll";
    assert "preset_video_hdr10_" + "masterdisplay" == "preset_video_hdr10_masterdisplay";
  }

  /** The four fields in their order, whatever they are saved as. */
  lemma {:induction false} FourSaved(fs: seq<Field>, vs: seq<Value>, prefixes: seq<string>, a: Hash, b: Hash, c: Hash,
                                     d: Hash)
    requires |fs| == |vs| == 4 && Fits(fs[0], vs[0]) && Fits(fs[1], vs[1]) && Fits(fs[2], vs[2]) && Fits(fs[3], vs[3])
    requires SaveField(fs[0], vs[0], prefixes) == Success(a) && SaveField(fs[1], vs[1], prefixes) == Success(b)
    requires SaveField(fs[2], vs[2], prefixes) == Success(c) && SaveField(fs[3], vs[3], prefixes) == Success(d)
    ensures FitsAll(fs, vs) && SaveFields(fs, vs, prefixes) == Success(a + b + c + d)
  {
    OneFieldSaved(fs[0], vs[0], prefixes, a);
    assert fs[..1] == [fs[0]] && vs[..1] == [vs[0]];
    SaveSnoc(fs[..1], vs[..1], fs[1], vs[1], prefixes, a, b);
    assert fs[..2] == fs[..1] + [fs[1]] && vs[..2] == vs[..1] + [vs[1]];
    SaveSnoc(fs[..2], vs[..2], fs[2], vs[2], prefixes, a + b, c);
    assert fs[..3] == fs[..2] + [fs[2]] && vs[..3] == vs[..2] + [vs[2]];
    SaveSnoc(fs[..3], vs[..3], fs[3], vs[3], prefixes, a + b + c, d);
    assert fs == fs[..3] + [fs[3]] && vs == vs[..3] + [vs[3]];
  }

  lemma {:induction false} MasterDisplaySaved(text: string)
    ensures Fits(HDR10_SCHEMA[3], Str(text))
    ensures SaveField(HDR10_SCHEMA[3], Str(text), VIDEO + ["hdr10"]) ==
      Success(if text == "" then map[] else map["preset_video_hdr10_masterdisplay" := text])
  {
    Hdr10Keys();
    if text != "" {
      LeafSaved(HDR10_SCHEMA[3], Str(text), VIDEO + ["hdr10"], "preset_video_hdr10_masterdisplay", text);
    }
  }

  lemma {:induction false} Hdr10FieldsSaved(s: Hdr10)
    requires Sized(s)
    ensures FitsAll(HDR10_SCHEMA, Hdr10Value(s).fields)
    ensures SaveFields(HDR10_SCHEMA, Hdr10Value(s).fields, VIDEO + ["hdr10"]) == Success(Hdr10Entries(s))
  {
    var path, fs, vs := VIDEO + ["hdr10"], HDR10_SCHEMA, Hdr10Value(s).fields;
    var enabled := if s.enabled then "true" else "false";
    Hdr10Keys();
    LeafSaved(fs[0], vs[0], path, "preset_video_hdr10_enabled", enabled);
    LeafSaved(fs[1], vs[1], path, "preset_video_hdr10_maxcll", Digits(s.maxCLL));
    LeafSaved(fs[2], vs[2], path, "preset_video_hdr10_maxfll", Digits(s.maxFALL));
    MasterDisplaySaved(s.masterDisplay);
    FourSaved(fs, vs, path, map["preset_video_hdr10_enabled" := enabled],
              map["preset_video_hdr10_maxcll" := Digits(s.maxCLL)],
              map["preset_video_hdr10_maxfll" := Digits(s.maxFALL)],
              if s.masterDisplay == "" then map[] else map["preset_video_hdr10_masterdisplay" := s.masterDisplay]);
  }

  /** HDR10 settings are stored whole when any of them is set, and leave no trace otherwise. */
  lemma {:induction false} Hdr10Stored(s: Hdr10)
    requires Sized(s)
    ensures Fits(HDR10, Hdr10Value(s))
    ensures SaveField(HDR10, Hdr10Value(s), VIDEO) == Success(if Disabled(s) then map[] else Hdr10Entries(s))
  {
    Hdr10Fits(s);
    OmittedExactlyWhenZero(HDR10, Hdr10Value(s).fields, VIDEO);
    Hdr10FieldsSaved(s);
  }

  // ---------------------------------------------------------------- what an update changes

  lemma {:induction false} LeavesAreWellFormed(fs: seq<Field>, prefixes: seq<string>)
    requires forall i :: 0 <= i < |fs| ==> fs[i].Leaf?
    requires forall i, j :: 0 <= i < j < |fs| ==> fs[i].name != fs[j].name
    ensures WellFormed(fs, prefixes)
  {
    forall i, j | 0 <= i < j < |fs|
      ensures AllApart(FieldPatterns(fs[i], prefixes), FieldPatterns(fs[j], prefixes))
    {
      KeyInjective(prefixes, fs[i].name, fs[j].name);
    }
    PairwiseIsWellFormed(fs, prefixes);
  }

  lemma {:induction false} SettingsAreWellFormed()
    ensures WellFormedField(HDR10, VIDEO) && WellFormedField(DOLBY_VISION, VIDEO)
  {
    LeavesAreWellFormed(HDR10_SCHEMA, VIDEO + ["hdr10"]);
    LeavesAreWellFormed(DOLBY_VISION_SCHEMA, VIDEO + ["dolbyvision"]);
  }

  lemma {:induction false} DolbyVisionOverlay(new': bool, before: bool)
    requires Fits(DOLBY_VISION, DolbyVisionValue(new')) && Fits(DOLBY_VISION, DolbyVisionValue(before))
    ensures Overlay(DOLBY_VISION, DolbyVisionValue(new'), DolbyVisionValue(before)) == DolbyVisionValue(new' || before)
  {
    var vs, old' := [Bool(new')], [Bool(before)];
    DolbyVisionFits(new');
    ZerosExactly(DOLBY_VISION_SCHEMA, vs);
    OverlaysAt(DOLBY_VISION_SCHEMA, vs, old', 0);
    assert Overlays(DOLBY_VISION_SCHEMA, vs, old') == [Bool(new')];
  }

  /** An update can turn Dolby Vision on but never off: what is read afterwards is on if either was. */
  lemma {:induction false} DolbyVisionIsNeverTurnedOff(h: Hash, dst: Value, before: bool, new': bool)
    requires Fits(DOLBY_VISION, dst) && Fits(DOLBY_VISION, DolbyVisionValue(new'))
    requires LoadField(DOLBY_VISION, h, dst, VIDEO) == Success(DolbyVisionValue(before))
    ensures SaveField(DOLBY_VISION, DolbyVisionValue(new'), VIDEO).Success?
    ensures LoadField(DOLBY_VISION, h + SaveField(DOLBY_VISION, DolbyVisionValue(new'), VIDEO).value, dst, VIDEO)
         == Success(DolbyVisionValue(new' || before))
  {
    DolbyVisionStored(new');
    SettingsAreWellFormed();
    LoadFieldAfterSave(DOLBY_VISION, DolbyVisionValue(new'), dst, VIDEO, h);
    DolbyVisionOverlay(new', before);
  }

  /** The settings read after an update: the old ones if nothing is set in the new, and else the new ones,
      but for a master display that the new ones leave empty. */
  function Updated(s: Hdr10, before: Hdr10): Hdr10 {
    if Disabled(s) then before
    else s.(masterDisplay := if s.masterDisplay == "" then before.masterDisplay else s.masterDisplay)
  }

  lemma {:induction false} LeafOverlay(f: Field, v: Value, before: Value)
    requires f.Leaf? && f.name != "" && !f.kind.KStrings? && !f.kind.KStruct? && Fits(f, v) && Fits(f, before)
    ensures Overlay(f, v, before) == if f.omitEmpty && Printed(v) == "" then before else v
  {
  }

  lemma {:induction false} Hdr10FieldsOverlay(s: Hdr10, before: Hdr10)
    requires Sized(s) && Sized(before) && !Disabled(s)
    requires FitsAll(HDR10_SCHEMA, Hdr10Value(s).fields) && FitsAll(HDR10_SCHEMA, Hdr10Value(before).fields)
    ensures Overlays(HDR10_SCHEMA, Hdr10Value(s).fields, Hdr10Value(before).fields)
         == Hdr10Value(Updated(s, before)).fields
  {
    var fs, vs, old' := HDR10_SCHEMA, Hdr10Value(s).fields, Hdr10Value(before).fields;
    var left, right := Overlays(fs, vs, old'), Hdr10Value(Updated(s, before)).fields;
    forall i | 0 <= i < 4 ensures left[i] == right[i] {
      assert Fits(fs[i], vs[i]) && Fits(fs[i], old'[i]);
      OverlaysAt(fs, vs, old', i);
      LeafOverlay(fs[i], vs[i], old'[i]);
    }
  }

  lemma {:induction false} Hdr10Overlay(s: Hdr10, before: Hdr10)
    requires Sized(s) && Sized(before)
    requires Fits(HDR10, Hdr10Value(s)) && Fits(HDR10, Hdr10Value(before))
    ensures Overlay(HDR10, Hdr10Value(s), Hdr10Value(before)) == Hdr10Value(Updated(s, before))
  {
    Hdr10Fits(s);
    ZerosExactly(HDR10_SCHEMA, Hdr10Value(s).fields);
    if !Disabled(s) {
      Hdr10FieldsOverlay(s, before);
    }
  }

  lemma {:induction false} UpdateLaysHdr10Over(h: Hash, dst: Value, before: Hdr10, s: Hdr10)
    requires Sized(s) && Sized(before) && Fits(HDR10, dst) && Fits(HDR10, Hdr10Value(s))
    requires LoadField(HDR10, h, dst, VIDEO) == Success(Hdr10Value(before))
    ensures SaveField(HDR10, Hdr10Value(s), VIDEO).Success?
    ensures LoadField(HDR10, h + SaveField(HDR10, Hdr10Value(s), VIDEO).value, dst, VIDEO)
         == Success(Hdr10Value(Updated(s, before)))
  {
    Hdr10Stored(s);
    SettingsAreWellFormed();
    LoadFieldAfterSave(HDR10, Hdr10Value(s), dst, VIDEO, h);
    Hdr10Overlay(s, before);
  }

  /** So an update reads as it was made exactly when it turns nothing off: either something is set in it,
      and its master display if one is stored, or nothing was set before. */
  lemma {:induction false} UpdatedExactly(h: Hash, dst: Value, before: Hdr10, s: Hdr10)
    requires Sized(s) && Sized(before) && Fits(HDR10, dst) && Fits(HDR10, Hdr10Value(s))
    requires LoadField(HDR10, h, dst, VIDEO) == Success(Hdr10Value(before))
    ensures SaveField(HDR10, Hdr10Value(s), VIDEO).Success?
    ensures LoadField(HDR10, h + SaveField(HDR10, Hdr10Value(s), VIDEO).value, dst, VIDEO) == Success(Hdr10Value(s))
       <==> if Disabled(s) then Disabled(before) else s.masterDisplay != "" || before.masterDisplay == ""
  {
    UpdateLaysHdr10Over(h, dst, before, s);
    assert Hdr10Value(Updated(s, before)) == Hdr10Value(s) <==> Updated(s, before) == s by {
      Hdr10ValueInjective(Updated(s, before), s);
    }
  }

  lemma Hdr10ValueInjective(s: Hdr10, t: Hdr10)
    ensures Hdr10Value(s) == Hdr10Value(t) <==> s == t
  {
    if Hdr10Value(s) == Hdr10Value(t) {
      var a, b := Hdr10Value(s).fields, Hdr10Value(t).fields;
      assert a[0] == b[0] && a[1] == b[1] && a[2] == b[2] && a[3] == b[3];
    }
  }
}
