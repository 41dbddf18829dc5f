/** Audio encodes of a Dolby Vision job: one per distinct audio configuration, found again by hash. */
module AudioElements {
  import opened Wrappers
  import opened Decimal
  import opened Elements

  datatype BuildError = BitrateNaN | UnsupportedOutput

  /** What a preset contributes: whether its transcode can be built but for its audio, and its audio. */
  datatype Preset = Preset(transcodable: bool, dolbyVision: bool, audio: AudioConfig)

  type Hasher = AudioConfig -> nat

  /** Presets by output file name. */
  type Presets = map<string, Preset>

  ghost function Used(presets: Presets): set<AudioConfig> {
    set f | f in presets && presets[f].audio != NO_AUDIO :: presets[f].audio
  }

  predicate BitrateParses(c: AudioConfig) {
    ParseInt(c.bitrate).Some?
  }

  // ---------------------------------------------------------------- file names

  function AudioFile(i: nat, c: AudioConfig): string {
    "audio_output_" + Digits(i) + "." + c.codec
  }

  lemma DotEndsTheNumber(a: string, b: string, rest: string, rest': string)
    requires AllDigits(a) && AllDigits(b)
    ensures |a| < |b| ==> a + "." + rest != b + "." + rest'
  {
    if |a| < |b| {
      assert (b + "." + rest')[|a|] == b[|a|];
      assert (a + "." + rest)[|a|] == '.';
    }
  }

  /** Two encodes never write the same file. */
  lemma FilesDiffer(i: nat, c: AudioConfig, j: nat, d: AudioConfig)
    ensures AudioFile(i, c) == AudioFile(j, d) ==> i == j
  {
    if AudioFile(i, c) == AudioFile(j, d) {
      var n := |"audio_output_"|;
      assert AudioFile(i, c)[n..] == Digits(i) + "." + c.codec;
      assert AudioFile(j, d)[n..] == Digits(j) + "." + d.codec;
      DotEndsTheNumber(Digits(i), Digits(j), c.codec, d.codec);
      DotEndsTheNumber(Digits(j), Digits(i), d.codec, c.codec);
      assert (Digits(i) + "." + c.codec)[..|Digits(i)|] == Digits(i);
      assert (Digits(j) + "." + d.codec)[..|Digits(j)|] == Digits(j);
      DigitsInjective(i, j);
    }
  }

  // ---------------------------------------------------------------- building the encodes

  function AudioElement(i: nat, c: AudioConfig): Element {
    Element("audio_" + Digits(i), AudioEncode(AudioFile(i, c), c))
  }

  function AudioElementsOf(configs: seq<AudioConfig>): (es: seq<Element>)
    ensures |es| == |configs| && forall i :: 0 <= i < |configs| ==> es[i] == AudioElement(i, configs[i])
    ensures forall i :: 0 <= i < |configs| ==>
      && es[i].uid == "audio_" + Digits(i)
      && es[i].payload == AudioEncode("audio_output_" + Digits(i) + "." + configs[i].codec, configs[i])
  {
    if configs == [] then []
    else
      var n := |configs| - 1;
      AudioElementsOf(configs[..n]) + [AudioElement(n, configs[n])]
  }

  /** `configs` holds one configuration per hash of a used one. */
  ghost predicate OnePerHash(hash: Hasher, used: set<AudioConfig>, configs: seq<AudioConfig>) {
    && (forall i :: 0 <= i < |configs| ==> configs[i] in used)
    && (forall i, j :: 0 <= i < j < |configs| ==> hash(configs[i]) != hash(configs[j]))
    && (forall c :: c in used ==> Covered(hash, configs, hash(c)))
  }

  ghost predicate Covered(hash: Hasher, configs: seq<AudioConfig>, h: nat) {
    exists i :: 0 <= i < |configs| && hash(configs[i]) == h
  }

  ghost function FilesOf(hash: Hasher, configs: seq<AudioConfig>): map<nat, string> {
    if configs == [] then map[]
    else
      var n := |configs| - 1;
      FilesOf(hash, configs[..n])[hash(configs[n]) := AudioFile(n, configs[n])]
  }

  lemma {:induction false} FileByHash(hash: Hasher, configs: seq<AudioConfig>, i: nat)
    requires i < |configs| && forall j :: i < j < |configs| ==> hash(configs[i]) != hash(configs[j])
    ensures hash(configs[i]) in FilesOf(hash, configs)
    ensures FilesOf(hash, configs)[hash(configs[i])] == AudioFile(i, configs[i])
  {
    var n := |configs| - 1;
    if i == n {
    } else {
      assert configs[..n][i] == configs[i];
      FileByHash(hash, configs[..n], i);
    }
  }

  /** The first loop: configurations by hash, whatever order the map is read in. */
  method ConfigurationsByHash(hash: Hasher, presets: Presets) returns (byHash: map<nat, AudioConfig>)
    ensures forall h :: h in byHash ==> byHash[h] in Used(presets) && hash(byHash[h]) == h
    ensures forall c :: c in Used(presets) ==> hash(c) in byHash
  {
    byHash := map[];
    var pending := presets.Keys;
    while pending != {}
      invariant pending <= presets.Keys
      invariant forall h :: h in byHash ==> byHash[h] in Used(presets) && hash(byHash[h]) == h
      invariant forall f :: f in presets && f !in pending && presets[f].audio != NO_AUDIO ==>
        hash(presets[f].audio) in byHash
      decreases |pending|
    {
      var f :| f in pending;
      pending := pending - {f};
      if presets[f].audio != NO_AUDIO {
        byHash := byHash[hash(presets[f].audio) := presets[f].audio];
      }
    }
  }

  /** The second loop: one encode per entry. It fails exactly when a bitrate is not a number. */
  method ElementsByHash(hash: Hasher, byHash: map<nat, AudioConfig>)
      returns (r: Result<(seq<Element>, map<nat, string>), BuildError>, ghost configs: seq<AudioConfig>)
    requires forall h :: h in byHash ==> hash(byHash[h]) == h
    ensures r.Success? <==> forall h :: h in byHash ==> BitrateParses(byHash[h])
    ensures r.Success? ==> r.value == (AudioElementsOf(configs), FilesOf(hash, configs))
    ensures r.Success? ==> OnePerHash(hash, byHash.Values, configs)
  {
    var audioElements: seq<Element> := [];
    var files: map<nat, string> := map[];
    var pending := byHash.Keys;
    configs := [];
    while pending != {}
      invariant pending <= byHash.Keys
      invariant audioElements == AudioElementsOf(configs) && files == FilesOf(hash, configs)
      invariant Listed(hash, byHash, pending, configs)
      invariant forall h :: h in byHash && h !in pending ==> BitrateParses(byHash[h])
      decreases |pending|
    {
      var h :| h in pending;
      var target := byHash[h];
      if !BitrateParses(target) {
        return Failure(BitrateNaN), configs;
      }
      ListOne(hash, byHash, pending, configs, h);
      OneMoreEncode(hash, configs, target);
      pending := pending - {h};
      var idx := |audioElements|;
      audioElements := audioElements + [AudioElement(idx, target)];
      files := files[h := AudioFile(idx, target)];
      configs := configs + [target];
    }
    AllListed(hash, byHash, configs);
    r := Success((audioElements, files));
  }

  /** The configurations of the hashes no longer pending are those listed, each once. */
  ghost predicate Listed(hash: Hasher, byHash: map<nat, AudioConfig>, pending: set<nat>, configs: seq<AudioConfig>) {
    && (forall i :: 0 <= i < |configs| ==>
          var h := hash(configs[i]); h in byHash && h !in pending && configs[i] == byHash[h])
    && (forall i, j :: 0 <= i < j < |configs| ==> hash(configs[i]) != hash(configs[j]))
    && (forall h :: h in byHash && h !in pending ==> Covered(hash, configs, h))
  }

  lemma ListOne(hash: Hasher, byHash: map<nat, AudioConfig>, pending: set<nat>, configs: seq<AudioConfig>, h: nat)
    requires Listed(hash, byHash, pending, configs) && h in pending && h in byHash && hash(byHash[h]) == h
    ensures Listed(hash, byHash, pending - {h}, configs + [byHash[h]])
  {
    var more := configs + [byHash[h]];
    assert hash(more[|configs|]) == h;
    forall k | k in byHash && k !in pending ensures Covered(hash, more, k) {
      var i :| 0 <= i < |configs| && hash(configs[i]) == k;
      assert hash(more[i]) == k;
    }
  }

  lemma {:induction false} OneMoreEncode(hash: Hasher, configs: seq<AudioConfig>, c: AudioConfig)
    ensures AudioElementsOf(configs + [c]) == AudioElementsOf(configs) + [AudioElement(|configs|, c)]
    ensures FilesOf(hash, configs + [c]) == FilesOf(hash, configs)[hash(c) := AudioFile(|configs|, c)]
  {
    assert (configs + [c])[..|configs|] == configs;
  }

  lemma AllListed(hash: Hasher, byHash: map<nat, AudioConfig>, configs: seq<AudioConfig>)
    requires Listed(hash, byHash, {}, configs) && forall h :: h in byHash ==> hash(byHash[h]) == h
    ensures OnePerHash(hash, byHash.Values, configs)
  {
  }

  // ---------------------------------------------------------------- what a preset finds again

  /** The encodes of a job: for its presets, and with the hash of each used configuration answered. */
  method AudioElementsFrom(hash: Hasher, presets: Presets)
      returns (r: Result<(seq<Element>, map<nat, string>), BuildError>, ghost configs: seq<AudioConfig>)
    ensures r.Success? ==> r.value == (AudioElementsOf(configs), FilesOf(hash, configs))
    ensures r.Success? ==> OnePerHash(hash, Used(presets), configs)
    ensures (forall c :: c in Used(presets) ==> BitrateParses(c)) ==> r.Success?
    ensures r.Success? && NoCollision(hash, Used(presets)) ==> forall c :: c in Used(presets) ==> BitrateParses(c)
  {
    var byHash := ConfigurationsByHash(hash, presets);
    r, configs := ElementsByHash(hash, byHash);
    forall c | c in Used(presets) ensures Covered(hash, configs, hash(c)) || r.Failure? {
      assert hash(c) in byHash && byHash[hash(c)] in byHash.Values;
    }
  }

  ghost predicate NoCollision(hash: Hasher, used: set<AudioConfig>) {
    forall c, d :: c in used && d in used && hash(c) == hash(d) ==> c == d
  }

  /** The encode written to the file that a configuration's hash names. */
  ghost predicate FindsOwnEncode(hash: Hasher, configs: seq<AudioConfig>, c: AudioConfig) {
    exists i :: 0 <= i < |configs| && hash(c) in FilesOf(hash, configs)
      && FilesOf(hash, configs)[hash(c)] == AudioFile(i, configs[i]) && configs[i] == c
  }

  lemma Finds(hash: Hasher, used: set<AudioConfig>, configs: seq<AudioConfig>, c: AudioConfig) returns (i: nat)
    requires OnePerHash(hash, used, configs) && c in used
    ensures i < |configs| && hash(configs[i]) == hash(c) && hash(c) in FilesOf(hash, configs)
    ensures FilesOf(hash, configs)[hash(c)] == AudioFile(i, configs[i])
  {
    assert Covered(hash, configs, hash(c));
    i :| 0 <= i < |configs| && hash(configs[i]) == hash(c);
    FileByHash(hash, configs, i);
  }

  /** Every used configuration is found again exactly when no two used ones share a hash. */
  lemma FoundAgainExactlyWithoutCollision(hash: Hasher, used: set<AudioConfig>, configs: seq<AudioConfig>)
    requires OnePerHash(hash, used, configs)
    ensures (forall c :: c in used ==> FindsOwnEncode(hash, configs, c)) <==> NoCollision(hash, used)
  {
    if NoCollision(hash, used) {
      forall c | c in used ensures FindsOwnEncode(hash, configs, c) {
        var i := Finds(hash, used, configs, c);
      }
    }
    if forall c :: c in used ==> FindsOwnEncode(hash, configs, c) {
      forall c, d | c in used && d in used && hash(c) == hash(d) ensures c == d {
        var i :| 0 <= i < |configs| && FilesOf(hash, configs)[hash(c)] == AudioFile(i, configs[i]) && configs[i] == c;
        var j :| 0 <= j < |configs| && FilesOf(hash, configs)[hash(d)] == AudioFile(j, configs[j]) && configs[j] == d;
        FilesDiffer(i, configs[i], j, configs[j]);
      }
    }
  }

  /** Without collisions there is one encode per distinct configuration, each in a file of its own. */
  lemma OneEncodePerConfiguration(hash: Hasher, used: set<AudioConfig>, configs: seq<AudioConfig>)
    requires OnePerHash(hash, used, configs) && NoCollision(hash, used)
    ensures forall c :: c in used <==> c in configs
    ensures forall i, j :: 0 <= i < j < |configs| ==>
      configs[i] != configs[j] && AudioFile(i, configs[i]) != AudioFile(j, configs[j])
  {
    forall c | c in used ensures c in configs {
      assert Covered(hash, configs, hash(c));
      var i :| 0 <= i < |configs| && hash(configs[i]) == hash(c);
    }
    forall i, j | 0 <= i < j < |configs| ensures AudioFile(i, configs[i]) != AudioFile(j, configs[j]) {
      FilesDiffer(i, configs[i], j, configs[j]);
    }
  }
}
