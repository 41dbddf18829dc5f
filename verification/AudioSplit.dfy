/** Splitting a multi-channel WAV description into one description per channel. */
module AudioSplit {

  class Cell {
    var value: int

    constructor (v: int)
      ensures value == v
    {
      value := v;
    }
  }

  datatype Codec = Wav | OtherCodec(name: string)

  class WavSettings {
    var channels: Cell

    constructor (c: Cell)
      ensures channels == c
    {
      channels := c;
    }
  }

  class CodecSettings {
    var codec: Codec
    var wav: WavSettings?

    constructor (c: Codec, w: WavSettings?)
      ensures codec == c && wav == w
    {
      codec, wav := c, w;
    }
  }

  datatype Remix = Remix(inputChannels: array<int>, channelsIn: Cell, channelsOut: Cell)

  datatype Description = Description(settings: CodecSettings?, normalized: bool, remix: seq<Remix>)

  const MUTED := -60

  /** A row of gains: one channel at 0, the others muted. */
  function Row(n: nat, i: nat): (row: seq<int>)
    requires i < n
    ensures |row| == n && forall j :: 0 <= j < n ==> row[j] == if j == i then 0 else MUTED
  {
    if i == n - 1 then Muted(n - 1) + [0] else Row(n - 1, i) + [MUTED]
  }

  function Muted(n: nat): (row: seq<int>)
    ensures |row| == n && forall j :: 0 <= j < n ==> row[j] == MUTED
  {
    if n == 0 then [] else Muted(n - 1) + [MUTED]
  }

  /** Channel `i` at full volume and the others sixty decibels down. */
  ghost predicate Opens(row: seq<int>, n: nat, i: nat) {
    |row| == n && forall j :: 0 <= j < n ==> row[j] == if j == i then 0 else -60
  }

  /** Each row has one open channel and each channel is open in one row: together they split the input. */
  lemma {:induction false} RowsSplitTheInput(n: nat, i: nat, j: nat, k: nat)
    requires i < n && j < n && k < n
    ensures Row(n, i)[j] == 0 && Row(n, i)[k] == 0 ==> j == k
    ensures Row(n, j)[i] == 0 && Row(n, k)[i] == 0 ==> j == k
    ensures Row(n, i) == Muted(n)[i := 0] && Opens(Row(n, i), n, i)
  {
  }

  /** Opens one channel in a copy: the given gains are not changed. */
  method Unmute(n: nat, channel: array<int>) returns (row: array<int>)
    requires n < channel.Length
    ensures fresh(row) && row[..] == channel[..][n := 0]
  {
    row := new int[channel.Length](i requires 0 <= i < channel.Length reads channel => channel[i]);
    row[n] := 0;
  }

  ghost predicate Splits(a: Description)
    reads a.settings, if a.settings == null then null else a.settings.wav,
      if a.settings == null || a.settings.wav == null then null else a.settings.wav.channels
  {
    a.settings != null && a.settings.codec.Wav? && a.settings.wav != null && a.settings.wav.channels.value >= 2
  }

  method MakeGain(n: nat) returns (gain: array<int>)
    ensures fresh(gain) && gain[..] == Muted(n)
  {
    gain := new int[n];
    for i := 0 to n
      invariant forall j :: 0 <= j < i ==> gain[j] == MUTED
    {
      gain[i] := MUTED;
    }
  }

  /** An n-channel WAV description becomes n of them, whose gains are the n rows. They all share the
      one codec object, which now says one channel, and still read n channels in; normalization is lost. */
  method Split(a: Description) returns (split: seq<Description>)
    modifies if a.settings == null || a.settings.wav == null then null else a.settings.wav.channels
    ensures !old(Splits(a)) ==> split == [a] && (a.settings != null && a.settings.wav != null ==>
      unchanged(a.settings.wav.channels))
    ensures old(Splits(a)) ==>
      var n := old(a.settings.wav.channels.value);
      && a.settings.wav.channels.value == 1
      && |split| == n
      && (forall i :: 0 <= i < n ==> split[i].settings == a.settings && !split[i].normalized && |split[i].remix| == 1)
      && (forall i :: 0 <= i < n ==> Opens(split[i].remix[0].inputChannels[..], n, i))
      && (forall i :: 0 <= i < n ==>
            split[i].remix[0].channelsIn.value == n && split[i].remix[0].channelsOut.value == 1)
      && (forall i, j :: 0 <= i < j < n ==> split[i].remix[0].inputChannels != split[j].remix[0].inputChannels)
  {
    if a.settings == null || !a.settings.codec.Wav? || a.settings.wav == null || a.settings.wav.channels.value < 2 {
      return [a];
    }
    var n := a.settings.wav.channels.value;
    var count := new Cell(n);
    var gain := MakeGain(n);
    a.settings.wav.channels.value := 1;
    split := [];
    for i := 0 to n
      invariant |split| == i && gain[..] == Muted(n) && count.value == n && a.settings.wav.channels.value == 1
      invariant forall k :: 0 <= k < i ==>
        split[k].settings == a.settings && !split[k].normalized && |split[k].remix| == 1
      invariant forall k :: 0 <= k < i ==>
        fresh(split[k].remix[0].inputChannels) && Opens(split[k].remix[0].inputChannels[..], n, k)
      invariant forall k :: 0 <= k < i ==>
        && split[k].remix[0].channelsIn == count
        && split[k].remix[0].channelsOut.value == 1 && fresh(split[k].remix[0].channelsOut)
      invariant forall j, k :: 0 <= j < k < i ==> split[j].remix[0].inputChannels != split[k].remix[0].inputChannels
    {
      var row := Unmute(i, gain);
      RowsSplitTheInput(n, i, i, i);
      var one := new Cell(1);
      split := split + [Description(a.settings, false, [Remix(row, count, one)])];
    }
  }
}
