/** The elements of a Hybrik job and what they carry. */
module Elements {

  datatype AudioConfig = AudioConfig(codec: string, bitrate: string, normalization: bool, discreteTracks: bool)

  const NO_AUDIO := AudioConfig("", "", false, false)

  datatype Payload =
    | Assets
    | Packaging
    | Transcode(file: string)
    | AudioEncode(audioFile: string, config: AudioConfig)
    | MezzanineQC
    | Encode(transcodes: seq<Element>, audioStreams: seq<string>)

  datatype Element = Element(uid: string, payload: Payload)
}
