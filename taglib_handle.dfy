/**
 * An abstract TagLib::FileRef: what the tagging library would report for one
 * opened file. Parsing, validity and the values themselves belong to TagLib;
 * here they are just fields of a value.
 */
module TagLibHandle {
  import opened Wrappers
  import opened ContentPlugin

  /** A C++ `unsigned int` (TagLib stores year and track this way). */
  type UInt32 = x: int | 0 <= x < 0x1_0000_0000

  /** The generic tag (TagLib::Tag). */
  datatype Tag = Tag(title: string, artist: string, album: string, comment: string,
                     genre: string, year: UInt32, track: UInt32)

  /** Audio properties (TagLib::AudioProperties). */
  datatype Properties = Properties(bitrate: Int32, sampleRate: Int32, channels: Int32, length: Int32)

  /** The concrete TagLib::File class behind the handle; the dynamic_cast probes become a closed choice. */
  datatype Kind = Mpeg | Flac | Mpc | Ogg | TrueAudio | WavPack | OtherKind

  /** A sub-tag (ID3v1, APE, Xiph comment) reduced to its isEmpty() answer. */
  datatype SubTag = SubTag(isEmpty: bool)

  /** An ID3v2 tag: isEmpty() and the header's version numbers. */
  datatype Id3v2Tag = Id3v2Tag(isEmpty: bool, majorVersion: nat, revisionNumber: nat)

  /**
   * A handle. `isNull` is FileRef::isNull(); `tag` and `properties` are what
   * tag() and audioProperties() return (None for NULL); `kind` and `isValid`
   * drive the container probes, and the four sub-tag fields are what the
   * probed class's accessors (ID3v2Tag(), ID3v1Tag(), APETag(), xiphComment())
   * return. TagLib's isNull() is already true for an invalid file, so a
   * handle with `!isNull && !isValid` stands for no real FileRef; the two
   * fields are kept independent all the same.
   */
  datatype Handle = Handle(isNull: bool, tag: Option<Tag>, properties: Option<Properties>,
                           kind: Kind, isValid: bool,
                           id3v2: Option<Id3v2Tag>, id3v1: Option<SubTag>,
                           ape: Option<SubTag>, xiph: Option<SubTag>)

  /** The implicit conversion of an `__int32` to `unsigned int` (modulo 2^32). */
  function ToUnsigned(v: Int32): (u: UInt32)
    ensures (u - v) % 0x1_0000_0000 == 0
    ensures v >= 0 ==> u == v
  {
    if v < 0 then v + 0x1_0000_0000 else v
  }

  /** The conversion of an `unsigned int` back to `__int32` (two's complement). */
  function ToSigned(u: UInt32): (v: Int32)
    ensures (u - v) % 0x1_0000_0000 == 0
    ensures u < 0x8000_0000 ==> v == u
  {
    if u < 0x8000_0000 then u else u - 0x1_0000_0000
  }

  /** Storing an `__int32` as unsigned and reading it back as `__int32` loses nothing. */
  lemma SignedRoundTrip(v: Int32)
    ensures ToSigned(ToUnsigned(v)) == v
    ensures ToUnsigned(v) == 0 <==> v == 0
  {
  }
}
