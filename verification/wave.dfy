/**
 * The 44-byte RIFF/WAVE header of a canonical PCM file, as laid out in the
 * Microsoft/IBM Multimedia Programming Interface and Data Specifications 1.0
 * (WAVE form, "fmt " chunk of 16 bytes followed by the "data" chunk). All
 * multi-byte fields of that form are little-endian.
 */
module Wave {
  import opened Results
  import opened Bytes

  const HEADER_SIZE: nat := 44

  /** The four-character codes, as the ASCII bytes of "RIFF", "WAVE", "fmt " and "data". */
  const RIFF_TAG: seq<byte> := [0x52, 0x49, 0x46, 0x46]
  const WAVE_TAG: seq<byte> := [0x57, 0x41, 0x56, 0x45]
  const FMT_TAG: seq<byte> := [0x66, 0x6d, 0x74, 0x20]
  const DATA_TAG: seq<byte> := [0x64, 0x61, 0x74, 0x61]

  /** Length of a PCM "fmt " chunk body. */
  const PCM_FMT_SIZE: nat := 16

  /** The header fields that vary between files. */
  datatype Header = Header(
    riffSize: nat,
    formatTag: nat,
    channels: nat,
    sampleRate: nat,
    byteRate: nat,
    blockAlign: nat,
    bitsPerSample: nat,
    dataSize: nat)

  /** Every field fits in the width the header gives it. */
  predicate Representable(h: Header) {
    && h.riffSize < TWO_32
    && h.formatTag < TWO_16
    && h.channels < TWO_16
    && h.sampleRate < TWO_32
    && h.byteRate < TWO_32
    && h.blockAlign < TWO_16
    && h.bitsPerSample < TWO_16
    && h.dataSize < TWO_32
  }

  /** Lays the header out byte by byte. */
  function EncodeHeader(h: Header): (r: seq<byte>)
    requires Representable(h)
    ensures |r| == HEADER_SIZE
  {
    RIFF_TAG + ToBytesLE32(h.riffSize) + WAVE_TAG
    + FMT_TAG + ToBytesLE32(PCM_FMT_SIZE)
    + ToBytesLE16(h.formatTag) + ToBytesLE16(h.channels)
    + ToBytesLE32(h.sampleRate) + ToBytesLE32(h.byteRate)
    + ToBytesLE16(h.blockAlign) + ToBytesLE16(h.bitsPerSample)
    + DATA_TAG + ToBytesLE32(h.dataSize)
  }

  /**
   * Reads the header at the front of `b` the way a WAVE reader does:
   * the four tags and the PCM "fmt " chunk size must be present, and every
   * numeric field is read little-endian.
   */
  function DecodeHeader(b: seq<byte>): (r: Option<Header>)
    ensures r.Some? ==> Representable(r.value)
  {
    if |b| < HEADER_SIZE then None
    else if b[0..4] != RIFF_TAG || b[8..12] != WAVE_TAG || b[12..16] != FMT_TAG || b[36..40] != DATA_TAG then None
    else if ReadLE32(b[16..20]) != PCM_FMT_SIZE then None
    else
      Some(Header(
        ReadLE32(b[4..8]),
        ReadLE16(b[20..22]),
        ReadLE16(b[22..24]),
        ReadLE32(b[24..28]),
        ReadLE32(b[28..32]),
        ReadLE16(b[32..34]),
        ReadLE16(b[34..36]),
        ReadLE32(b[40..44])))
  }

  /** Every representable header survives being written and read back. */
  lemma DecodeEncodeHeader(h: Header)
    requires Representable(h)
    ensures DecodeHeader(EncodeHeader(h)) == Some(h)
  {
    EncodedTags(h);
    EncodedChunkFields(h);
    EncodedFormatFields(h);
  }

  /** Where the encoding puts the four tags. */
  lemma EncodedTags(h: Header)
    requires Representable(h)
    ensures var b := EncodeHeader(h);
      b[0..4] == RIFF_TAG && b[8..12] == WAVE_TAG && b[12..16] == FMT_TAG && b[36..40] == DATA_TAG
  {
    var b := EncodeHeader(h);
    var riff := RIFF_TAG + ToBytesLE32(h.riffSize) + WAVE_TAG;
    assert b[..12] == riff;
    assert b[0..4] == riff[0..4] == RIFF_TAG;
    assert b[8..12] == riff[8..12] == WAVE_TAG;
    assert b[12..16] == FMT_TAG;
    assert b[36..40] == DATA_TAG;
  }

  /** Where the encoding puts the RIFF size, the "fmt " chunk size and the data size. */
  lemma EncodedChunkFields(h: Header)
    requires Representable(h)
    ensures var b := EncodeHeader(h);
      b[4..8] == ToBytesLE32(h.riffSize) && b[16..20] == ToBytesLE32(PCM_FMT_SIZE) && b[40..44] == ToBytesLE32(h.dataSize)
  {
    var b := EncodeHeader(h);
    assert b[4..8] == ToBytesLE32(h.riffSize);
    assert b[16..20] == ToBytesLE32(PCM_FMT_SIZE);
    assert b[40..44] == ToBytesLE32(h.dataSize);
  }

  /** Where the encoding puts the six fields of the "fmt " chunk body. */
  lemma EncodedFormatFields(h: Header)
    requires Representable(h)
    ensures var b := EncodeHeader(h);
      && b[20..22] == ToBytesLE16(h.formatTag) && b[22..24] == ToBytesLE16(h.channels)
      && b[24..28] == ToBytesLE32(h.sampleRate) && b[28..32] == ToBytesLE32(h.byteRate)
      && b[32..34] == ToBytesLE16(h.blockAlign) && b[34..36] == ToBytesLE16(h.bitsPerSample)
  {
    var b := EncodeHeader(h);
    assert b[20..22] == ToBytesLE16(h.formatTag);
    assert b[22..24] == ToBytesLE16(h.channels);
    assert b[24..28] == ToBytesLE32(h.sampleRate);
    assert b[28..32] == ToBytesLE32(h.byteRate);
    assert b[32..34] == ToBytesLE16(h.blockAlign);
    assert b[34..36] == ToBytesLE16(h.bitsPerSample);
  }

  /** A header the reader accepts is exactly the encoding of what it read. */
  lemma EncodeDecodeHeader(b: seq<byte>)
    requires DecodeHeader(b).Some?
    ensures EncodeHeader(DecodeHeader(b).value) == b[..HEADER_SIZE]
  {
    var h := DecodeHeader(b).value;
    ReadLE32Injective(b[4..8]);
    ReadLE32Injective(b[16..20]);
    ReadLE16Injective(b[20..22]);
    ReadLE16Injective(b[22..24]);
    ReadLE32Injective(b[24..28]);
    ReadLE32Injective(b[28..32]);
    ReadLE16Injective(b[32..34]);
    ReadLE16Injective(b[34..36]);
    ReadLE32Injective(b[40..44]);
    assert b[..HEADER_SIZE] == b[0..4] + b[4..8] + b[8..12] + b[12..16] + b[16..20]
      + b[20..22] + b[22..24] + b[24..28] + b[28..32] + b[32..34] + b[34..36]
      + b[36..40] + b[40..44];
  }

  /** The byte rate and block alignment a PCM header must carry for its other fields. */
  predicate ConsistentPcm(h: Header) {
    && h.formatTag == 1
    && h.blockAlign * 8 == h.channels * h.bitsPerSample
    && h.byteRate == h.sampleRate * h.blockAlign
  }
}
