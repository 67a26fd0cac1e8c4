/**
 * The audio side of `MonocleAudioServer` in networking/main.py: a buffer
 * that starts as a placeholder WAVE header, grows by one converted
 * fragment per notification on the data TX characteristic, and has its two
 * size fields patched when capture is over.
 *
 * Divergence from the WAVE form: the size fields are patched with
 * `int.to_bytes(4)`, which (Python 3.11 and later) writes BIG-endian bytes,
 * whereas the WAVE form and the rest of this very header are little-endian.
 * The model keeps the big-endian patch; `FinalizedHeaderAsRead` states what
 * a little-endian reader then sees.
 */
module Audio {
  import opened Bytes
  import opened Results
  import Wave

  /** The header written at construction: 8-bit mono PCM at 8000 Hz, both sizes zero. */
  const WAV_HEADER: seq<byte> := [
    0x52, 0x49, 0x46, 0x46, 0x00, 0x00, 0x00, 0x00, 0x57, 0x41, 0x56, 0x45, 0x66, 0x6d, 0x74, 0x20,
    0x10, 0x00, 0x00, 0x00, 0x01, 0x00, 0x01, 0x00, 0x40, 0x1f, 0x00, 0x00, 0x40, 0x1f, 0x00, 0x00,
    0x01, 0x00, 0x08, 0x00, 0x64, 0x61, 0x74, 0x61, 0x00, 0x00, 0x00, 0x00]

  /** PCM format tag 1, one channel, 8000 Hz, 8000 B/s, block align 1, 8 bits, no data yet. */
  const PCM8_MONO_8K: Wave.Header := Wave.Header(0, 1, 1, 8000, 8000, 1, 8, 0)

  /** The four tags of the literal header. */
  lemma HeaderTags()
    ensures WAV_HEADER[0..4] == Wave.RIFF_TAG && WAV_HEADER[8..12] == Wave.WAVE_TAG
    ensures WAV_HEADER[12..16] == Wave.FMT_TAG && WAV_HEADER[36..40] == Wave.DATA_TAG
  {
    HeaderRiffTag();
    HeaderWaveTag();
    HeaderFmtTag();
    HeaderDataTag();
  }

  /** One lemma per tag or field of the literal header, read byte by byte. */
  lemma HeaderRiffTag()
    ensures WAV_HEADER[0..4] == Wave.RIFF_TAG
  {
    assert WAV_HEADER[0] == 0x52 && WAV_HEADER[1] == 0x49 && WAV_HEADER[2] == 0x46 && WAV_HEADER[3] == 0x46;
    assert WAV_HEADER[0..4] == [WAV_HEADER[0], WAV_HEADER[1], WAV_HEADER[2], WAV_HEADER[3]];
  }

  lemma HeaderWaveTag()
    ensures WAV_HEADER[8..12] == Wave.WAVE_TAG
  {
    assert WAV_HEADER[8] == 0x57 && WAV_HEADER[9] == 0x41 && WAV_HEADER[10] == 0x56 && WAV_HEADER[11] == 0x45;
    assert WAV_HEADER[8..12] == [WAV_HEADER[8], WAV_HEADER[9], WAV_HEADER[10], WAV_HEADER[11]];
  }

  lemma HeaderFmtTag()
    ensures WAV_HEADER[12..16] == Wave.FMT_TAG
  {
    assert WAV_HEADER[12] == 0x66 && WAV_HEADER[13] == 0x6d && WAV_HEADER[14] == 0x74 && WAV_HEADER[15] == 0x20;
    assert WAV_HEADER[12..16] == [WAV_HEADER[12], WAV_HEADER[13], WAV_HEADER[14], WAV_HEADER[15]];
  }

  lemma HeaderDataTag()
    ensures WAV_HEADER[36..40] == Wave.DATA_TAG
  {
    assert WAV_HEADER[36] == 0x64 && WAV_HEADER[37] == 0x61 && WAV_HEADER[38] == 0x74 && WAV_HEADER[39] == 0x61;
    assert WAV_HEADER[36..40] == [WAV_HEADER[36], WAV_HEADER[37], WAV_HEADER[38], WAV_HEADER[39]];
  }

  /** The size fields of the literal header, read little-endian: both zero, and a 16-byte "fmt " chunk. */
  lemma HeaderSizes()
    ensures ReadLE32(WAV_HEADER[4..8]) == 0 && ReadLE32(WAV_HEADER[16..20]) == 16
    ensures ReadLE32(WAV_HEADER[40..44]) == 0
  {
    HeaderRiffSize();
    HeaderFmtSize();
    HeaderDataSize();
  }

  /** The format fields of the literal header, read little-endian. */
  lemma HeaderFields()
    ensures ReadLE16(WAV_HEADER[20..22]) == 1 && ReadLE16(WAV_HEADER[22..24]) == 1
    ensures ReadLE32(WAV_HEADER[24..28]) == 8000 && ReadLE32(WAV_HEADER[28..32]) == 8000
    ensures ReadLE16(WAV_HEADER[32..34]) == 1 && ReadLE16(WAV_HEADER[34..36]) == 8
  {
    HeaderFormatTag();
    HeaderChannels();
    HeaderSampleRate();
    HeaderByteRate();
    HeaderBlockAlign();
    HeaderBitsPerSample();
  }

  lemma HeaderRiffSize()
    ensures ReadLE32(WAV_HEADER[4..8]) == 0
  {
    assert WAV_HEADER[4] == 0x00 && WAV_HEADER[5] == 0x00 && WAV_HEADER[6] == 0x00 && WAV_HEADER[7] == 0x00;
    assert WAV_HEADER[4..8] == [WAV_HEADER[4], WAV_HEADER[5], WAV_HEADER[6], WAV_HEADER[7]];
  }

  lemma HeaderFmtSize()
    ensures ReadLE32(WAV_HEADER[16..20]) == 16
  {
    assert WAV_HEADER[16] == 0x10 && WAV_HEADER[17] == 0x00 && WAV_HEADER[18] == 0x00 && WAV_HEADER[19] == 0x00;
    assert WAV_HEADER[16..20] == [WAV_HEADER[16], WAV_HEADER[17], WAV_HEADER[18], WAV_HEADER[19]];
  }

  lemma HeaderFormatTag()
    ensures ReadLE16(WAV_HEADER[20..22]) == 1
  {
    assert WAV_HEADER[20] == 0x01 && WAV_HEADER[21] == 0x00;
    assert WAV_HEADER[20..22] == [WAV_HEADER[20], WAV_HEADER[21]];
  }

  lemma HeaderChannels()
    ensures ReadLE16(WAV_HEADER[22..24]) == 1
  {
    assert WAV_HEADER[22] == 0x01 && WAV_HEADER[23] == 0x00;
    assert WAV_HEADER[22..24] == [WAV_HEADER[22], WAV_HEADER[23]];
  }

  lemma HeaderSampleRate()
    ensures ReadLE32(WAV_HEADER[24..28]) == 8000
  {
    assert WAV_HEADER[24] == 0x40 && WAV_HEADER[25] == 0x1f && WAV_HEADER[26] == 0x00 && WAV_HEADER[27] == 0x00;
    assert WAV_HEADER[24..28] == [WAV_HEADER[24], WAV_HEADER[25], WAV_HEADER[26], WAV_HEADER[27]];
  }

  lemma HeaderByteRate()
    ensures ReadLE32(WAV_HEADER[28..32]) == 8000
  {
    assert WAV_HEADER[28] == 0x40 && WAV_HEADER[29] == 0x1f && WAV_HEADER[30] == 0x00 && WAV_HEADER[31] == 0x00;
    assert WAV_HEADER[28..32] == [WAV_HEADER[28], WAV_HEADER[29], WAV_HEADER[30], WAV_HEADER[31]];
  }

  lemma HeaderBlockAlign()
    ensures ReadLE16(WAV_HEADER[32..34]) == 1
  {
    assert WAV_HEADER[32] == 0x01 && WAV_HEADER[33] == 0x00;
    assert WAV_HEADER[32..34] == [WAV_HEADER[32], WAV_HEADER[33]];
  }

  lemma HeaderBitsPerSample()
    ensures ReadLE16(WAV_HEADER[34..36]) == 8
  {
    assert WAV_HEADER[34] == 0x08 && WAV_HEADER[35] == 0x00;
    assert WAV_HEADER[34..36] == [WAV_HEADER[34], WAV_HEADER[35]];
  }

  lemma HeaderDataSize()
    ensures ReadLE32(WAV_HEADER[40..44]) == 0
  {
    assert WAV_HEADER[40] == 0x00 && WAV_HEADER[41] == 0x00 && WAV_HEADER[42] == 0x00 && WAV_HEADER[43] == 0x00;
    assert WAV_HEADER[40..44] == [WAV_HEADER[40], WAV_HEADER[41], WAV_HEADER[42], WAV_HEADER[43]];
  }

  /** A WAVE reader finds in the literal header the 8-bit mono 8000 Hz PCM format. */
  lemma WavHeaderDecodes()
    ensures Wave.DecodeHeader(WAV_HEADER) == Some(PCM8_MONO_8K)
  {
    HeaderTags();
    HeaderSizes();
    HeaderFields();
  }

  /** The literal header is the WAVE layout of a consistent 8-bit mono 8000 Hz PCM format. */
  lemma WavHeaderLayout()
    ensures |WAV_HEADER| == Wave.HEADER_SIZE
    ensures Wave.Representable(PCM8_MONO_8K) && Wave.ConsistentPcm(PCM8_MONO_8K)
    ensures WAV_HEADER == Wave.EncodeHeader(PCM8_MONO_8K)
    ensures Wave.DecodeHeader(WAV_HEADER) == Some(PCM8_MONO_8K)
  {
    WavHeaderDecodes();
    Wave.EncodeDecodeHeader(WAV_HEADER);
    assert WAV_HEADER[..Wave.HEADER_SIZE] == WAV_HEADER;
  }

  /** The signed sample a raw byte denotes (numpy's int8 view of the byte). */
  function SignedSample(b: byte): (v: int)
    ensures -128 <= v < 128
    ensures v % 256 == b
  {
    if b < 0x80 then b else b - 256
  }

  /**
   * Offset-binary conversion of one sample: the unsigned byte that an
   * 8-bit WAVE reader decodes (by subtracting 0x80) to the same sample.
   */
  function ToUnsigned(b: byte): (u: byte)
    ensures u - 0x80 == SignedSample(b)
  {
    (SignedSample(b) + 0x80) % 256
  }

  /** The conversion agrees with the per-byte reference form `(c + 0x80) & 0xff`. */
  lemma ToUnsignedIsReference(b: byte)
    ensures ToUnsigned(b) == (b + 0x80) % 256
  {
  }

  /** The conversion is its own inverse, so no two samples collide. */
  lemma ToUnsignedInvolution(b: byte)
    ensures ToUnsigned(ToUnsigned(b)) == b
  {
  }

  /** The four boundary samples: -128, -1, 0 and 127. */
  lemma ToUnsignedBoundaries()
    ensures ToUnsigned(0x80) == 0x00
    ensures ToUnsigned(0xFF) == 0x7F
    ensures ToUnsigned(0x00) == 0x80
    ensures ToUnsigned(0x7F) == 0xFF
  {
  }

  /** A whole fragment converted byte by byte, order preserved. */
  function Convert(data: seq<byte>): (r: seq<byte>)
    ensures |r| == |data|
    ensures forall i :: 0 <= i < |data| ==> r[i] == ToUnsigned(data[i])
  {
    seq(|data|, i requires 0 <= i < |data| => ToUnsigned(data[i]))
  }

  /** The server's audio state: the `audio_buffer` bytearray. */
  datatype AudioServer = AudioServer(buffer: seq<byte>)

  /** A freshly constructed server: its buffer holds exactly a copy of the header. */
  function New(): (s: AudioServer)
    ensures |s.buffer| == Wave.HEADER_SIZE
    ensures Wave.DecodeHeader(s.buffer) == Some(PCM8_MONO_8K)
  {
    WavHeaderLayout();
    AudioServer(WAV_HEADER)
  }

  /**
   * One notification on the data TX characteristic: the payload is
   * converted and appended; everything already in the buffer stays put.
   */
  function HandleDataTx(s: AudioServer, data: seq<byte>): (s': AudioServer)
    ensures |s'.buffer| == |s.buffer| + |data|
    ensures s'.buffer[..|s.buffer|] == s.buffer
    ensures forall i :: 0 <= i < |data| ==> s'.buffer[|s.buffer| + i] == ToUnsigned(data[i])
  {
    AudioServer(s.buffer + Convert(data))
  }

  /**
   * The header patch of `process_audio`: bytes 4..8 receive `len - 8` and
   * bytes 40..44 receive `len - 44`, both big-endian. The buffer never holds
   * less than the header, and a length of 2^32 + 8 or more would make
   * `to_bytes(4)` raise OverflowError.
   */
  function ProcessAudio(s: AudioServer): (s': AudioServer)
    requires Wave.HEADER_SIZE <= |s.buffer| < TWO_32 + 8
    ensures |s'.buffer| == |s.buffer|
    ensures ReadBE32(s'.buffer[4..8]) == |s.buffer| - 8
    ensures ReadBE32(s'.buffer[40..44]) == |s.buffer| - Wave.HEADER_SIZE
    ensures forall i :: 0 <= i < |s.buffer| && !(4 <= i < 8) && !(40 <= i < 44) ==> s'.buffer[i] == s.buffer[i]
  {
    var b1 := Overwrite(s.buffer, 4, ToBytesBE32(|s.buffer| - 8));
    var b2 := Overwrite(b1, 40, ToBytesBE32(|b1| - Wave.HEADER_SIZE));
    AudioServer(b2)
  }

  /** Slice assignment `b[off:off+|w|] = w` with a replacement of the same length. */
  function Overwrite(b: seq<byte>, off: nat, w: seq<byte>): (r: seq<byte>)
    requires off + |w| <= |b|
    ensures |r| == |b|
    ensures r[off..off + |w|] == w
    ensures forall i :: 0 <= i < |b| && !(off <= i < off + |w|) ==> r[i] == b[i]
  {
    b[..off] + w + b[off + |w|..]
  }

  /** Patching a second time changes nothing: the length it writes has not moved. */
  lemma ProcessAudioIdempotent(s: AudioServer)
    requires Wave.HEADER_SIZE <= |s.buffer| < TWO_32 + 8
    ensures ProcessAudio(ProcessAudio(s)) == ProcessAudio(s)
  {
    var p := ProcessAudio(s);
    var q := ProcessAudio(p);
    ReadBE32Injective(p.buffer[4..8]);
    ReadBE32Injective(q.buffer[4..8]);
    ReadBE32Injective(p.buffer[40..44]);
    ReadBE32Injective(q.buffer[40..44]);
    assert q.buffer[4..8] == p.buffer[4..8];
    assert q.buffer[40..44] == p.buffer[40..44];
    assert forall i :: 0 <= i < |q.buffer| ==> q.buffer[i] == p.buffer[i] by {
      forall i | 0 <= i < |q.buffer|
        ensures q.buffer[i] == p.buffer[i]
      {
        if 4 <= i < 8 {
          assert q.buffer[i] == q.buffer[4..8][i - 4];
          assert p.buffer[i] == p.buffer[4..8][i - 4];
        } else if 40 <= i < 44 {
          assert q.buffer[i] == q.buffer[40..44][i - 40];
          assert p.buffer[i] == p.buffer[40..44][i - 40];
        }
      }
    }
  }

  /** Total number of bytes in a list of fragments. */
  function TotalLength(frags: seq<seq<byte>>): nat
  {
    if |frags| == 0 then 0 else TotalLength(frags[..|frags| - 1]) + |frags[|frags| - 1]|
  }

  /** The converted fragments laid end to end, in arrival order. */
  function Converted(frags: seq<seq<byte>>): (r: seq<byte>)
  {
    if |frags| == 0 then [] else Converted(frags[..|frags| - 1]) + Convert(frags[|frags| - 1])
  }

  /**
   * The server after construction and one notification per fragment, in
   * order: notifications only append, so the header stays at the front.
   */
  function Capture(frags: seq<seq<byte>>): (r: AudioServer)
    ensures |r.buffer| >= Wave.HEADER_SIZE && r.buffer[..Wave.HEADER_SIZE] == WAV_HEADER
  {
    if |frags| == 0 then New() else HandleDataTx(Capture(frags[..|frags| - 1]), frags[|frags| - 1])
  }

  /**
   * After construction and fragments F1..Fn the buffer is the untouched
   * header followed by the converted fragments in order, so its length is
   * 44 plus the sum of the fragment lengths.
   */
  lemma {:induction false} CaptureLayout(frags: seq<seq<byte>>)
    ensures Capture(frags).buffer == WAV_HEADER + Converted(frags)
    ensures |Capture(frags).buffer| == Wave.HEADER_SIZE + TotalLength(frags)
  {
    if |frags| == 0 {
      CaptureNone(frags);
    } else {
      var init, last := frags[..|frags| - 1], frags[|frags| - 1];
      CaptureLayout(init);
      ConvertedLength(init);
      CaptureLast(frags);
      AppendAssoc(WAV_HEADER, Converted(init), Convert(last));
    }
  }

  /** Concatenation regroups freely. */
  lemma AppendAssoc(a: seq<byte>, b: seq<byte>, c: seq<byte>)
    ensures a + b + c == a + (b + c)
  {
  }

  /** Before any fragment the buffer is the header alone. */
  lemma CaptureNone(frags: seq<seq<byte>>)
    requires |frags| == 0
    ensures Capture(frags).buffer == WAV_HEADER + Converted(frags)
    ensures |Capture(frags).buffer| == Wave.HEADER_SIZE + TotalLength(frags)
  {
    assert WAV_HEADER + [] == WAV_HEADER;
  }

  /** The last fragment is converted and appended behind the earlier ones. */
  lemma CaptureLast(frags: seq<seq<byte>>)
    requires |frags| > 0
    ensures Capture(frags).buffer == Capture(frags[..|frags| - 1]).buffer + Convert(frags[|frags| - 1])
    ensures Converted(frags) == Converted(frags[..|frags| - 1]) + Convert(frags[|frags| - 1])
    ensures TotalLength(frags) == TotalLength(frags[..|frags| - 1]) + |frags[|frags| - 1]|
  {
  }

  /** Conversion keeps the number of bytes received. */
  lemma {:induction false} ConvertedLength(frags: seq<seq<byte>>)
    ensures |Converted(frags)| == TotalLength(frags)
  {
    if |frags| != 0 {
      ConvertedLength(frags[..|frags| - 1]);
    }
  }

  /**
   * The finalized buffer after fragments F1..Fn: its big-endian `data` size
   * is the total fragment length and its RIFF size 36 more.
   */
  lemma FinalizedSizes(frags: seq<seq<byte>>)
    requires TotalLength(frags) + 36 < TWO_32
    ensures Wave.HEADER_SIZE <= |Capture(frags).buffer| < TWO_32 + 8
    ensures ReadBE32(ProcessAudio(Capture(frags)).buffer[40..44]) == TotalLength(frags)
    ensures ReadBE32(ProcessAudio(Capture(frags)).buffer[4..8]) == TotalLength(frags) + 36
  {
    CaptureLayout(frags);
  }

  /** The samples behind the header are untouched by finalizing. */
  lemma FinalizedSamples(frags: seq<seq<byte>>)
    requires TotalLength(frags) + 36 < TWO_32
    ensures Wave.HEADER_SIZE <= |Capture(frags).buffer| < TWO_32 + 8
    ensures ProcessAudio(Capture(frags)).buffer[Wave.HEADER_SIZE..] == Converted(frags)
  {
    CaptureLayout(frags);
    var b := Capture(frags).buffer;
    var p := ProcessAudio(Capture(frags)).buffer;
    assert forall i | Wave.HEADER_SIZE <= i < |p| :: p[i] == b[i];
    assert b[Wave.HEADER_SIZE..] == Converted(frags);
  }

  /** The patch leaves the four tags of the header as they were. */
  lemma PatchKeepsTags(s: AudioServer)
    requires Wave.HEADER_SIZE <= |s.buffer| < TWO_32 + 8
    ensures ProcessAudio(s).buffer[0..4] == s.buffer[0..4]
    ensures ProcessAudio(s).buffer[8..12] == s.buffer[8..12]
    ensures ProcessAudio(s).buffer[12..16] == s.buffer[12..16]
    ensures ProcessAudio(s).buffer[36..40] == s.buffer[36..40]
  {
  }

  /** The patch leaves the format fields of the header as they were. */
  lemma PatchKeepsFields(s: AudioServer)
    requires Wave.HEADER_SIZE <= |s.buffer| < TWO_32 + 8
    ensures ProcessAudio(s).buffer[16..20] == s.buffer[16..20]
    ensures ProcessAudio(s).buffer[20..22] == s.buffer[20..22]
    ensures ProcessAudio(s).buffer[22..24] == s.buffer[22..24]
    ensures ProcessAudio(s).buffer[24..28] == s.buffer[24..28]
    ensures ProcessAudio(s).buffer[28..32] == s.buffer[28..32]
    ensures ProcessAudio(s).buffer[32..34] == s.buffer[32..34]
    ensures ProcessAudio(s).buffer[34..36] == s.buffer[34..36]
  {
  }

  /**
   * What a little-endian WAVE reader makes of the finalized buffer: the
   * format fields are intact, but both sizes come out byte-swapped.
   */
  lemma FinalizedHeaderAsRead(s: AudioServer)
    requires Wave.HEADER_SIZE <= |s.buffer| < TWO_32 + 8
    requires Wave.DecodeHeader(s.buffer).Some?
    ensures Wave.DecodeHeader(ProcessAudio(s).buffer)
         == Some(Wave.DecodeHeader(s.buffer).value.(
              riffSize := Swap32(|s.buffer| - 8),
              dataSize := Swap32(|s.buffer| - Wave.HEADER_SIZE)))
  {
    var p := ProcessAudio(s).buffer;
    ReadBE32Injective(p[4..8]);
    ReadBE32Injective(p[40..44]);
    PatchKeepsTags(s);
    PatchKeepsFields(s);
  }
}
