/** Optional values, used wherever a parser can reject its input. */
module Results {

  datatype Option<+T> = None | Some(value: T)
}

/** Octets and the fixed-width integer encodings the audio container uses. */
module Bytes {

  /** One element of a Python `bytes`/`bytearray`. */
  type byte = b: int | 0 <= b < 256

  const TWO_16: int := 0x1_0000
  const TWO_32: int := 0x1_0000_0000

  /** Reads four bytes as an unsigned integer, most significant byte first. */
  function ReadBE32(s: seq<byte>): (n: nat)
    requires |s| == 4
    ensures n < TWO_32
  {
    ((s[0] as int * 256 + s[1]) * 256 + s[2]) * 256 + s[3]
  }

  /** Reads four bytes as an unsigned integer, least significant byte first. */
  function ReadLE32(s: seq<byte>): (n: nat)
    requires |s| == 4
    ensures n < TWO_32
    ensures n == ReadBE32([s[3], s[2], s[1], s[0]])
  {
    ((s[3] as int * 256 + s[2]) * 256 + s[1]) * 256 + s[0]
  }

  /** Reads two bytes as an unsigned integer, least significant byte first. */
  function ReadLE16(s: seq<byte>): (n: nat)
    requires |s| == 2
    ensures n < TWO_16
  {
    s[1] as int * 256 + s[0]
  }

  /**
   * Python's `n.to_bytes(4)`: since Python 3.11 the byte order defaults to
   * "big", so the most significant byte comes first. Values of 2^32 and
   * above raise OverflowError, hence the precondition.
   */
  function ToBytesBE32(n: int): (r: seq<byte>)
    requires 0 <= n < TWO_32
    ensures |r| == 4
    ensures ReadBE32(r) == n
  {
    var q1 := n / 256;
    var q2 := q1 / 256;
    [q2 / 256, q2 % 256, q1 % 256, n % 256]
  }

  /** The four-byte little-endian form of `n`, as a RIFF reader expects it. */
  function ToBytesLE32(n: int): (r: seq<byte>)
    requires 0 <= n < TWO_32
    ensures |r| == 4
    ensures ReadLE32(r) == n
  {
    var q1 := n / 256;
    var q2 := q1 / 256;
    [n % 256, q1 % 256, q2 % 256, q2 / 256]
  }

  /** The two-byte little-endian form of `n`. */
  function ToBytesLE16(n: int): (r: seq<byte>)
    requires 0 <= n < TWO_16
    ensures |r| == 2
    ensures ReadLE16(r) == n
  {
    [n % 256, n / 256]
  }

  /** `n` with the order of its four bytes reversed. */
  function Swap32(n: int): (m: nat)
    requires 0 <= n < TWO_32
    ensures m < TWO_32
  {
    ReadLE32(ToBytesBE32(n))
  }

  /** Splitting `hi * 256 + lo` at a byte boundary recovers both parts. */
  lemma DivModByte(hi: int, lo: int)
    requires 0 <= hi && 0 <= lo < 256
    ensures (hi * 256 + lo) / 256 == hi
    ensures (hi * 256 + lo) % 256 == lo
  {
  }

  /** Writing the value read from four big-endian bytes gives them back. */
  lemma {:induction false} ReadBE32Injective(s: seq<byte>)
    requires |s| == 4
    ensures ToBytesBE32(ReadBE32(s)) == s
  {
    var q2 := s[0] as int * 256 + s[1];
    var q1 := q2 * 256 + s[2];
    DivModByte(q1, s[3]);
    DivModByte(q2, s[2]);
    DivModByte(s[0], s[1]);
  }

  /** Writing the value read from four little-endian bytes gives them back. */
  lemma {:induction false} ReadLE32Injective(s: seq<byte>)
    requires |s| == 4
    ensures ToBytesLE32(ReadLE32(s)) == s
  {
    var q2 := s[3] as int * 256 + s[2];
    var q1 := q2 * 256 + s[1];
    DivModByte(q1, s[0]);
    DivModByte(q2, s[1]);
    DivModByte(s[3], s[2]);
  }

  lemma ReadLE16Injective(s: seq<byte>)
    requires |s| == 2
    ensures ToBytesLE16(ReadLE16(s)) == s
  {
  }

  /**
   * A little-endian reader of a big-endian field of value `n` sees
   * `Swap32(n)`; the two agree only on byte palindromes, so for every
   * value 1..255 the reader sees a value 2^24 times too large.
   */
  lemma SwapSmall(n: int)
    requires 0 < n < 256
    ensures Swap32(n) == n * 0x100_0000
    ensures Swap32(n) != n
  {
  }

  /** Swapping twice gives back the original value. */
  lemma SwapInvolution(n: int)
    requires 0 <= n < TWO_32
    ensures Swap32(Swap32(n)) == n
  {
    var b := ToBytesBE32(n);
    var r := [b[3], b[2], b[1], b[0]];
    assert Swap32(n) == ReadBE32(r);
    ReadBE32Injective(r);
    assert ReadLE32(ToBytesBE32(ReadBE32(r))) == ReadLE32(r);
  }
}
