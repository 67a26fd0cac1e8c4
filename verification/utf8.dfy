/**
 * Python's `str.encode()` with its default codec, UTF-8 (RFC 3629), over
 * Dafny's `char`, which ranges over Unicode scalar values exactly as the
 * strict UTF-8 encoder accepts them, so a lone surrogate cannot occur. The
 * strict decoder is the partner that gives the encoder its meaning: it reads
 * back exactly the encoded text.
 */
module Utf8 {
  import opened Results
  import opened Bytes

  /** A continuation byte, 10xxxxxx. */
  predicate IsContinuation(b: byte) {
    0x80 <= b < 0xC0
  }

  /** The encoding of a single scalar value: 1 to 4 bytes depending on its size. */
  function EncodeChar(c: char): (r: seq<byte>)
    ensures 1 <= |r| <= 4
    ensures |r| == 1 <==> c as int < 0x80
    ensures |r| == 1 ==> r[0] == c as int
    ensures |r| > 1 ==> forall i :: 0 <= i < |r| ==> 0x80 <= r[i]
    ensures forall i :: 1 <= i < |r| ==> IsContinuation(r[i])
  {
    var cp := c as int;
    if cp < 0x80 then [cp]
    else if cp < 0x800 then [0xC0 + cp / 64, 0x80 + cp % 64]
    else if cp < 0x1_0000 then [0xE0 + cp / 4096, 0x80 + (cp / 64) % 64, 0x80 + cp % 64]
    else [0xF0 + cp / 262144, 0x80 + (cp / 4096) % 64, 0x80 + (cp / 64) % 64, 0x80 + cp % 64]
  }

  /**
   * The encoding of a string: the encodings of its characters, in order,
   * so it takes one to four bytes per character.
   */
  function Encode(s: string): (r: seq<byte>)
    ensures |s| <= |r| <= 4 * |s|
  {
    var parts := seq(|s|, i requires 0 <= i < |s| => EncodeChar(s[i]));
    FlattenLength(parts);
    Flatten(parts)
  }

  /** Byte strings laid end to end. */
  function Flatten(parts: seq<seq<byte>>): seq<byte>
  {
    if |parts| == 0 then [] else parts[0] + Flatten(parts[1..])
  }

  /** Parts of one to four bytes each flatten to one to four bytes per part. */
  lemma {:induction false} FlattenLength(parts: seq<seq<byte>>)
    requires forall i :: 0 <= i < |parts| ==> 1 <= |parts[i]| <= 4
    ensures |parts| <= |Flatten(parts)| <= 4 * |parts|
  {
    if |parts| != 0 {
      FlattenLength(parts[1..]);
    }
  }

  /** The encoding of a non-empty string starts with that of its first character. */
  lemma EncodeCons(s: string)
    requires |s| > 0
    ensures Encode(s) == EncodeChar(s[0]) + Encode(s[1..])
  {
    var parts := seq(|s|, i requires 0 <= i < |s| => EncodeChar(s[i]));
    assert parts[1..] == seq(|s[1..]|, i requires 0 <= i < |s[1..]| => EncodeChar(s[1..][i]));
  }

  /** A one-character string encodes as that character. */
  lemma EncodeSingle(c: char)
    ensures Encode([c]) == EncodeChar(c)
  {
    EncodeCons([c]);
    assert [c][1..] == [];
  }

  /**
   * Decodes the first character of `b`, returning it with the number of
   * bytes it took. Overlong forms, surrogates and values above U+10FFFF are
   * rejected, so every accepted prefix is the encoding of what it decodes to.
   */
  function DecodeFirst(b: seq<byte>): (r: Option<(char, nat)>)
    requires |b| > 0
    ensures r.Some? ==> 1 <= r.value.1 <= |b| && b[..r.value.1] == EncodeChar(r.value.0)
  {
    var b0 := b[0] as int;
    if b0 < 0x80 then
      Some((b0 as char, 1))
    else if 0xC0 <= b0 < 0xE0 && |b| >= 2 && IsContinuation(b[1]) then
      var cp := (b0 - 0xC0) * 64 + (b[1] - 0x80);
      if cp < 0x80 then None
      else
        TwoByteForm(b, cp);
        Some((cp as char, 2))
    else if 0xE0 <= b0 < 0xF0 && |b| >= 3 && IsContinuation(b[1]) && IsContinuation(b[2]) then
      var cp := ((b0 - 0xE0) * 64 + (b[1] - 0x80)) * 64 + (b[2] - 0x80);
      if cp < 0x800 || (0xD800 <= cp && cp < 0xE000) then None
      else
        ThreeByteForm(b, cp);
        Some((cp as char, 3))
    else if 0xF0 <= b0 < 0xF8 && |b| >= 4 && IsContinuation(b[1]) && IsContinuation(b[2]) && IsContinuation(b[3]) then
      var cp := (((b0 - 0xF0) * 64 + (b[1] - 0x80)) * 64 + (b[2] - 0x80)) * 64 + (b[3] - 0x80);
      if cp < 0x1_0000 || cp > 0x10_FFFF then None
      else
        FourByteForm(b, cp);
        Some((cp as char, 4))
    else
      None
  }

  /** An accepted two-byte form is the encoding of the value it carries. */
  lemma TwoByteForm(b: seq<byte>, cp: int)
    requires |b| >= 2 && 0xC0 <= b[0] < 0xE0 && IsContinuation(b[1])
    requires cp == (b[0] as int - 0xC0) * 64 + (b[1] as int - 0x80) && 0x80 <= cp
    ensures cp < 0x800 && b[..2] == EncodeChar(cp as char)
  {
    DivMod64(b[0] as int - 0xC0, b[1] as int - 0x80);
  }

  /** An accepted three-byte form is the encoding of the value it carries. */
  lemma ThreeByteForm(b: seq<byte>, cp: int)
    requires |b| >= 3 && 0xE0 <= b[0] < 0xF0 && IsContinuation(b[1]) && IsContinuation(b[2])
    requires cp == ((b[0] as int - 0xE0) * 64 + (b[1] as int - 0x80)) * 64 + (b[2] as int - 0x80)
    requires 0x800 <= cp && !(0xD800 <= cp < 0xE000)
    ensures cp < 0x1_0000 && b[..3] == EncodeChar(cp as char)
  {
    var hi: int := (b[0] as int - 0xE0) * 64 + (b[1] as int - 0x80);
    DivMod64(hi, b[2] as int - 0x80);
    DivMod64(b[0] as int - 0xE0, b[1] as int - 0x80);
    assert cp / 4096 == hi / 64 == b[0] as int - 0xE0;
  }

  /** An accepted four-byte form is the encoding of the value it carries. */
  lemma FourByteForm(b: seq<byte>, cp: int)
    requires |b| >= 4 && 0xF0 <= b[0] < 0xF8 && IsContinuation(b[1]) && IsContinuation(b[2]) && IsContinuation(b[3])
    requires cp == (((b[0] as int - 0xF0) * 64 + (b[1] as int - 0x80)) * 64 + (b[2] as int - 0x80)) * 64 + (b[3] as int - 0x80)
    requires 0x1_0000 <= cp <= 0x10_FFFF
    ensures b[..4] == EncodeChar(cp as char)
  {
    var top: int := (b[0] as int - 0xF0) * 64 + (b[1] as int - 0x80);
    var hi: int := top * 64 + (b[2] as int - 0x80);
    DivMod64(hi, b[3] as int - 0x80);
    DivMod64(top, b[2] as int - 0x80);
    DivMod64(b[0] as int - 0xF0, b[1] as int - 0x80);
    assert cp / 4096 == hi / 64 == top;
    assert cp / 262144 == top / 64 == b[0] as int - 0xF0;
  }

  /** Decodes a whole byte string, or rejects it if any part is malformed. */
  function Decode(b: seq<byte>): (r: Option<string>)
    ensures r.Some? ==> Encode(r.value) == b
    decreases |b|
  {
    if |b| == 0 then Some([])
    else
      match DecodeFirst(b)
      case None => None
      case Some((c, n)) =>
        match Decode(b[n..])
        case None => None
        case Some(rest) =>
          DecodeStep(b, c, n, rest);
          Some([c] + rest)
  }

  /** A character decoded from the front, followed by the decoding of the remainder, encodes back to the whole. */
  lemma DecodeStep(b: seq<byte>, c: char, n: nat, rest: string)
    requires 1 <= n <= |b| && b[..n] == EncodeChar(c) && Encode(rest) == b[n..]
    ensures Encode([c] + rest) == b
  {
    assert b == b[..n] + b[n..];
    assert ([c] + rest)[1..] == rest;
    EncodeCons([c] + rest);
  }

  /** Splitting `hi * 64 + lo` at six bits recovers both parts. */
  lemma DivMod64(hi: int, lo: int)
    requires 0 <= hi && 0 <= lo < 64
    ensures (hi * 64 + lo) / 64 == hi
    ensures (hi * 64 + lo) % 64 == lo
  {
  }

  /** The first character of an encoding decodes back to itself, whatever follows. */
  lemma DecodeFirstEncodeChar(c: char, rest: seq<byte>)
    ensures DecodeFirst(EncodeChar(c) + rest) == Some((c, |EncodeChar(c)|))
  {
    var cp := c as int;
    if cp < 0x80 {
    } else if cp < 0x800 {
      DecodeFirstTwo(c, rest);
    } else if cp < 0x1_0000 {
      DecodeFirstThree(c, rest);
    } else {
      DecodeFirstFour(c, rest);
    }
  }

  lemma DecodeFirstTwo(c: char, rest: seq<byte>)
    requires 0x80 <= c as int < 0x800
    ensures DecodeFirst(EncodeChar(c) + rest) == Some((c, 2))
  {
    var cp := c as int;
    DivMod64(cp / 64, cp % 64);
  }

  lemma DecodeFirstThree(c: char, rest: seq<byte>)
    requires 0x800 <= c as int < 0x1_0000
    ensures DecodeFirst(EncodeChar(c) + rest) == Some((c, 3))
  {
    var cp := c as int;
    var b := EncodeChar(c) + rest;
    assert b[0] == 0xE0 + cp / 4096 && b[1] == 0x80 + (cp / 64) % 64 && b[2] == 0x80 + cp % 64;
    assert cp == ((cp / 4096) * 64 + (cp / 64) % 64) * 64 + cp % 64;
  }

  lemma DecodeFirstFour(c: char, rest: seq<byte>)
    requires 0x1_0000 <= c as int
    ensures DecodeFirst(EncodeChar(c) + rest) == Some((c, 4))
  {
    var cp := c as int;
    var q1 := cp / 64;
    var q2 := q1 / 64;
    var q3 := q2 / 64;
    assert cp / 4096 == q2 && cp / 262144 == q3;
    assert q2 == q3 * 64 + q2 % 64;
    assert q1 == q2 * 64 + q1 % 64;
    assert cp == q1 * 64 + cp % 64;
    var b := EncodeChar(c) + rest;
    assert b[..4] == [0xF0 + q3, 0x80 + q2 % 64, 0x80 + q1 % 64, 0x80 + cp % 64];
  }

  /** Encoding distributes over concatenation. */
  lemma {:induction false} EncodeAppend(s: string, t: string)
    ensures Encode(s + t) == Encode(s) + Encode(t)
  {
    if |s| == 0 {
      assert s + t == t;
    } else {
      assert (s + t)[0] == s[0];
      assert (s + t)[1..] == s[1..] + t;
      EncodeCons(s);
      EncodeCons(s + t);
      EncodeAppend(s[1..], t);
    }
  }

  /** Decoding undoes encoding: every string survives the round trip. */
  lemma {:induction false} DecodeEncode(s: string)
    ensures Decode(Encode(s)) == Some(s)
  {
    if |s| == 0 {
    } else {
      var e := EncodeChar(s[0]);
      EncodeCons(s);
      DecodeFirstEncodeChar(s[0], Encode(s[1..]));
      assert (e + Encode(s[1..]))[|e|..] == Encode(s[1..]);
      DecodeEncode(s[1..]);
      assert [s[0]] + s[1..] == s;
    }
  }

  /** A byte below 0x80 occurs in an encoding exactly where that ASCII character occurs in the text. */
  lemma {:induction false} AsciiByteIn(s: string, c: char)
    requires c as int < 0x80
    ensures (c as int in Encode(s)) <==> (c in s)
  {
    if |s| == 0 {
    } else {
      AsciiByteIn(s[1..], c);
      EncodeCons(s);
      assert s == [s[0]] + s[1..];
    }
  }
}
