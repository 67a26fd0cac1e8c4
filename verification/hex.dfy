/**
 * Python's `bytes.hex(' ', 1)`, as the REPL client renders data
 * notifications: each byte as two lowercase hex digits, one space between
 * consecutive bytes. The parser is the partner that gives the rendering its
 * meaning: it reads exactly the strings the renderer produces.
 */
module Hex {
  import opened Results
  import opened Bytes

  /** Is `c` one of the digits Python writes: 0-9 and lower-case a-f. */
  predicate IsDigit(c: char) {
    '0' <= c <= '9' || 'a' <= c <= 'f'
  }

  /** The lower-case digit for a nibble. */
  function Digit(n: nat): (c: char)
    requires n < 16
    ensures IsDigit(c)
  {
    if n < 10 then ('0' as int + n) as char else ('a' as int + n - 10) as char
  }

  /** The nibble a digit stands for; upper-case digits are never written, so they are not read. */
  function DigitValue(c: char): (r: Option<nat>)
    ensures r.Some? <==> IsDigit(c)
    ensures r.Some? ==> r.value < 16 && Digit(r.value) == c
  {
    if '0' <= c <= '9' then Some(c as int - '0' as int)
    else if 'a' <= c <= 'f' then Some(c as int - 'a' as int + 10)
    else None
  }

  /** Every digit reads back as its nibble. */
  lemma DigitValueOfDigit(n: nat)
    requires n < 16
    ensures DigitValue(Digit(n)) == Some(n)
  {
  }

  /** The digits in nibble order are Python's table "0123456789abcdef". */
  lemma DigitTable()
    ensures forall n :: 0 <= n < 16 ==> Digit(n) == "0123456789abcdef"[n]
  {
  }

  /** One byte: high nibble, then low nibble. */
  function HexByte(b: byte): (r: string)
    ensures |r| == 2 && IsDigit(r[0]) && IsDigit(r[1])
  {
    [Digit(b / 16), Digit(b % 16)]
  }

  /**
   * The rendering of `data`: two digits per byte with a single space
   * between bytes, so 3n - 1 characters for n > 0 bytes and none for an
   * empty payload. Spaces stand exactly at the positions 2, 5, 8, ...
   */
  function Render(data: seq<byte>): (r: string)
    ensures |r| == if |data| == 0 then 0 else 3 * |data| - 1
    ensures forall k :: 0 <= k < |r| ==> (r[k] == ' ' <==> k % 3 == 2)
    ensures forall i :: 0 <= i < |data| ==> r[3 * i] == Digit(data[i] / 16) && r[3 * i + 1] == Digit(data[i] % 16)
    decreases |data|
  {
    if |data| == 0 then []
    else if |data| == 1 then HexByte(data[0])
    else
      var rest := Render(data[1..]);
      var r := HexByte(data[0]) + [' '] + rest;
      assert forall k :: 3 <= k < |r| ==> r[k] == rest[k - 3];
      assert forall i :: 1 <= i < |data| ==> data[i] == data[1..][i - 1];
      r
  }

  /** Reads one two-digit group. */
  function ParseByte(a: char, b: char): (r: Option<byte>)
  {
    var hi, lo := DigitValue(a), DigitValue(b);
    if hi.Some? && lo.Some? then Some(hi.value * 16 + lo.value) else None
  }

  /** Reads a rendering back: two-digit groups separated by single spaces. */
  function Parse(s: string): (r: Option<seq<byte>>)
    decreases |s|
  {
    if |s| == 0 then Some([])
    else if |s| < 2 then None
    else
      match ParseByte(s[0], s[1])
      case None => None
      case Some(b) =>
        if |s| == 2 then Some([b])
        else if |s| == 3 || s[2] != ' ' then None
        else
          match Parse(s[3..])
          case None => None
          case Some(rest) => Some([b] + rest)
  }

  /** Splitting a byte into nibbles and joining them again gives it back. */
  lemma ParseHexByte(b: byte)
    ensures ParseByte(HexByte(b)[0], HexByte(b)[1]) == Some(b)
  {
    var hi, lo := b / 16, b % 16;
    DigitValueOfDigit(hi);
    DigitValueOfDigit(lo);
    assert HexByte(b)[0] == Digit(hi) && HexByte(b)[1] == Digit(lo);
    assert hi * 16 + lo == b;
  }

  /** Every payload survives being rendered and read back. */
  lemma {:induction false} ParseRender(data: seq<byte>)
    ensures Parse(Render(data)) == Some(data)
    decreases |data|
  {
    if |data| == 1 {
      ParseHexByte(data[0]);
      assert [data[0]] == data;
    } else if |data| > 1 {
      var rest := Render(data[1..]);
      var r := Render(data);
      assert r == HexByte(data[0]) + [' '] + rest;
      assert r[3..] == rest;
      ParseHexByte(data[0]);
      ParseRender(data[1..]);
      assert [data[0]] + data[1..] == data;
    }
  }

  /** Only renderings are read: whatever the parser accepts is the rendering of what it returns. */
  lemma {:induction false} RenderParse(s: string)
    requires Parse(s).Some?
    ensures Render(Parse(s).value) == s
    decreases |s|
  {
    if |s| >= 2 {
      var hi := DigitValue(s[0]).value;
      var lo := DigitValue(s[1]).value;
      var b: byte := hi * 16 + lo;
      assert b / 16 == hi && b % 16 == lo;
      assert HexByte(b) == s[..2];
      if |s| > 2 {
        RenderParse(s[3..]);
        var d := Parse(s).value;
        assert d == [b] + Parse(s[3..]).value;
        assert d[1..] == Parse(s[3..]).value;
        assert s == s[..2] + [' '] + s[3..];
      }
    }
  }
}
