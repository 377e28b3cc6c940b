/** `to_hex_string` of src/util.rs: each byte as two lower-case hex digits
    (`{:02x}`), joined by single spaces. Characters are modelled as bytes
    (the output is ASCII). */
module Util {
  import opened Common

  const SPACE: byte := 0x20

  /** The ASCII code of a hex digit 0..15, lower case. */
  function HexDigit(d: int): (r: byte)
    requires 0 <= d < 16
    ensures d < 10 ==> r == 0x30 + d
    ensures 10 <= d ==> r == 0x61 + (d - 10)
  {
    if d < 10 then 0x30 + d else 0x61 + (d - 10)
  }

  /** The value of a lower-case hex digit, if it is one. */
  function DigitValue(c: byte): (r: Option<int>)
    ensures r.Some? ==> 0 <= r.value < 16 && HexDigit(r.value) == c
  {
    if 0x30 <= c <= 0x39 then Some(c - 0x30)
    else if 0x61 <= c <= 0x66 then Some(c - 0x61 + 10)
    else None
  }

  lemma DigitRoundTrip(d: int)
    requires 0 <= d < 16
    ensures DigitValue(HexDigit(d)) == Some(d)
  {
  }

  /** `format!("{:02x}", b)`. */
  function HexByte(b: byte): (r: seq<byte>)
    ensures |r| == 2 && r[0] == HexDigit(b / 16) && r[1] == HexDigit(b % 16)
  {
    [HexDigit(b / 16), HexDigit(b % 16)]
  }

  /** `to_hex_string`: the renderings joined by single spaces. */
  function ToHexString(bytes: seq<byte>): (r: seq<byte>)
    ensures bytes == [] <==> r == []
    decreases |bytes|
  {
    if bytes == [] then []
    else if |bytes| == 1 then HexByte(bytes[0])
    else HexByte(bytes[0]) + [SPACE] + ToHexString(bytes[1..])
  }

  /** The output is 3n - 1 characters for n bytes, byte i sits at 3i and
      3i + 1, and a space at 3i + 2 between neighbours. */
  lemma {:induction false} HexLayout(bytes: seq<byte>)
    requires bytes != []
    ensures var r := ToHexString(bytes);
      && |r| == 3 * |bytes| - 1
      && (forall i | 0 <= i < |bytes| :: r[3 * i] == HexDigit(bytes[i] / 16) && r[3 * i + 1] == HexDigit(bytes[i] % 16))
      && (forall i | 0 <= i < |bytes| - 1 :: r[3 * i + 2] == SPACE)
    decreases |bytes|
  {
    if |bytes| > 1 {
      HexLayout(bytes[1..]);
      var r := ToHexString(bytes);
      var tail := ToHexString(bytes[1..]);
      assert r == HexByte(bytes[0]) + [SPACE] + tail;
      forall i | 1 <= i < |bytes|
        ensures r[3 * i] == HexDigit(bytes[i] / 16) && r[3 * i + 1] == HexDigit(bytes[i] % 16)
      {
        assert r[3 * i] == tail[3 * (i - 1)];
        assert r[3 * i + 1] == tail[3 * (i - 1) + 1];
        assert bytes[1..][i - 1] == bytes[i];
      }
      forall i | 1 <= i < |bytes| - 1
        ensures r[3 * i + 2] == SPACE
      {
        assert r[3 * i + 2] == tail[3 * (i - 1) + 2];
      }
    }
  }

  /** Reading the bytes back from a rendering: two digits per byte at 3i
      and 3i + 1. */
  function ParseHexString(s: seq<byte>): (r: Option<seq<byte>>)
    decreases |s|
  {
    if |s| < 2 then (if s == [] then Some([]) else None)
    else
      var hi := DigitValue(s[0]);
      var lo := DigitValue(s[1]);
      if hi.None? || lo.None? then None
      else if |s| == 2 then Some([hi.value * 16 + lo.value])
      else if s[2] != SPACE || |s| == 3 then None
      else match ParseHexString(s[3..])
        case None => None
        case Some(rest) => Some([hi.value * 16 + lo.value] + rest)
  }

  /** Parsing the rendering recovers the bytes. */
  lemma {:induction false} HexRoundTrip(bytes: seq<byte>)
    ensures ParseHexString(ToHexString(bytes)) == Some(bytes)
    decreases |bytes|
  {
    if bytes != [] {
      var b := bytes[0];
      DigitRoundTrip(b / 16);
      DigitRoundTrip(b % 16);
      var s := ToHexString(bytes);
      assert s[0] == HexDigit(b / 16) && s[1] == HexDigit(b % 16);
      assert (b / 16) * 16 + b % 16 == b;
      if |bytes| == 1 {
        assert s == HexByte(b);
        assert bytes == [b];
      } else {
        HexRoundTrip(bytes[1..]);
        assert s[3..] == ToHexString(bytes[1..]);
        assert ToHexString(bytes[1..]) != [];
        assert s[2] == SPACE && |s| > 3;
        assert [b] + bytes[1..] == bytes;
      }
    }
  }
}
