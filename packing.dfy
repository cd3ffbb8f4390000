/** The payload codec of the watched-bitfield wire string.

    The source writes `base64(zlib.compress(bytes))` and reads it back with
    `zlib.decompress(base64.b64decode(text))`. Both are library calls; what
    the bitfield code relies on is only that (1) decoding an encoded buffer
    gives the buffer back, (2) the text never contains the ':' that separates
    the wire fields and (3) decoding other text may fail. This module stands
    in for the pair with a lower-case hexadecimal codec that has exactly these
    three properties. */
module Packing {
  import opened Wrappers

  type byte = bv8

  function HexDigit(d: nat): (c: char)
    requires d < 16
    ensures c != ':'
  {
    if d < 10 then (48 + d) as char else (87 + d) as char
  }

  function HexValue(c: char): (r: Option<nat>)
    ensures r.Some? ==> r.value < 16
  {
    if '0' <= c <= '9' then Some(c as int - 48)
    else if 'a' <= c <= 'f' then Some(c as int - 87)
    else None
  }

  /** Stands in for `base64.b64encode(zlib.compress(bytes))`. */
  function Pack(bytes: seq<byte>): (r: string)
    ensures |r| == 2 * |bytes|
    ensures ':' !in r
  {
    if bytes == [] then []
    else [HexDigit(bytes[0] as int / 16), HexDigit(bytes[0] as int % 16)] + Pack(bytes[1..])
  }

  /** Stands in for `zlib.decompress(base64.b64decode(text))`; `None` is the
      exception either call raises on malformed input. */
  function Unpack(text: string): Option<seq<byte>>
    decreases |text|
  {
    if text == [] then Some([])
    else if |text| == 1 then None
    else
      var hi :- HexValue(text[0]);
      var lo :- HexValue(text[1]);
      var rest :- Unpack(text[2..]);
      Some([(hi * 16 + lo) as byte] + rest)
  }

  lemma HexDigitValue(d: nat)
    requires d < 16
    ensures HexValue(HexDigit(d)) == Some(d)
  {
  }

  lemma ByteOfDigits(b: byte)
    ensures b as int / 16 < 16
    ensures ((b as int / 16) * 16 + b as int % 16) as byte == b
  {
    var x := b as int;
    assert (x / 16) * 16 + x % 16 == x;
  }

  /** Decoding reads the two leading digits as one byte, then the rest. */
  lemma UnpackDigits(hi: nat, lo: nat, rest: string)
    requires hi < 16 && lo < 16
    ensures Unpack([HexDigit(hi), HexDigit(lo)] + rest)
            == if Unpack(rest).Some? then Some([(hi * 16 + lo) as byte] + Unpack(rest).value) else None
  {
    var text := [HexDigit(hi), HexDigit(lo)] + rest;
    assert text[0] == HexDigit(hi) && text[1] == HexDigit(lo) && text[2..] == rest;
    HexDigitValue(hi);
    HexDigitValue(lo);
  }

  /** The codec is lossless. */
  lemma {:induction false} UnpackPack(bytes: seq<byte>)
    ensures Unpack(Pack(bytes)) == Some(bytes)
  {
    if bytes != [] {
      var b := bytes[0];
      var hi, lo := b as int / 16, b as int % 16;
      ByteOfDigits(b);
      assert Pack(bytes) == [HexDigit(hi), HexDigit(lo)] + Pack(bytes[1..]);
      UnpackPack(bytes[1..]);
      UnpackDigits(hi, lo, Pack(bytes[1..]));
      assert bytes == [b] + bytes[1..];
    }
  }
}
