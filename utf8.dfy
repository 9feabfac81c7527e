/** UTF-8 as `String::from_utf8` checks it: the shortest form of every
    Unicode scalar value, nothing else (RFC 3629 section 4). */
module Utf8 {
  import opened Wrappers
  import Text

  type Byte = b: int | 0 <= b < 256

  predicate IsCont(b: Byte) {
    0x80 <= b < 0xC0
  }

  /** The bytes of one character, shortest form. */
  function EncodeChar(c: char): (bs: seq<Byte>)
    ensures 1 <= |bs| <= 4 && |bs| == Text.Utf8Width(c)
  {
    var v := c as int;
    if v < 0x80 then [v]
    else if v < 0x800 then [0xC0 + v / 64, 0x80 + v % 64]
    else if v < 0x10000 then [0xE0 + v / 4096, 0x80 + (v / 64) % 64, 0x80 + v % 64]
    else [0xF0 + v / 262144, 0x80 + (v / 4096) % 64, 0x80 + (v / 64) % 64, 0x80 + v % 64]
  }

  function Encode(s: string): seq<Byte> {
    if s == [] then [] else EncodeChar(s[0]) + Encode(s[1..])
  }

  /** The encoding is as long as `str::len` says. */
  lemma {:induction false} EncodeLength(s: string)
    ensures |Encode(s)| == Text.ByteLen(s)
  {
    if s != [] {
      EncodeLength(s[1..]);
      Text.ByteLenAppend([s[0]], s[1..]);
      assert [s[0]] + s[1..] == s;
      assert [s[0]][..0] == [];
    }
  }

  /** The allowed range of the second byte after lead byte `b0`. */
  predicate SecondOk(b0: Byte, b1: Byte) {
    if b0 == 0xE0 then 0xA0 <= b1 < 0xC0
    else if b0 == 0xED then 0x80 <= b1 < 0xA0
    else if b0 == 0xF0 then 0x90 <= b1 < 0xC0
    else if b0 == 0xF4 then 0x80 <= b1 < 0x90
    else IsCont(b1)
  }

  /** The character at the front of `bs` and its length in bytes, or None
      when the front is not a well-formed sequence. */
  function DecodeChar(bs: seq<Byte>): (r: Option<(char, nat)>)
    requires bs != []
    ensures r.Some? ==> 1 <= r.value.1 <= |bs| && r.value.1 <= 4
  {
    var b0: int := bs[0];
    var b1: int := if |bs| > 1 then bs[1] else 0;
    var b2: int := if |bs| > 2 then bs[2] else 0;
    var b3: int := if |bs| > 3 then bs[3] else 0;
    if b0 < 0x80 then Some((b0 as char, 1))
    else if 0xC2 <= b0 < 0xE0 then
      if |bs| >= 2 && IsCont(bs[1]) then Some((((b0 - 0xC0) * 64 + (b1 - 0x80)) as char, 2)) else None
    else if 0xE0 <= b0 < 0xF0 then
      if |bs| >= 3 && SecondOk(b0, bs[1]) && IsCont(bs[2]) then
        var v := (b0 - 0xE0) * 4096 + (b1 - 0x80) * 64 + (b2 - 0x80);
        Some((v as char, 3))
      else None
    else if 0xF0 <= b0 < 0xF5 then
      if |bs| >= 4 && SecondOk(b0, bs[1]) && IsCont(bs[2]) && IsCont(bs[3]) then
        var v := (b0 - 0xF0) * 262144 + (b1 - 0x80) * 4096 + (b2 - 0x80) * 64 + (b3 - 0x80);
        Some((v as char, 4))
      else None
    else None
  }

  /** `String::from_utf8`: the text, or None for ill-formed input. */
  function Decode(bs: seq<Byte>): Option<string>
    decreases |bs|
  {
    if bs == [] then Some([])
    else match DecodeChar(bs)
      case None => None
      case Some((c, n)) =>
        match Decode(bs[n..])
        case None => None
        case Some(rest) => Some([c] + rest)
  }

  /** Decoding the encoding of a character gives it back, consuming exactly
      its bytes. */
  lemma DecodeEncodeChar(c: char, rest: seq<Byte>)
    ensures DecodeChar(EncodeChar(c) + rest) == Some((c, |EncodeChar(c)|))
  {
    var v := c as int;
    var bs := EncodeChar(c) + rest;
    if v < 0x80 {
    } else if v < 0x800 {
      assert v == (v / 64) * 64 + v % 64;
    } else if v < 0x10000 {
      assert v == (v / 4096) * 4096 + ((v / 64) % 64) * 64 + v % 64 by {
        assert v / 64 == (v / 4096) * 64 + (v / 64) % 64;
      }
      assert bs[0] == 0xE0 + v / 4096;
    } else {
      assert v == (v / 262144) * 262144 + ((v / 4096) % 64) * 4096 + ((v / 64) % 64) * 64 + v % 64 by {
        assert v / 64 == (v / 4096) * 64 + (v / 64) % 64;
        assert v / 4096 == (v / 262144) * 64 + (v / 4096) % 64;
      }
      assert bs[0] == 0xF0 + v / 262144;
    }
  }

  /** Every text survives encoding and decoding. */
  lemma {:induction false} DecodeEncode(s: string)
    ensures Decode(Encode(s)) == Some(s)
  {
    if s != [] {
      var e := EncodeChar(s[0]);
      DecodeEncodeChar(s[0], Encode(s[1..]));
      assert (e + Encode(s[1..]))[|e|..] == Encode(s[1..]);
      DecodeEncode(s[1..]);
      assert [s[0]] + s[1..] == s;
    }
  }

  /** Ill-formed bytes are rejected: a lone continuation byte, an overlong
      lead byte, and an encoded surrogate. */
  lemma Rejects()
    ensures Decode([0x80]) == None
    ensures Decode([0xC0, 0x80]) == None
    ensures Decode([0xED, 0xA0, 0x80]) == None
  {
  }
}
