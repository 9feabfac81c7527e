/** Base64 with the standard alphabet and canonical padding (RFC 4648
    section 4), as the `base64` crate's STANDARD engine decodes it: the input
    is a whole number of four-character groups, `=` appears only as the one
    or two final characters, and the bits the padding drops are zero. */
module Base64 {
  import opened Wrappers
  import opened Utf8

  /** The character encoding a six-bit value. */
  function CharOf(v: nat): char
    requires v < 64
  {
    if v < 26 then ('A' as int + v) as char
    else if v < 52 then ('a' as int + v - 26) as char
    else if v < 62 then ('0' as int + v - 52) as char
    else if v == 62 then '+'
    else '/'
  }

  /** The six-bit value of an alphabet character; None for anything else,
      padding included. */
  function ValueOf(c: char): (r: Option<nat>)
    ensures r.Some? ==> r.value < 64
  {
    if 'A' <= c <= 'Z' then Some(c as int - 'A' as int)
    else if 'a' <= c <= 'z' then Some(c as int - 'a' as int + 26)
    else if '0' <= c <= '9' then Some(c as int - '0' as int + 52)
    else if c == '+' then Some(62)
    else if c == '/' then Some(63)
    else None
  }

  /** The alphabet is a bijection between six-bit values and its 64 characters. */
  lemma AlphabetBijection(v: nat, c: char)
    requires v < 64
    ensures ValueOf(CharOf(v)) == Some(v)
    ensures ValueOf(c) == Some(v) ==> CharOf(v) == c
  {
  }

  function Encode3(b0: Byte, b1: Byte, b2: Byte): string {
    [CharOf(b0 / 4), CharOf((b0 % 4) * 16 + b1 / 16), CharOf((b1 % 16) * 4 + b2 / 64), CharOf(b2 % 64)]
  }

  function Encode1(b0: Byte): (s: string)
    ensures |s| == 4
  {
    [CharOf(b0 / 4), CharOf((b0 % 4) * 16), '=', '=']
  }

  function Encode2(b0: Byte, b1: Byte): (s: string)
    ensures |s| == 4
  {
    [CharOf(b0 / 4), CharOf((b0 % 4) * 16 + b1 / 16), CharOf((b1 % 16) * 4), '=']
  }

  /** The canonical encoding, padded with `=`. */
  function Encode(bs: seq<Byte>): (s: string)
    ensures bs != [] ==> |s| >= 4
  {
    if bs == [] then []
    else if |bs| == 1 then Encode1(bs[0])
    else if |bs| == 2 then Encode2(bs[0], bs[1])
    else Encode3(bs[0], bs[1], bs[2]) + Encode(bs[3..])
  }

  /** An encoding holds only alphabet characters and padding. */
  lemma {:induction false} EncodeChars(bs: seq<Byte>)
    ensures forall i :: 0 <= i < |Encode(bs)| ==> ValueOf(Encode(bs)[i]).Some? || Encode(bs)[i] == '='
    decreases |bs|
  {
    if |bs| >= 3 {
      EncodeChars(bs[3..]);
      var h, t := Encode3(bs[0], bs[1], bs[2]), Encode(bs[3..]);
      forall i | 0 <= i < |h + t| ensures ValueOf((h + t)[i]).Some? || (h + t)[i] == '=' {
        if i >= 4 {
          assert (h + t)[i] == t[i - 4];
        }
      }
    }
  }

  /** Four alphabet characters give three bytes. */
  function DecodeFull(q: string): (r: Option<seq<Byte>>)
    requires |q| == 4
    ensures r.Some? ==> |r.value| == 3
  {
    var a, b, c, d := ValueOf(q[0]), ValueOf(q[1]), ValueOf(q[2]), ValueOf(q[3]);
    if a.None? || b.None? || c.None? || d.None? then None
    else Some([a.value * 4 + b.value / 16, (b.value % 16) * 16 + c.value / 4, (c.value % 4) * 64 + d.value])
  }

  /** The last group may end in `==` (one byte) or `=` (two bytes). */
  function DecodeLast(q: string): (r: Option<seq<Byte>>)
    requires |q| == 4
    ensures r.Some? ==> 1 <= |r.value| <= 3
  {
    if q[3] != '=' then DecodeFull(q)
    else
      var a, b := ValueOf(q[0]), ValueOf(q[1]);
      if a.None? || b.None? then None
      else if q[2] == '=' then
        if b.value % 16 == 0 then Some([a.value * 4 + b.value / 16]) else None
      else
        var c := ValueOf(q[2]);
        if c.None? || c.value % 4 != 0 then None
        else Some([a.value * 4 + b.value / 16, (b.value % 16) * 16 + c.value / 4])
  }

  /** `STANDARD.decode`: the bytes, or None for input that is not a
      canonical encoding. */
  function Decode(s: string): Option<seq<Byte>>
    decreases |s|
  {
    if s == [] then Some([])
    else if |s| < 4 then None
    else if |s| == 4 then DecodeLast(s)
    else match DecodeFull(s[..4])
      case None => None
      case Some(head) =>
        match Decode(s[4..])
        case None => None
        case Some(tail) => Some(head + tail)
  }

  lemma Pack16(q: nat, r: nat)
    requires r < 16
    ensures (q * 16 + r) / 16 == q && (q * 16 + r) % 16 == r
  {
  }

  lemma Pack4(q: nat, r: nat)
    requires r < 4
    ensures (q * 4 + r) / 4 == q && (q * 4 + r) % 4 == r
  {
  }

  /** How the bits of three bytes spread over four six-bit values and back. */
  lemma Split(b0: Byte, b1: Byte, b2: Byte)
    ensures var m1, m2 := (b0 % 4) * 16 + b1 / 16, (b1 % 16) * 4 + b2 / 64;
      && m1 < 64 && m2 < 64
      && (b0 / 4) * 4 + m1 / 16 == b0
      && (m1 % 16) * 16 + m2 / 4 == b1
      && (m2 % 4) * 64 + b2 % 64 == b2
  {
    Pack16(b0 % 4, b1 / 16);
    Pack4(b1 % 16, b2 / 64);
  }

  lemma Encode3Decodes(b0: Byte, b1: Byte, b2: Byte)
    ensures DecodeFull(Encode3(b0, b1, b2)) == Some([b0, b1, b2])
  {
    var m1, m2 := (b0 % 4) * 16 + b1 / 16, (b1 % 16) * 4 + b2 / 64;
    Split(b0, b1, b2);
    var q := Encode3(b0, b1, b2);
    AlphabetBijection(b0 / 4, 'A');
    AlphabetBijection(m1, 'A');
    AlphabetBijection(m2, 'A');
    AlphabetBijection(b2 % 64, 'A');
    assert ValueOf(q[0]) == Some(b0 / 4) && ValueOf(q[1]) == Some(m1);
    assert ValueOf(q[2]) == Some(m2) && ValueOf(q[3]) == Some(b2 % 64);
  }

  lemma OneDecodes(b0: Byte)
    ensures DecodeLast(Encode1(b0)) == Some([b0])
  {
    AlphabetBijection(b0 / 4, 'A');
    AlphabetBijection((b0 % 4) * 16, 'A');
    Pack16(b0 % 4, 0);
  }

  lemma TwoDecodes(b0: Byte, b1: Byte)
    ensures DecodeLast(Encode2(b0, b1)) == Some([b0, b1])
  {
    var m1, c := (b0 % 4) * 16 + b1 / 16, (b1 % 16) * 4;
    Split(b0, b1, 0);
    Pack4(b1 % 16, 0);
    AlphabetBijection(b0 / 4, 'A');
    AlphabetBijection(m1, 'A');
    AlphabetBijection(c, 'A');
    var q := [CharOf(b0 / 4), CharOf(m1), CharOf(c), '='];
    assert q[2] != '=' by {
      assert ValueOf(q[2]).Some?;
    }
    assert DecodeLast(q) == Some([(b0 / 4) * 4 + m1 / 16, (m1 % 16) * 16 + c / 4]);
  }

  /** Decoding the encoding gives the bytes back. */
  lemma {:induction false} DecodeEncode(bs: seq<Byte>)
    ensures Decode(Encode(bs)) == Some(bs)
    decreases |bs|
  {
    if |bs| == 1 {
      OneDecodes(bs[0]);
      assert Encode(bs) == Encode1(bs[0]);
      assert Decode(Encode1(bs[0])) == DecodeLast(Encode1(bs[0]));
      assert bs == [bs[0]];
    } else if |bs| == 2 {
      TwoDecodes(bs[0], bs[1]);
      assert Encode(bs) == Encode2(bs[0], bs[1]);
      assert Decode(Encode2(bs[0], bs[1])) == DecodeLast(Encode2(bs[0], bs[1]));
      assert bs == [bs[0], bs[1]];
    } else if |bs| >= 3 {
      EncodeCons(bs);
      if |bs| == 3 {
        ThreeDecodes(bs);
      } else {
        DecodeEncode(bs[3..]);
        ConsDecodes(bs);
      }
    }
  }

  lemma EncodeCons(bs: seq<Byte>)
    requires |bs| >= 3
    ensures Encode(bs) == Encode3(bs[0], bs[1], bs[2]) + Encode(bs[3..])
  {
  }

  lemma ThreeDecodes(bs: seq<Byte>)
    requires |bs| == 3
    ensures Decode(Encode3(bs[0], bs[1], bs[2])) == Some(bs)
  {
    Encode3Decodes(bs[0], bs[1], bs[2]);
    LastFull(Encode3(bs[0], bs[1], bs[2]));
    assert bs == [bs[0], bs[1], bs[2]];
  }

  lemma ConsDecodes(bs: seq<Byte>)
    requires |bs| > 3 && Decode(Encode(bs[3..])) == Some(bs[3..])
    ensures Decode(Encode3(bs[0], bs[1], bs[2]) + Encode(bs[3..])) == Some(bs)
  {
    var e, t := Encode3(bs[0], bs[1], bs[2]), Encode(bs[3..]);
    assert DecodeFull(e) == Some(bs[..3]) by {
      Encode3Decodes(bs[0], bs[1], bs[2]);
      assert bs[..3] == [bs[0], bs[1], bs[2]];
    }
    DecodeCons(e, t);
    assert bs == bs[..3] + bs[3..];
  }

  lemma LastFull(e: string)
    requires |e| == 4 && DecodeFull(e).Some?
    ensures Decode(e) == DecodeFull(e)
  {
    assert ValueOf(e[3]).Some?;
  }

  lemma DecodeCons(e: string, t: string)
    requires |e| == 4 && |t| >= 4
    ensures Decode(e + t) == match DecodeFull(e)
      case None => None
      case Some(h) => (match Decode(t) case None => None case Some(u) => Some(h + u))
  {
    assert (e + t)[..4] == e && (e + t)[4..] == t;
  }

  lemma Pack64(q: nat, r: nat)
    requires r < 64
    ensures (q * 64 + r) / 64 == q && (q * 64 + r) % 64 == r
  {
  }

  /** How four six-bit values spread over three bytes and back. */
  lemma Unpack(a: nat, b: nat, c: nat, d: nat)
    requires a < 64 && b < 64 && c < 64 && d < 64
    ensures var r0, r1, r2 := a * 4 + b / 16, (b % 16) * 16 + c / 4, (c % 4) * 64 + d;
      && r0 / 4 == a && (r0 % 4) * 16 + r1 / 16 == b
      && (r1 % 16) * 4 + r2 / 64 == c && r2 % 64 == d
  {
    Pack4(a, b / 16);
    Pack16(b % 16, c / 4);
    Pack64(c % 4, d);
  }

  lemma FullCanonical(q: string)
    requires |q| == 4 && DecodeFull(q).Some?
    ensures var r := DecodeFull(q).value; Encode3(r[0], r[1], r[2]) == q
  {
    var a, b, c, d := ValueOf(q[0]).value, ValueOf(q[1]).value, ValueOf(q[2]).value, ValueOf(q[3]).value;
    AlphabetBijection(a, q[0]);
    AlphabetBijection(b, q[1]);
    AlphabetBijection(c, q[2]);
    AlphabetBijection(d, q[3]);
    Unpack(a, b, c, d);
    var r := DecodeFull(q).value;
    assert r == [a * 4 + b / 16, (b % 16) * 16 + c / 4, (c % 4) * 64 + d];
    assert Encode3(r[0], r[1], r[2]) == [CharOf(a), CharOf(b), CharOf(c), CharOf(d)];
  }

  lemma LastCanonical(q: string)
    requires |q| == 4 && DecodeLast(q).Some?
    ensures Encode(DecodeLast(q).value) == q
  {
    if q[3] != '=' {
      FullCanonical(q);
      var r := DecodeFull(q).value;
      assert r[3..] == [];
    } else if q[2] != '=' {
      TwoCanonical(q);
    } else {
      OneCanonical(q);
    }
  }

  /** A last group with one `=` is the encoding of its two bytes. */
  lemma TwoCanonical(q: string)
    requires |q| == 4 && q[3] == '=' && q[2] != '=' && DecodeLast(q).Some?
    ensures |DecodeLast(q).value| == 2
    ensures var r := DecodeLast(q).value; Encode2(r[0], r[1]) == q
  {
    var a, b, c := ValueOf(q[0]).value, ValueOf(q[1]).value, ValueOf(q[2]).value;
    AlphabetBijection(a, q[0]);
    AlphabetBijection(b, q[1]);
    AlphabetBijection(c, q[2]);
    Pack16(b / 16, b % 16);
    Pack4(c / 4, 0);
    Pack4(a, b / 16);
    var r := DecodeLast(q).value;
    assert r == [a * 4 + b / 16, (b % 16) * 16 + c / 4];
    assert (r[1] % 16) * 4 == c;
  }

  /** A last group with `==` is the encoding of its one byte. */
  lemma OneCanonical(q: string)
    requires |q| == 4 && q[3] == '=' && q[2] == '=' && DecodeLast(q).Some?
    ensures |DecodeLast(q).value| == 1
    ensures Encode1(DecodeLast(q).value[0]) == q
  {
    var a, b := ValueOf(q[0]).value, ValueOf(q[1]).value;
    AlphabetBijection(a, q[0]);
    AlphabetBijection(b, q[1]);
    Pack16(b / 16, b % 16);
    Pack4(a, b / 16);
  }

  /** The decoder accepts only canonical encodings: whatever it accepts is
      exactly the encoding of what it returns. */
  lemma {:induction false} DecodeCanonical(s: string)
    requires Decode(s).Some?
    ensures Encode(Decode(s).value) == s
    decreases |s|
  {
    if |s| == 4 {
      LastCanonical(s);
    } else if |s| > 4 {
      FullCanonical(s[..4]);
      DecodeCanonical(s[4..]);
      var head := DecodeFull(s[..4]).value;
      var tail := Decode(s[4..]).value;
      var r := head + tail;
      assert tail != [] by {
        assert s[4..] != [];
      }
      assert r[3..] == tail;
      assert s == s[..4] + s[4..];
    }
  }
}
