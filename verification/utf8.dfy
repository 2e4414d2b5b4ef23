/**
 UTF-8 as Rust's `String::from_utf8` accepts it: the well-formed byte
 sequences of table 3-7 of section 3.9 of the Unicode Standard, no overlong
 forms, no surrogates, nothing above U+10FFFF. A Dafny `char` is a Unicode
 scalar value, exactly the set of values a Rust `char` may hold.
 */
module Utf8 {
  import opened Results

  /** A Rust `u8`. */
  type Byte = b: int | 0 <= b < 256

  predicate IsContinuation(b: Byte) {
    0x80 <= b <= 0xBF
  }

  /**
   The UTF-8 encoding of one scalar value: one to four bytes, the leading
   byte carrying the high bits and each continuation byte six more.
   */
  function EncodeChar(c: char): (bs: seq<Byte>)
    ensures 1 <= |bs| <= 4
  {
    var n := c as int;
    var n1, d0 := n / 64, n % 64;
    var n2, d1 := n1 / 64, n1 % 64;
    var n3, d2 := n2 / 64, n2 % 64;
    if n < 0x80 then [n]
    else if n < 0x800 then [0xC0 + n1, 0x80 + d0]
    else if n < 0x1_0000 then [0xE0 + n2, 0x80 + d1, 0x80 + d0]
    else [0xF0 + n3, 0x80 + d2, 0x80 + d1, 0x80 + d0]
  }

  /** `str::as_bytes`: the encodings of the characters, concatenated. */
  function Encode(s: string): seq<Byte> {
    if |s| == 0 then [] else EncodeChar(s[0]) + Encode(s[1..])
  }

  /** The value of a leading byte's payload followed by continuation bytes' six bits each. */
  function Append6(hi: int, cont: Byte): int {
    hi * 64 + (cont - 0x80)
  }

  /**
   The scalar value at the front of `bs` and the number of bytes it takes,
   or `None` when the front of `bs` is not a well-formed UTF-8 sequence.
   */
  function DecodeChar(bs: seq<Byte>): (r: Option<(char, nat)>)
    requires |bs| > 0
    ensures r.Some? ==> 1 <= r.value.1 <= |bs| && r.value.1 <= 4
  {
    var b0 := bs[0];
    if b0 < 0x80 then Some((b0 as char, 1))
    else if 0xC2 <= b0 <= 0xDF then
      if |bs| < 2 || !IsContinuation(bs[1]) then None
      else Some((Append6(b0 - 0xC0, bs[1]) as char, 2))
    else if 0xE0 <= b0 <= 0xEF then
      if |bs| < 3 || !IsContinuation(bs[1]) || !IsContinuation(bs[2]) then None
      else if b0 == 0xE0 && bs[1] < 0xA0 then None
      else if b0 == 0xED && bs[1] > 0x9F then None
      else Some((Append6(Append6(b0 - 0xE0, bs[1]), bs[2]) as char, 3))
    else if 0xF0 <= b0 <= 0xF4 then
      if |bs| < 4 || !IsContinuation(bs[1]) || !IsContinuation(bs[2]) || !IsContinuation(bs[3]) then None
      else if b0 == 0xF0 && bs[1] < 0x90 then None
      else if b0 == 0xF4 && bs[1] > 0x8F then None
      else Some((Append6(Append6(Append6(b0 - 0xF0, bs[1]), bs[2]), bs[3]) as char, 4))
    else None
  }

  /** `String::from_utf8`: the text the bytes spell, or `None` if they are not UTF-8. */
  function Decode(bs: seq<Byte>): Option<string>
    decreases |bs|
  {
    if |bs| == 0 then Some([])
    else
      match DecodeChar(bs)
      case None => None
      case Some(ck) =>
        match Decode(bs[ck.1..])
        case None => None
        case Some(rest) => Some([ck.0] + rest)
  }

  lemma DivMod64(q: int, r: int)
    requires 0 <= r < 64
    ensures (q * 64 + r) / 64 == q && (q * 64 + r) % 64 == r
  {
  }

  // Encoding then decoding one character, by length of its encoding.

  lemma DecodeEncode2(c: char, rest: seq<Byte>)
    requires 0x80 <= c as int < 0x800
    ensures DecodeChar(EncodeChar(c) + rest) == Some((c, 2))
  {
    var n := c as int;
    var bs := EncodeChar(c) + rest;
    assert bs[0] == 0xC0 + n / 64 && bs[1] == 0x80 + n % 64;
  }

  lemma DecodeEncode3(c: char, rest: seq<Byte>)
    requires 0x800 <= c as int < 0x1_0000
    ensures DecodeChar(EncodeChar(c) + rest) == Some((c, 3))
  {
    var n := c as int;
    var n1, d0 := n / 64, n % 64;
    var n2, d1 := n1 / 64, n1 % 64;
    var bs := EncodeChar(c) + rest;
    assert bs[0] == 0xE0 + n2 && bs[1] == 0x80 + d1 && bs[2] == 0x80 + d0;
    assert Append6(Append6(n2, bs[1]), bs[2]) == n;
  }

  lemma DecodeEncode4(c: char, rest: seq<Byte>)
    requires 0x1_0000 <= c as int
    ensures DecodeChar(EncodeChar(c) + rest) == Some((c, 4))
  {
    var n := c as int;
    var n1, d0 := n / 64, n % 64;
    var n2, d1 := n1 / 64, n1 % 64;
    var n3, d2 := n2 / 64, n2 % 64;
    var bs := EncodeChar(c) + rest;
    assert bs[0] == 0xF0 + n3 && bs[1] == 0x80 + d2 && bs[2] == 0x80 + d1 && bs[3] == 0x80 + d0;
    assert Append6(Append6(Append6(n3, bs[1]), bs[2]), bs[3]) == n;
  }

  /** The encoding of a character decodes to it, whatever follows. */
  lemma DecodeEncodeChar(c: char, rest: seq<Byte>)
    ensures DecodeChar(EncodeChar(c) + rest) == Some((c, |EncodeChar(c)|))
  {
    var n := c as int;
    if n < 0x80 {
    } else if n < 0x800 {
      DecodeEncode2(c, rest);
    } else if n < 0x1_0000 {
      DecodeEncode3(c, rest);
    } else {
      DecodeEncode4(c, rest);
    }
  }

  // Decoding then encoding one well-formed sequence, by its length.

  lemma EncodeDecode2(b0: Byte, b1: Byte)
    requires 0xC2 <= b0 <= 0xDF && IsContinuation(b1)
    ensures 0x80 <= Append6(b0 - 0xC0, b1) < 0x800
    ensures EncodeChar(Append6(b0 - 0xC0, b1) as char) == [b0, b1]
  {
    DivMod64(b0 - 0xC0, b1 - 0x80);
  }

  lemma EncodeDecode3(b0: Byte, b1: Byte, b2: Byte)
    requires 0xE0 <= b0 <= 0xEF && IsContinuation(b1) && IsContinuation(b2)
    requires b0 == 0xE0 ==> b1 >= 0xA0
    requires b0 == 0xED ==> b1 <= 0x9F
    ensures var n := Append6(Append6(b0 - 0xE0, b1), b2);
      0x800 <= n < 0xD800 || 0xE000 <= n < 0x1_0000
    ensures EncodeChar(Append6(Append6(b0 - 0xE0, b1), b2) as char) == [b0, b1, b2]
  {
    var hi := Append6(b0 - 0xE0, b1);
    DivMod64(b0 - 0xE0, b1 - 0x80);
    DivMod64(hi, b2 - 0x80);
  }

  lemma EncodeDecode4(b0: Byte, b1: Byte, b2: Byte, b3: Byte)
    requires 0xF0 <= b0 <= 0xF4 && IsContinuation(b1) && IsContinuation(b2) && IsContinuation(b3)
    requires b0 == 0xF0 ==> b1 >= 0x90
    requires b0 == 0xF4 ==> b1 <= 0x8F
    ensures 0x1_0000 <= Append6(Append6(Append6(b0 - 0xF0, b1), b2), b3) < 0x11_0000
    ensures EncodeChar(Append6(Append6(Append6(b0 - 0xF0, b1), b2), b3) as char) == [b0, b1, b2, b3]
  {
    var hi := Append6(b0 - 0xF0, b1);
    var mid := Append6(hi, b2);
    DivMod64(b0 - 0xF0, b1 - 0x80);
    DivMod64(hi, b2 - 0x80);
    DivMod64(mid, b3 - 0x80);
  }

  /** Every UTF-8 sequence `DecodeChar` accepts is the encoding of what it decodes to. */
  lemma EncodeDecodeChar(bs: seq<Byte>)
    requires |bs| > 0 && DecodeChar(bs).Some?
    ensures EncodeChar(DecodeChar(bs).value.0) == bs[..DecodeChar(bs).value.1]
  {
    var b0 := bs[0];
    if b0 < 0x80 {
    } else if b0 <= 0xDF {
      EncodeDecode2(b0, bs[1]);
    } else if b0 <= 0xEF {
      EncodeDecode3(b0, bs[1], bs[2]);
    } else {
      EncodeDecode4(b0, bs[1], bs[2], bs[3]);
    }
  }

  /** Encoding then decoding gives the text back. */
  lemma {:induction false} DecodeEncode(s: string)
    ensures Decode(Encode(s)) == Some(s)
  {
    if |s| > 0 {
      var e := EncodeChar(s[0]);
      DecodeEncodeChar(s[0], Encode(s[1..]));
      assert (e + Encode(s[1..]))[|e|..] == Encode(s[1..]);
      DecodeEncode(s[1..]);
      assert s == [s[0]] + s[1..];
    }
  }

  lemma EncodeCons(c: char, rest: string)
    ensures Encode([c] + rest) == EncodeChar(c) + Encode(rest)
  {
    assert ([c] + rest)[1..] == rest;
  }

  /** A successful decode of non-empty bytes is its first character before the decode of the rest. */
  lemma DecodeCons(bs: seq<Byte>)
    requires |bs| > 0 && Decode(bs).Some?
    ensures DecodeChar(bs).Some?
    ensures var ck := DecodeChar(bs).value;
      Decode(bs[ck.1..]).Some? && Decode(bs).value == [ck.0] + Decode(bs[ck.1..]).value
  {
  }

  /** Decoding is injective: accepted bytes are exactly the encoding of the result. */
  lemma {:induction false} EncodeDecode(bs: seq<Byte>)
    requires Decode(bs).Some?
    ensures Encode(Decode(bs).value) == bs
    decreases |bs|
  {
    if |bs| > 0 {
      DecodeCons(bs);
      var ck := DecodeChar(bs).value;
      var rest := Decode(bs[ck.1..]).value;
      EncodeDecodeChar(bs);
      EncodeDecode(bs[ck.1..]);
      EncodeCons(ck.0, rest);
      calc {
        Encode(Decode(bs).value);
        Encode([ck.0] + rest);
        EncodeChar(ck.0) + Encode(rest);
        bs[..ck.1] + bs[ck.1..];
        { assert bs == bs[..ck.1] + bs[ck.1..]; }
        bs;
      }
    }
  }

  /** `String::from_utf8` accepts `bs` as `s` exactly when `bs` is the UTF-8 encoding of `s`. */
  lemma DecodeIffEncode(bs: seq<Byte>, s: string)
    ensures Decode(bs) == Some(s) <==> bs == Encode(s)
  {
    DecodeEncode(s);
    if Decode(bs) == Some(s) {
      EncodeDecode(bs);
    }
  }
}
