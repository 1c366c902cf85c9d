/** UTF-8 encoding of strings, as `String.data(using: .utf8)` produces the
    bytes of header text and file names. A `char` is a Unicode scalar value.
    `Decode` is the inverse used to state that no information is lost. */
module Utf8 {
  import opened Wrappers

  newtype Byte = b: int | 0 <= b < 256
  type Bytes = seq<Byte>

  predicate IsAscii(s: string) {
    forall c :: c in s ==> c as int < 0x80
  }

  /** The one- to four-byte UTF-8 form of a scalar value. */
  function EncodeChar(c: char): (r: Bytes)
    ensures 1 <= |r| <= 4
    ensures |r| == 1 <==> c as int < 0x80
  {
    var v := c as int;
    if v < 0x80 then [v as Byte]
    else if v < 0x800 then [(0xC0 + v / 0x40) as Byte, (0x80 + v % 0x40) as Byte]
    else if v < 0x1_0000 then
      [(0xE0 + v / 0x1000) as Byte, (0x80 + v / 0x40 % 0x40) as Byte, (0x80 + v % 0x40) as Byte]
    else
      [(0xF0 + v / 0x4_0000) as Byte, (0x80 + v / 0x1000 % 0x40) as Byte,
       (0x80 + v / 0x40 % 0x40) as Byte, (0x80 + v % 0x40) as Byte]
  }

  function Encode(s: string): (r: Bytes)
    ensures |r| >= |s|
  {
    if s == [] then [] else EncodeChar(s[0]) + Encode(s[1..])
  }

  predicate IsContinuation(b: Byte) {
    0x80 <= b < 0xC0
  }

  function ToChar(v: int): Option<char> {
    if 0 <= v < 0xD800 || 0xE000 <= v < 0x11_0000 then Some(v as char) else None
  }

  /** Decodes the scalar value at the front of `bs` and the number of bytes it
      takes, or `None` if the front is not a UTF-8 sequence. */
  function DecodeFirst(bs: Bytes): Option<(char, nat)> {
    if bs == [] then None
    else if bs[0] < 0x80 then Some((bs[0] as int as char, 1))
    else if 0xC0 <= bs[0] < 0xE0 && |bs| >= 2 && IsContinuation(bs[1]) then
      match ToChar((bs[0] as int - 0xC0) * 0x40 + (bs[1] as int - 0x80))
      case Some(c) => Some((c, 2))
      case None => None
    else if 0xE0 <= bs[0] < 0xF0 && |bs| >= 3 && IsContinuation(bs[1]) && IsContinuation(bs[2]) then
      match ToChar((bs[0] as int - 0xE0) * 0x1000 + (bs[1] as int - 0x80) * 0x40 + (bs[2] as int - 0x80))
      case Some(c) => Some((c, 3))
      case None => None
    else if 0xF0 <= bs[0] < 0xF8 && |bs| >= 4 && IsContinuation(bs[1]) && IsContinuation(bs[2])
            && IsContinuation(bs[3]) then
      match ToChar((bs[0] as int - 0xF0) * 0x4_0000 + (bs[1] as int - 0x80) * 0x1000 + (bs[2] as int - 0x80) * 0x40 + (bs[3] as int - 0x80))
      case Some(c) => Some((c, 4))
      case None => None
    else None
  }

  function Decode(bs: Bytes): Option<string>
    decreases |bs|
  {
    if bs == [] then Some([])
    else match DecodeFirst(bs)
      case None => None
      case Some((c, n)) =>
        if 0 < n <= |bs| then
          match Decode(bs[n..])
          case None => None
          case Some(rest) => Some([c] + rest)
        else None
  }

  lemma TwoByteValue(v: int)
    requires 0x80 <= v < 0x800
    ensures (0xC0 + v / 0x40 - 0xC0) * 0x40 + (0x80 + v % 0x40 - 0x80) == v
  {
  }

  lemma ThreeByteValue(v: int)
    requires 0x800 <= v < 0x1_0000
    ensures (0xE0 + v / 0x1000 - 0xE0) * 0x1000 + (0x80 + v / 0x40 % 0x40 - 0x80) * 0x40
            + (0x80 + v % 0x40 - 0x80) == v
  {
  }

  lemma FourByteValue(v: int)
    requires 0x1_0000 <= v < 0x11_0000
    ensures (0xF0 + v / 0x4_0000 - 0xF0) * 0x4_0000 + (0x80 + v / 0x1000 % 0x40 - 0x80) * 0x1000
            + (0x80 + v / 0x40 % 0x40 - 0x80) * 0x40 + (0x80 + v % 0x40 - 0x80) == v
  {
  }

  /** The bytes of one character read back as that character. */
  lemma DecodeFirstEncodeChar(c: char, rest: Bytes)
    ensures DecodeFirst(EncodeChar(c) + rest) == Some((c, |EncodeChar(c)|))
  {
    var v := c as int;
    var bs := EncodeChar(c) + rest;
    if v < 0x80 {
    } else if v < 0x800 {
      TwoByteValue(v);
      assert ToChar((bs[0] as int - 0xC0) * 0x40 + (bs[1] as int - 0x80)) == Some(c);
    } else if v < 0x1_0000 {
      ThreeByteValue(v);
      assert ToChar((bs[0] as int - 0xE0) * 0x1000 + (bs[1] as int - 0x80) * 0x40 + (bs[2] as int - 0x80)) == Some(c);
    } else {
      FourByteValue(v);
      assert ToChar((bs[0] as int - 0xF0) * 0x4_0000 + (bs[1] as int - 0x80) * 0x1000
                    + (bs[2] as int - 0x80) * 0x40 + (bs[3] as int - 0x80)) == Some(c);
    }
  }

  /** Encoding loses nothing: decoding the bytes of a string gives the string. */
  lemma {:induction false} DecodeEncode(s: string)
    ensures Decode(Encode(s)) == Some(s)
  {
    if s != [] {
      var head := EncodeChar(s[0]);
      DecodeFirstEncodeChar(s[0], Encode(s[1..]));
      assert (head + Encode(s[1..]))[|head|..] == Encode(s[1..]);
      DecodeEncode(s[1..]);
      assert [s[0]] + s[1..] == s;
    }
  }

  /** Encoding maps concatenation of strings to concatenation of bytes. */
  lemma {:induction false} EncodeAppend(a: string, b: string)
    ensures Encode(a + b) == Encode(a) + Encode(b)
  {
    if a != [] {
      assert (a + b)[0] == a[0] && (a + b)[1..] == a[1..] + b;
      EncodeAppend(a[1..], b);
      calc {
        Encode(a + b);
        EncodeChar(a[0]) + Encode(a[1..] + b);
        EncodeChar(a[0]) + (Encode(a[1..]) + Encode(b));
        Encode(a) + Encode(b);
      }
    } else {
      assert a + b == b;
    }
  }

  /** An ASCII string encodes to one byte per character, its code. */
  lemma {:induction false} EncodeAscii(s: string)
    requires IsAscii(s)
    ensures |Encode(s)| == |s|
    ensures forall i :: 0 <= i < |s| ==> Encode(s)[i] as int == s[i] as int
  {
    if s != [] {
      assert s[0] in s;
      assert forall c :: c in s[1..] ==> c in s;
      EncodeAscii(s[1..]);
    }
  }
}
