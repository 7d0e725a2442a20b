/**
 * The application/x-www-form-urlencoded serializer that
 * `URLSearchParams.prototype.toString` applies to every name and value
 * (section 5.2 of the WHATWG URL Standard), together with the matching
 * parser (section 5.1), so that encoding can be proved to lose nothing.
 */
module FormUrlEncoding {
  import opened Options

  newtype byte = x: int | 0 <= x < 256

  // ---------------------------------------------------------------- UTF-8

  /** The UTF-8 encoding of one code point: one to four bytes by range. */
  function Utf8Char(c: char): (r: seq<byte>)
    ensures 1 <= |r| <= 4
    ensures |r| == 1 <==> c as int < 0x80
  {
    var n := c as int;
    if n < 0x80 then [n as byte]
    else if n < 0x800 then [(0xC0 + n / 64) as byte, (0x80 + n % 64) as byte]
    else if n < 0x10000 then
      [(0xE0 + n / 4096) as byte, (0x80 + (n / 64) % 64) as byte, (0x80 + n % 64) as byte]
    else
      [(0xF0 + n / 262144) as byte, (0x80 + (n / 4096) % 64) as byte,
       (0x80 + (n / 64) % 64) as byte, (0x80 + n % 64) as byte]
  }

  /** The UTF-8 encoding of a string. */
  function Utf8(s: string): seq<byte>
  {
    if |s| == 0 then [] else Utf8Char(s[0]) + Utf8(s[1..])
  }

  predicate IsContinuation(b: byte) { 0x80 <= b < 0xC0 }

  /** A code point Dafny can hold as a `char`: a Unicode scalar value. */
  predicate IsScalar(n: int) { (0 <= n < 0xD800) || (0xE000 <= n < 0x110000) }

  /**
   * The first code point of a UTF-8 byte string and how many bytes it
   * takes; `None` for a malformed, overlong or surrogate sequence.
   */
  function DecodeFirst(bs: seq<byte>): (r: Option<(char, nat)>)
    requires |bs| >= 1
    ensures r.Some? ==> 1 <= r.value.1 <= |bs|
  {
    var b0 := bs[0] as int;
    if b0 < 0x80 then Some((b0 as char, 1))
    else if 0xC0 <= b0 < 0xE0 && |bs| >= 2 && IsContinuation(bs[1]) then
      var n := (b0 - 0xC0) * 64 + (bs[1] as int - 0x80);
      if 0x80 <= n then Some((n as char, 2)) else None
    else if 0xE0 <= b0 < 0xF0 && |bs| >= 3 && IsContinuation(bs[1]) && IsContinuation(bs[2]) then
      var n := (b0 - 0xE0) * 4096 + (bs[1] as int - 0x80) * 64 + (bs[2] as int - 0x80);
      if 0x800 <= n && IsScalar(n) then Some((n as char, 3)) else None
    else if 0xF0 <= b0 < 0xF8 && |bs| >= 4 && IsContinuation(bs[1]) && IsContinuation(bs[2]) && IsContinuation(bs[3]) then
      var n := (b0 - 0xF0) * 262144 + (bs[1] as int - 0x80) * 4096 + (bs[2] as int - 0x80) * 64 + (bs[3] as int - 0x80);
      if 0x10000 <= n < 0x110000 then Some((n as char, 4)) else None
    else None
  }

  /** UTF-8 decoding; `None` when the bytes are not well-formed UTF-8. */
  function Utf8Decode(bs: seq<byte>): Option<string>
    decreases |bs|
  {
    if |bs| == 0 then Some("")
    else match DecodeFirst(bs)
      case None => None
      case Some((c, w)) =>
        match Utf8Decode(bs[w..])
        case None => None
        case Some(t) => Some([c] + t)
  }

  /** The encoding of one code point is decoded back to it, whatever follows. */
  lemma DecodeFirstChar(c: char, rest: seq<byte>)
    ensures DecodeFirst(Utf8Char(c) + rest) == Some((c, |Utf8Char(c)|))
  {
    var n := c as int;
    if n < 0x80 {
    } else if n < 0x800 {
      DecodeTwo(c, rest);
    } else if n < 0x10000 {
      DecodeThree(c, rest);
    } else {
      DecodeFour(c, rest);
    }
  }

  lemma DecodeTwo(c: char, rest: seq<byte>)
    requires 0x80 <= c as int < 0x800
    ensures DecodeFirst(Utf8Char(c) + rest) == Some((c, 2))
  {
    var n := c as int;
    var bs := Utf8Char(c) + rest;
    var q, r := n / 64, n % 64;
    assert n == q * 64 + r;
    assert bs[0] as int == 0xC0 + q && bs[1] as int == 0x80 + r;
  }

  lemma DecodeThree(c: char, rest: seq<byte>)
    requires 0x800 <= c as int < 0x10000
    ensures DecodeFirst(Utf8Char(c) + rest) == Some((c, 3))
  {
    var n := c as int;
    var bs := Utf8Char(c) + rest;
    var q1, r1 := n / 64, n % 64;
    var q2, r2 := q1 / 64, q1 % 64;
    assert n == q1 * 64 + r1 && q1 == q2 * 64 + r2;
    assert n / 4096 == q2;
    assert bs[0] as int == 0xE0 + q2 && bs[1] as int == 0x80 + r2 && bs[2] as int == 0x80 + r1;
    assert q2 * 4096 + r2 * 64 + r1 == n;
  }

  lemma DecodeFour(c: char, rest: seq<byte>)
    requires 0x10000 <= c as int
    ensures DecodeFirst(Utf8Char(c) + rest) == Some((c, 4))
  {
    var n := c as int;
    var bs := Utf8Char(c) + rest;
    var q1, r1 := n / 64, n % 64;
    var q2, r2 := q1 / 64, q1 % 64;
    var q3, r3 := q2 / 64, q2 % 64;
    assert n == q1 * 64 + r1 && q1 == q2 * 64 + r2 && q2 == q3 * 64 + r3;
    assert n / 4096 == q2 && n / 262144 == q3;
    assert bs[0] as int == 0xF0 + q3 && bs[1] as int == 0x80 + r3;
    assert bs[2] as int == 0x80 + r2 && bs[3] as int == 0x80 + r1;
    assert q3 * 262144 + r3 * 4096 + r2 * 64 + r1 == n;
  }

  /** Decoding undoes encoding. */
  lemma {:induction false} Utf8RoundTrip(s: string)
    ensures Utf8Decode(Utf8(s)) == Some(s)
  {
    if |s| > 0 {
      var head, rest := Utf8Char(s[0]), Utf8(s[1..]);
      DecodeFirstChar(s[0], rest);
      assert (head + rest)[|head|..] == rest;
      Utf8RoundTrip(s[1..]);
      assert [s[0]] + s[1..] == s;
    }
  }

  /** The encoding of a string is empty exactly for the empty string. */
  lemma Utf8Empty(s: string)
    ensures Utf8(s) == [] <==> s == ""
  {
  }

  // ---------------------------------------------------------------- percent-encoding

  /** The bytes the serializer leaves as they are: `*`, `-`, `.`, digits, letters and `_`. */
  predicate IsSafeByte(b: byte) {
    b == 0x2A || b == 0x2D || b == 0x2E || (0x30 <= b <= 0x39) ||
    (0x41 <= b <= 0x5A) || b == 0x5F || (0x61 <= b <= 0x7A)
  }

  /** The characters spelling a safe byte. */
  predicate IsSafeChar(c: char) {
    c == '*' || c == '-' || c == '.' || ('0' <= c <= '9') || ('A' <= c <= 'Z') || c == '_' || ('a' <= c <= 'z')
  }

  /** The characters the serializer can produce: safe characters, `+` and `%`. */
  predicate IsSerialChar(c: char) {
    IsSafeChar(c) || c == '+' || c == '%'
  }

  /** An upper-case hexadecimal digit. */
  function HexChar(d: nat): (c: char)
    requires d < 16
    ensures IsSafeChar(c)
  {
    if d < 10 then ('0' as int + d) as char else ('A' as int + d - 10) as char
  }

  /** The value of a hexadecimal digit of either case, or -1. */
  function HexValue(c: char): (v: int)
    ensures -1 <= v < 16
  {
    if '0' <= c <= '9' then c as int - '0' as int
    else if 'A' <= c <= 'F' then c as int - 'A' as int + 10
    else if 'a' <= c <= 'f' then c as int - 'a' as int + 10
    else -1
  }

  /** One byte serialized: space as `+`, a safe byte as its character, any other as `%XX`. */
  function SerializeByte(b: byte): (r: string)
    ensures 1 <= |r| <= 3
    ensures forall i :: 0 <= i < |r| ==> IsSerialChar(r[i])
  {
    if b == 0x20 then "+"
    else if IsSafeByte(b) then [b as int as char]
    else ['%', HexChar(b as int / 16), HexChar(b as int % 16)]
  }

  /** The serializer over a byte string. */
  function Serialize(bs: seq<byte>): (r: string)
    ensures forall i :: 0 <= i < |r| ==> IsSerialChar(r[i])
    ensures |r| >= |bs|
  {
    if |bs| == 0 then "" else SerializeByte(bs[0]) + Serialize(bs[1..])
  }

  /** What `URLSearchParams` writes for one name or value: the UTF-8 bytes, serialized. */
  function Encode(s: string): string
  {
    Serialize(Utf8(s))
  }

  /**
   * The parser's decoding of one name or value: `+` is a space, `%`
   * followed by two hexadecimal digits is that byte, and every other
   * character stands for its own UTF-8 bytes.
   */
  function Unserialize(s: string): seq<byte>
  {
    if |s| == 0 then []
    else if s[0] == '+' then [0x20 as byte] + Unserialize(s[1..])
    else if s[0] == '%' && |s| >= 3 && HexValue(s[1]) >= 0 && HexValue(s[2]) >= 0 then
      [(HexValue(s[1]) * 16 + HexValue(s[2])) as byte] + Unserialize(s[3..])
    else Utf8Char(s[0]) + Unserialize(s[1..])
  }

  /** `decodeURIComponent`-style decoding of a name or value; `None` when it is not UTF-8. */
  function Decode(s: string): Option<string>
  {
    Utf8Decode(Unserialize(s))
  }

  /** Unserializing one serialized byte gives that byte back, whatever follows. */
  lemma UnserializeByte(b: byte, t: string)
    ensures Unserialize(SerializeByte(b) + t) == [b] + Unserialize(t)
  {
    var s := SerializeByte(b) + t;
    if b == 0x20 {
      assert s[1..] == t;
    } else if IsSafeByte(b) {
      assert s[0] == b as int as char && s[1..] == t;
    } else {
      var hi, lo := b as int / 16, b as int % 16;
      assert s[0] == '%' && s[1] == HexChar(hi) && s[2] == HexChar(lo) && s[3..] == t;
      assert HexValue(HexChar(hi)) == hi && HexValue(HexChar(lo)) == lo;
    }
  }

  /** The parser recovers every byte string the serializer wrote. */
  lemma {:induction false} UnserializeSerialize(bs: seq<byte>)
    ensures Unserialize(Serialize(bs)) == bs
  {
    if |bs| > 0 {
      UnserializeByte(bs[0], Serialize(bs[1..]));
      UnserializeSerialize(bs[1..]);
      assert [bs[0]] + bs[1..] == bs;
    }
  }

  /** Decoding an encoded name or value gives it back. */
  lemma DecodeEncode(s: string)
    ensures Decode(Encode(s)) == Some(s)
  {
    UnserializeSerialize(Utf8(s));
    Utf8RoundTrip(s);
  }

  /** An encoded string holds no `&`, `=`, `?` or space, so it cannot break a query or a link apart. */
  lemma EncodeAlphabet(s: string)
    ensures forall i :: 0 <= i < |Encode(s)| ==> IsSerialChar(Encode(s)[i])
    ensures '&' !in Encode(s) && '=' !in Encode(s) && '?' !in Encode(s) && ' ' !in Encode(s)
  {
    var e := Encode(s);
    assert forall c :: c in e ==> IsSerialChar(c);
  }

  /** Only the empty string encodes to the empty string. */
  lemma EncodeEmpty(s: string)
    ensures Encode(s) == "" <==> s == ""
  {
    Utf8Empty(s);
  }

  /** A string of safe characters only is written out unchanged. */
  lemma {:induction false} EncodeSafe(s: string)
    requires forall i :: 0 <= i < |s| ==> IsSafeChar(s[i])
    ensures Encode(s) == s
  {
    if |s| > 0 {
      EncodeSafe(s[1..]);
      var b := (s[0] as int) as byte;
      assert Utf8Char(s[0]) == [b];
      assert Utf8(s) == [b] + Utf8(s[1..]);
      assert Serialize([b] + Utf8(s[1..])) == SerializeByte(b) + Serialize(Utf8(s[1..])) by {
        assert ([b] + Utf8(s[1..]))[1..] == Utf8(s[1..]);
      }
      assert SerializeByte(b) == [s[0]];
      assert [s[0]] + s[1..] == s;
    }
  }
}
