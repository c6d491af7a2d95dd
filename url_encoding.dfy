/**
 * Percent-encoding as the portal's URLs use it: UTF-8 (RFC 3629), the
 * application/x-www-form-urlencoded byte serializer of section 5.2 of the WHATWG
 * URL Standard (what `URLSearchParams` produces), and ECMAScript's
 * `encodeURIComponent`. Each encoder is paired with the decoder that reads it back.
 */
module UrlEncoding {
  import opened Wrappers

  type Byte = b: int | 0 <= b < 256

  // ---------------------------------------------------------------------------
  // UTF-8
  // ---------------------------------------------------------------------------

  /** The number of bytes a UTF-8 sequence has, read off its first byte. */
  function Utf8Length(b0: Byte): nat {
    if b0 < 0x80 then 1 else if b0 < 0xE0 then 2 else if b0 < 0xF0 then 3 else 4
  }

  /** The UTF-8 encoding of one Unicode scalar value. */
  function Utf8(c: char): (bs: seq<Byte>)
    ensures 1 <= |bs| <= 4 && |bs| == Utf8Length(bs[0])
    ensures forall k :: 1 <= k < |bs| ==> 0x80 <= bs[k] < 0xC0
    ensures (|bs| == 1) == (c as int < 0x80)
  {
    var cp := c as int;
    if cp < 0x80 then [cp]
    else if cp < 0x800 then [0xC0 + cp / 64, 0x80 + cp % 64]
    else if cp < 0x10000 then [0xE0 + cp / 4096, 0x80 + (cp / 64) % 64, 0x80 + cp % 64]
    else [0xF0 + cp / 262144, 0x80 + (cp / 4096) % 64, 0x80 + (cp / 64) % 64, 0x80 + cp % 64]
  }

  /** The code point a UTF-8 sequence of one to four bytes spells. */
  function Utf8Value(bs: seq<Byte>): int
    requires 1 <= |bs| <= 4
  {
    var b: seq<int> := bs;
    if |b| == 1 then b[0]
    else if |b| == 2 then (b[0] - 0xC0) * 64 + (b[1] - 0x80)
    else if |b| == 3 then (b[0] - 0xE0) * 4096 + (b[1] - 0x80) * 64 + (b[2] - 0x80)
    else (b[0] - 0xF0) * 262144 + (b[1] - 0x80) * 4096 + (b[2] - 0x80) * 64 + (b[3] - 0x80)
  }

  predicate IsScalarValue(v: int) {
    0 <= v < 0xD800 || 0xE000 <= v < 0x110000
  }

  /** Decodes one UTF-8 sequence; what is not a scalar value becomes U+FFFD. */
  function Utf8Char(bs: seq<Byte>): char
    requires 1 <= |bs| <= 4
  {
    var v := Utf8Value(bs);
    if IsScalarValue(v) then v as char else '\U{FFFD}'
  }

  lemma DivMod64(x: int)
    requires 0 <= x
    ensures x == (x / 64) * 64 + x % 64 && 0 <= x % 64 < 64
    ensures x / 4096 == (x / 64) / 64
    ensures x / 262144 == (x / 4096) / 64
  {
  }

  /** Decoding the UTF-8 encoding of a character gives the character back. */
  lemma Utf8RoundTrip(c: char)
    ensures Utf8Char(Utf8(c)) == c
  {
    var cp := c as int;
    var bs := Utf8(c);
    DivMod64(cp);
    DivMod64(cp / 64);
    DivMod64(cp / 4096);
    if cp < 0x80 {
    } else if cp < 0x800 {
      assert Utf8Value(bs) == (cp / 64) * 64 + cp % 64;
    } else if cp < 0x10000 {
      assert cp / 64 == (cp / 4096) * 64 + (cp / 64) % 64;
      assert Utf8Value(bs) == (cp / 4096) * 4096 + ((cp / 64) % 64) * 64 + cp % 64;
    } else {
      assert cp / 64 == (cp / 4096) * 64 + (cp / 64) % 64;
      assert cp / 4096 == (cp / 262144) * 64 + (cp / 4096) % 64;
      assert Utf8Value(bs) == (cp / 262144) * 262144 + ((cp / 4096) % 64) * 4096 + ((cp / 64) % 64) * 64 + cp % 64;
    }
  }

  // ---------------------------------------------------------------------------
  // Percent-encoded bytes
  // ---------------------------------------------------------------------------

  /** Upper-case hexadecimal digit, as percent-encoding writes it. */
  function HexDigit(d: nat): (c: char)
    requires d < 16
    ensures IsAsciiAlphanumeric(c)
  {
    if d < 10 then ('0' as int + d) as char else ('A' as int + d - 10) as char
  }

  function HexValue(c: char): Option<nat> {
    if '0' <= c <= '9' then Some(c as int - '0' as int)
    else if 'A' <= c <= 'F' then Some(c as int - 'A' as int + 10)
    else if 'a' <= c <= 'f' then Some(c as int - 'a' as int + 10)
    else None
  }

  /** `%XY` for each byte. */
  function PercentBytes(bs: seq<Byte>): (s: string)
    ensures |s| == 3 * |bs|
    ensures forall k :: 0 <= k < |s| ==> s[k] == '%' || IsAsciiAlphanumeric(s[k])
    ensures bs != [] ==> s[0] == '%'
  {
    if bs == [] then [] else ['%', HexDigit(bs[0] / 16), HexDigit(bs[0] % 16)] + PercentBytes(bs[1..])
  }

  /** Reads `n` groups `%XY` from the front of `s`. */
  function ReadPercentBytes(s: string, n: nat): (r: Option<seq<Byte>>)
    ensures r.Some? ==> |r.value| == n && 3 * n <= |s|
  {
    if n == 0 then Some([])
    else if |s| >= 3 && s[0] == '%' && HexValue(s[1]).Some? && HexValue(s[2]).Some? then
      match ReadPercentBytes(s[3..], n - 1)
      case None => None
      case Some(rest) => Some([HexValue(s[1]).value * 16 + HexValue(s[2]).value] + rest)
    else None
  }

  lemma {:induction false} ReadPercentBytesOfPercentBytes(bs: seq<Byte>, rest: string)
    ensures ReadPercentBytes(PercentBytes(bs) + rest, |bs|) == Some(bs)
  {
    if bs != [] {
      var b := bs[0];
      var s := PercentBytes(bs) + rest;
      assert HexValue(HexDigit(b / 16)) == Some(b / 16);
      assert HexValue(HexDigit(b % 16)) == Some(b % 16);
      assert (b / 16) * 16 + b % 16 == b;
      assert s[3..] == PercentBytes(bs[1..]) + rest;
      ReadPercentBytesOfPercentBytes(bs[1..], rest);
      assert [b] + bs[1..] == bs;
    }
  }

  /**
   * One percent-encoded UTF-8 sequence at the front of `s`: the character and the
   * number of characters of `s` it spans.
   */
  function PercentChar(s: string): (r: Option<(char, nat)>)
    ensures r.Some? ==> 3 <= r.value.1 <= |s|
  {
    if |s| >= 3 && s[0] == '%' && HexValue(s[1]).Some? && HexValue(s[2]).Some? then
      var n := Utf8Length(HexValue(s[1]).value * 16 + HexValue(s[2]).value);
      match ReadPercentBytes(s, n)
      case None => None
      case Some(bs) => Some((Utf8Char(bs), 3 * n))
    else None
  }

  /**
   * Percent-decoding followed by UTF-8 decoding (what `decodeURIComponent` and,
   * with `plusAsSpace`, the application/x-www-form-urlencoded parser of section
   * 5.1 of the WHATWG URL Standard do on well-formed input). A `%` that does not
   * start a complete sequence is kept as it is.
   */
  function Decode(s: string, plusAsSpace: bool): string
    decreases |s|
  {
    if s == [] then []
    else if plusAsSpace && s[0] == '+' then " " + Decode(s[1..], plusAsSpace)
    else match PercentChar(s)
      case Some((c, n)) => [c] + Decode(s[n..], plusAsSpace)
      case None => [s[0]] + Decode(s[1..], plusAsSpace)
  }

  lemma DecodePercentEncodedChar(c: char, rest: string, plusAsSpace: bool)
    ensures Decode(PercentBytes(Utf8(c)) + rest, plusAsSpace) == [c] + Decode(rest, plusAsSpace)
  {
    var bs := Utf8(c);
    var s := PercentBytes(bs) + rest;
    ReadPercentBytesOfPercentBytes(bs, rest);
    assert s[1] == HexDigit(bs[0] / 16) && s[2] == HexDigit(bs[0] % 16);
    assert HexValue(HexDigit(bs[0] / 16)) == Some(bs[0] / 16);
    assert HexValue(HexDigit(bs[0] % 16)) == Some(bs[0] % 16);
    assert PercentChar(s) == Some((Utf8Char(bs), 3 * |bs|));
    Utf8RoundTrip(c);
    assert s[3 * |bs|..] == rest;
  }

  // ---------------------------------------------------------------------------
  // The two encoders
  // ---------------------------------------------------------------------------

  predicate IsAsciiAlphanumeric(c: char) {
    ('0' <= c <= '9') || ('A' <= c <= 'Z') || ('a' <= c <= 'z')
  }

  /** The characters the application/x-www-form-urlencoded serializer leaves as they are. */
  predicate FormKeeps(c: char) {
    IsAsciiAlphanumeric(c) || c == '*' || c == '-' || c == '.' || c == '_'
  }

  function FormEncodeChar(c: char): string {
    if FormKeeps(c) then [c] else if c == ' ' then "+" else PercentBytes(Utf8(c))
  }

  /**
   * The application/x-www-form-urlencoded serialization of one name or value:
   * ASCII alphanumerics and `*-._` stay, a space becomes `+`, every other
   * character becomes its UTF-8 bytes as `%XY`.
   */
  function FormEncode(s: string): (r: string)
    ensures forall k :: 0 <= k < |r| ==> FormKeeps(r[k]) || r[k] == '+' || r[k] == '%'
  {
    if s == [] then [] else FormEncodeChar(s[0]) + FormEncode(s[1..])
  }

  /** The characters `encodeURIComponent` leaves as they are. */
  predicate UriComponentKeeps(c: char) {
    || IsAsciiAlphanumeric(c) || c == '-' || c == '_' || c == '.' || c == '!'
    || c == '~' || c == '*' || c == '\'' || c == '(' || c == ')'
  }

  function UriComponentEncodeChar(c: char): string {
    if UriComponentKeeps(c) then [c] else PercentBytes(Utf8(c))
  }

  /** `encodeURIComponent(s)` (a Dafny `char` is never a lone surrogate, so it cannot throw). */
  function EncodeUriComponent(s: string): (r: string)
    ensures forall k :: 0 <= k < |r| ==> UriComponentKeeps(r[k]) || r[k] == '%'
  {
    if s == [] then [] else UriComponentEncodeChar(s[0]) + EncodeUriComponent(s[1..])
  }

  /** Reading a form-encoded string back gives the original string. */
  lemma {:induction false} FormDecodeEncode(s: string)
    ensures Decode(FormEncode(s), true) == s
  {
    if s != [] {
      var c := s[0];
      var rest := FormEncode(s[1..]);
      FormDecodeEncode(s[1..]);
      if FormKeeps(c) {
        assert PercentChar([c] + rest).None?;
        assert ([c] + rest)[1..] == rest;
      } else if c == ' ' {
        assert ("+" + rest)[1..] == rest;
      } else {
        DecodePercentEncodedChar(c, rest, true);
      }
    }
  }

  /** `decodeURIComponent(encodeURIComponent(s)) == s`. */
  lemma {:induction false} UriComponentDecodeEncode(s: string)
    ensures Decode(EncodeUriComponent(s), false) == s
  {
    if s != [] {
      var c := s[0];
      var rest := EncodeUriComponent(s[1..]);
      UriComponentDecodeEncode(s[1..]);
      if UriComponentKeeps(c) {
        assert PercentChar([c] + rest).None?;
        assert ([c] + rest)[1..] == rest;
      } else {
        DecodePercentEncodedChar(c, rest, false);
      }
    }
  }
}
