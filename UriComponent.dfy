/** `encodeURIComponent` written out: each character outside the unreserved
    set of section 2.3 of RFC 3986 (plus the five marks `! ' ( ) *` that the
    ECMAScript function also leaves alone) is replaced by the percent-encoded
    (section 2.1 of RFC 3986) bytes of its UTF-8 form (RFC 3629). A decoder
    is given beside it so that the encoding can be shown to lose nothing. */
module UriComponent {
  import opened Wrappers

  newtype byte = x: int | 0 <= x < 256

  /** Unreserved characters of section 2.3 of RFC 3986. */
  predicate Unreserved(c: char) {
    'A' <= c <= 'Z' || 'a' <= c <= 'z' || '0' <= c <= '9' || c in "-._~"
  }

  /** Characters `encodeURIComponent` copies unchanged. */
  predicate Unescaped(c: char) {
    Unreserved(c) || c in "!'()*"
  }

  /** Upper-case hexadecimal digit of a nibble, as `encodeURIComponent` writes it. */
  function HexDigit(n: int): (c: char)
    requires 0 <= n < 16
    ensures Unreserved(c)
  {
    if n < 10 then ('0' as int + n) as char else ('A' as int + n - 10) as char
  }

  /** Value of a hexadecimal digit of either case. */
  function HexValue(c: char): Option<int> {
    if '0' <= c <= '9' then Some(c as int - '0' as int)
    else if 'A' <= c <= 'F' then Some(c as int - 'A' as int + 10)
    else if 'a' <= c <= 'f' then Some(c as int - 'a' as int + 10)
    else None
  }

  lemma HexRoundTrip(n: int)
    requires 0 <= n < 16
    ensures HexValue(HexDigit(n)) == Some(n)
  {
  }

  /** The UTF-8 bytes of one Unicode scalar value. */
  function Utf8(c: char): (bytes: seq<byte>)
    ensures 1 <= |bytes| <= 4
  {
    var cp := c as int;
    if cp < 0x80 then [cp as byte]
    else if cp < 0x800 then
      [(0xC0 + cp / 0x40) as byte, (0x80 + cp % 0x40) as byte]
    else if cp < 0x10000 then
      [(0xE0 + cp / 0x1000) as byte, (0x80 + cp / 0x40 % 0x40) as byte,
       (0x80 + cp % 0x40) as byte]
    else
      [(0xF0 + cp / 0x40000) as byte, (0x80 + cp / 0x1000 % 0x40) as byte,
       (0x80 + cp / 0x40 % 0x40) as byte, (0x80 + cp % 0x40) as byte]
  }

  /** The UTF-8 form of a whole string. */
  function Utf8Encode(s: string): seq<byte> {
    if |s| == 0 then [] else Utf8(s[0]) + Utf8Encode(s[1..])
  }

  /** `%XX` for each byte, with upper-case hexadecimal digits. */
  function PercentBytes(bytes: seq<byte>): (r: string)
    ensures |r| == 3 * |bytes|
    ensures forall i :: 0 <= i < |r| ==> Unreserved(r[i]) || r[i] == '%'
  {
    if |bytes| == 0 then ""
    else
      var b := bytes[0] as int;
      ['%', HexDigit(b / 16), HexDigit(b % 16)] + PercentBytes(bytes[1..])
  }

  function EncodeChar(c: char): string {
    if Unescaped(c) then [c] else PercentBytes(Utf8(c))
  }

  /** `encodeURIComponent(s)`. The result is made of unescaped characters and
      `%` only, so it never carries a `/`, `?`, `&`, `#` or `=` that could end
      the query parameter it is placed in, and it is never shorter than `s`. */
  function EncodeUriComponent(s: string): (r: string)
    ensures forall i :: 0 <= i < |r| ==> Unescaped(r[i]) || r[i] == '%'
    ensures |r| >= |s|
  {
    if |s| == 0 then ""
    else EncodeChar(s[0]) + EncodeUriComponent(s[1..])
  }

  /** Encoding distributes over concatenation. */
  lemma {:induction false} EncodeAppend(a: string, b: string)
    ensures EncodeUriComponent(a + b) == EncodeUriComponent(a) + EncodeUriComponent(b)
    decreases |a|
  {
    if |a| == 0 {
      assert a + b == b;
    } else {
      assert (a + b)[0] == a[0];
      assert (a + b)[1..] == a[1..] + b;
      EncodeAppend(a[1..], b);
    }
  }

  predicate AllUnescaped(s: string) {
    forall i :: 0 <= i < |s| ==> Unescaped(s[i])
  }

  /** Text made only of unescaped characters passes through unchanged. */
  lemma {:induction false} EncodeUnescaped(s: string)
    requires AllUnescaped(s)
    ensures EncodeUriComponent(s) == s
    decreases |s|
  {
    if |s| > 0 {
      EncodeUnescaped(s[1..]);
      assert s == [s[0]] + s[1..];
    }
  }

  /** The delimiters of a URL with a port: `:` is 0x3A and `/` is 0x2F. */
  lemma EncodeDelimiters()
    ensures EncodeUriComponent("://") == "%3A%2F%2F"
    ensures EncodeUriComponent(":") == "%3A"
    ensures EncodeUriComponent("/") == "%2F"
  {
  }

  /** Encoding a URL `scheme://host:port/path` whose parts hold only
      unescaped characters escapes exactly its three kinds of delimiter. */
  lemma EncodeHttpUrl(scheme: string, host: string, port: string, path: string)
    requires AllUnescaped(scheme) && AllUnescaped(host) && AllUnescaped(port) && AllUnescaped(path)
    ensures EncodeUriComponent(scheme + "://" + host + ":" + port + "/" + path)
         == scheme + "%3A%2F%2F" + host + "%3A" + port + "%2F" + path
  {
    var a1 := scheme + "://";
    var a2 := a1 + host;
    var a3 := a2 + ":";
    var a4 := a3 + port;
    var a5 := a4 + "/";
    EncodeUnescaped(scheme);
    EncodeUnescaped(host);
    EncodeUnescaped(port);
    EncodeUnescaped(path);
    EncodeDelimiters();
    EncodeAppend(scheme, "://");
    EncodeAppend(a1, host);
    EncodeAppend(a2, ":");
    EncodeAppend(a3, port);
    EncodeAppend(a4, "/");
    EncodeAppend(a5, path);
  }

  function PrependTo<T>(prefix: seq<T>, rest: Option<seq<T>>): Option<seq<T>> {
    match rest
    case None => None
    case Some(r) => Some(prefix + r)
  }

  /** Percent-decoding to bytes: `%XX` (either case) is one byte, any other
      ASCII character stands for its own code; a stray `%` or a non-ASCII
      character is rejected. */
  function PercentDecode(e: string): Option<seq<byte>>
    decreases |e|
  {
    if |e| == 0 then Some([])
    else if e[0] == '%' then
      if |e| < 3 then None
      else match (HexValue(e[1]), HexValue(e[2]))
        case (Some(h), Some(l)) =>
          if 0 <= h < 16 && 0 <= l < 16 then PrependTo([(16 * h + l) as byte], PercentDecode(e[3..]))
          else None
        case _ => None
    else if e[0] as int < 0x80 then PrependTo([e[0] as int as byte], PercentDecode(e[1..]))
    else None
  }

  predicate IsContinuation(b: byte) {
    0x80 <= b < 0xC0
  }

  /** UTF-8 decoding (RFC 3629): rejects truncated sequences, overlong forms,
      surrogates and values above U+10FFFF. */
  function Utf8Decode(b: seq<byte>): Option<string>
    decreases |b|
  {
    if |b| == 0 then Some([])
    else
      var b0 := b[0] as int;
      if b0 < 0x80 then PrependTo([b0 as char], Utf8Decode(b[1..]))
      else if 0xC0 <= b0 < 0xE0 && |b| >= 2 && IsContinuation(b[1]) then
        var cp := (b0 - 0xC0) * 0x40 + (b[1] as int - 0x80);
        if cp < 0x80 then None
        else PrependTo([cp as char], Utf8Decode(b[2..]))
      else if 0xE0 <= b0 < 0xF0 && |b| >= 3 && IsContinuation(b[1]) && IsContinuation(b[2]) then
        var cp := (b0 - 0xE0) * 0x1000 + (b[1] as int - 0x80) * 0x40 + (b[2] as int - 0x80);
        if cp < 0x800 || (0xD800 <= cp < 0xE000) then None
        else PrependTo([cp as char], Utf8Decode(b[3..]))
      else if 0xF0 <= b0 < 0xF8 && |b| >= 4 && IsContinuation(b[1]) && IsContinuation(b[2])
              && IsContinuation(b[3]) then
        var cp := (b0 - 0xF0) * 0x40000 + (b[1] as int - 0x80) * 0x1000
                  + (b[2] as int - 0x80) * 0x40 + (b[3] as int - 0x80);
        if cp < 0x10000 || cp > 0x10FFFF then None
        else PrependTo([cp as char], Utf8Decode(b[4..]))
      else None
  }

  /** `decodeURIComponent` for text made of ASCII characters and `%XX` escapes. */
  function DecodeUriComponent(e: string): Option<string> {
    match PercentDecode(e)
    case None => None
    case Some(bytes) => Utf8Decode(bytes)
  }

  lemma Utf8TwoBytes(c: char, rest: seq<byte>)
    requires 0x80 <= c as int < 0x800
    ensures Utf8Decode(Utf8(c) + rest) == PrependTo([c], Utf8Decode(rest))
  {
    var cp := c as int;
    var b := Utf8(c) + rest;
    assert b[2..] == rest;
    assert (cp / 0x40) * 0x40 + cp % 0x40 == cp;
  }

  lemma Utf8ThreeBytes(c: char, rest: seq<byte>)
    requires 0x800 <= c as int < 0x10000
    ensures Utf8Decode(Utf8(c) + rest) == PrependTo([c], Utf8Decode(rest))
  {
    var cp := c as int;
    var b := Utf8(c) + rest;
    assert b[3..] == rest;
    var hi, mid, lo := cp / 0x1000, cp / 0x40 % 0x40, cp % 0x40;
    assert cp / 0x40 == hi * 0x40 + mid;
    assert hi * 0x1000 + mid * 0x40 + lo == cp;
  }

  lemma Utf8FourBytes(c: char, rest: seq<byte>)
    requires 0x10000 <= c as int
    ensures Utf8Decode(Utf8(c) + rest) == PrependTo([c], Utf8Decode(rest))
  {
    var cp := c as int;
    var b := Utf8(c) + rest;
    assert b[4..] == rest;
    var top, hi, mid, lo := cp / 0x40000, cp / 0x1000 % 0x40, cp / 0x40 % 0x40, cp % 0x40;
    assert cp / 0x1000 == top * 0x40 + hi;
    assert cp / 0x40 == (top * 0x40 + hi) * 0x40 + mid;
    assert top * 0x40000 + hi * 0x1000 + mid * 0x40 + lo == cp;
  }

  /** Decoding the bytes of one character followed by more bytes gives that
      character in front of whatever the rest decodes to. */
  lemma Utf8CharRoundTrip(c: char, rest: seq<byte>)
    ensures Utf8Decode(Utf8(c) + rest) == PrependTo([c], Utf8Decode(rest))
  {
    var cp := c as int;
    if cp < 0x80 {
      assert (Utf8(c) + rest)[1..] == rest;
    } else if cp < 0x800 {
      Utf8TwoBytes(c, rest);
    } else if cp < 0x10000 {
      Utf8ThreeBytes(c, rest);
    } else {
      Utf8FourBytes(c, rest);
    }
  }

  /** UTF-8 decoding undoes UTF-8 encoding. */
  lemma {:induction false} Utf8RoundTrip(s: string)
    ensures Utf8Decode(Utf8Encode(s)) == Some(s)
    decreases |s|
  {
    if |s| > 0 {
      Utf8CharRoundTrip(s[0], Utf8Encode(s[1..]));
      Utf8RoundTrip(s[1..]);
      assert s == [s[0]] + s[1..];
    }
  }

  lemma PrependAll<T>(s: seq<T>, rest: Option<seq<T>>)
    ensures |s| == 0 ==> PrependTo(s, rest) == rest
    ensures |s| > 0 ==> PrependTo([s[0]], PrependTo(s[1..], rest)) == PrependTo(s, rest)
  {
    match rest {
      case None =>
      case Some(r) =>
        assert [] + r == r;
        if |s| > 0 { assert [s[0]] + (s[1..] + r) == s + r; }
    }
  }

  /** One escape reads back as its byte. */
  lemma PercentByteRoundTrip(x: byte, tail: string)
    ensures PercentDecode(['%', HexDigit(x as int / 16), HexDigit(x as int % 16)] + tail)
            == PrependTo([x], PercentDecode(tail))
  {
    var b := x as int;
    var e := ['%', HexDigit(b / 16), HexDigit(b % 16)] + tail;
    assert e[0] == '%' && e[1] == HexDigit(b / 16) && e[2] == HexDigit(b % 16);
    assert e[3..] == tail;
    HexRoundTrip(b / 16);
    HexRoundTrip(b % 16);
    assert (16 * (b / 16) + b % 16) as byte == x;
  }

  lemma {:induction false} PercentBytesRoundTrip(bytes: seq<byte>, rest: string)
    ensures PercentDecode(PercentBytes(bytes) + rest) == PrependTo(bytes, PercentDecode(rest))
    decreases |bytes|
  {
    if |bytes| == 0 {
      assert PercentBytes(bytes) + rest == rest;
      PrependAll(bytes, PercentDecode(rest));
    } else {
      var b := bytes[0] as int;
      var esc := ['%', HexDigit(b / 16), HexDigit(b % 16)];
      var tail := PercentBytes(bytes[1..]) + rest;
      assert PercentBytes(bytes) == esc + PercentBytes(bytes[1..]);
      assert PercentBytes(bytes) + rest == esc + tail;
      PercentByteRoundTrip(bytes[0], tail);
      PercentBytesRoundTrip(bytes[1..], rest);
      PrependAll(bytes, PercentDecode(rest));
    }
  }

  lemma {:induction false} PercentRoundTrip(s: string)
    ensures PercentDecode(EncodeUriComponent(s)) == Some(Utf8Encode(s))
    decreases |s|
  {
    if |s| > 0 {
      var c := s[0];
      var tail := EncodeUriComponent(s[1..]);
      PercentRoundTrip(s[1..]);
      if Unescaped(c) {
        var e := [c] + tail;
        assert e[1..] == tail;
      } else {
        PercentBytesRoundTrip(Utf8(c), tail);
      }
    }
  }

  /** `decodeURIComponent(encodeURIComponent(s)) == s`: the encoded text
      determines the original string, so two different URLs never give the
      same encoded parameter. */
  lemma DecodeEncode(s: string)
    ensures DecodeUriComponent(EncodeUriComponent(s)) == Some(s)
  {
    PercentRoundTrip(s);
    Utf8RoundTrip(s);
  }

  /** Consequence of the round trip: the encoding is injective. */
  lemma EncodeInjective(a: string, b: string)
    requires EncodeUriComponent(a) == EncodeUriComponent(b)
    ensures a == b
  {
    DecodeEncode(a);
    DecodeEncode(b);
  }
}
