/**
 * `encodeURIComponent`, which the sidebar applies to a search term before
 * putting it in the route: every character outside the unreserved set is
 * written as the percent-escaped bytes of its UTF-8 encoding.
 * `decodeURIComponent` undoes it, so no two terms share a route.
 */
module Uri {
  import opened Options

  /** The characters `encodeURIComponent` leaves as they are. */
  predicate IsUnreserved(c: char) {
    || ('A' <= c <= 'Z') || ('a' <= c <= 'z') || ('0' <= c <= '9')
    || c == '-' || c == '_' || c == '.' || c == '!' || c == '~' || c == '*' || c == '\'' || c == '(' || c == ')'
  }

  /** The UTF-8 encoding of one Unicode scalar value. */
  function Utf8(c: char): (bytes: seq<int>)
    ensures 1 <= |bytes| <= 4
    ensures forall i :: 0 <= i < |bytes| ==> 0 <= bytes[i] < 256
  {
    var n := c as int;
    if n < 0x80 then [n]
    else if n < 0x800 then [0xC0 + n / 64, 0x80 + n % 64]
    else if n < 0x10000 then [0xE0 + n / 4096, 0x80 + (n / 64) % 64, 0x80 + n % 64]
    else [0xF0 + n / 262144, 0x80 + (n / 4096) % 64, 0x80 + (n / 64) % 64, 0x80 + n % 64]
  }

  function HexDigit(d: int): (c: char)
    requires 0 <= d < 16
    ensures IsUnreserved(c)
  {
    if d < 10 then ('0' as int + d) as char else ('A' as int + d - 10) as char
  }

  /** "%XY" for one byte, with upper-case hexadecimal digits. */
  function Escape(b: int): (s: string)
    requires 0 <= b < 256
    ensures |s| == 3 && s[0] == '%' && IsUnreserved(s[1]) && IsUnreserved(s[2])
  {
    ['%', HexDigit(b / 16), HexDigit(b % 16)]
  }

  function EscapeAll(bytes: seq<int>): (s: string)
    requires forall i :: 0 <= i < |bytes| ==> 0 <= bytes[i] < 256
    ensures |s| == 3 * |bytes|
    ensures forall i :: 0 <= i < |s| ==> s[i] == '%' || IsUnreserved(s[i])
  {
    if bytes == [] then [] else Escape(bytes[0]) + EscapeAll(bytes[1..])
  }

  /**
   * `encodeURIComponent(s)`. The result holds only unreserved characters and
   * '%', so it never contains '/', '?' or '#' and stays one path segment;
   * a string of unreserved characters is left as it is.
   */
  function EncodeURIComponent(s: string): (r: string)
    ensures forall i :: 0 <= i < |r| ==> r[i] == '%' || IsUnreserved(r[i])
    ensures (forall i :: 0 <= i < |s| ==> IsUnreserved(s[i])) ==> r == s
    ensures |r| >= |s|
  {
    if s == [] then []
    else
      var head := if IsUnreserved(s[0]) then [s[0]] else EscapeAll(Utf8(s[0]));
      head + EncodeURIComponent(s[1..])
  }

  // ---------------------------------------------------------------------
  // Decoding
  // ---------------------------------------------------------------------

  /** The value of a hexadecimal digit of either case. */
  function HexValue(c: char): (r: Option<int>)
    ensures r.Some? ==> 0 <= r.value < 16
  {
    if '0' <= c <= '9' then Some(c as int - '0' as int)
    else if 'A' <= c <= 'F' then Some(c as int - 'A' as int + 10)
    else if 'a' <= c <= 'f' then Some(c as int - 'a' as int + 10)
    else None
  }

  lemma HexValueOfDigit(d: int)
    requires 0 <= d < 16
    ensures HexValue(HexDigit(d)) == Some(d)
  {
  }

  /** The byte an escape "%XY" at the start of `r` stands for. */
  function EscapedByte(r: string): (b: Option<int>)
    ensures b.Some? ==> |r| >= 3 && 0 <= b.value < 256
  {
    if |r| >= 3 && r[0] == '%' && HexValue(r[1]).Some? && HexValue(r[2]).Some? then
      Some(16 * HexValue(r[1]).value + HexValue(r[2]).value)
    else None
  }

  /** The bytes of the `n` escapes at the start of `r`. */
  function EscapedBytes(r: string, n: nat): (bs: Option<seq<int>>)
    ensures bs.Some? ==> |bs.value| == n && 3 * n <= |r|
    ensures bs.Some? && n > 0 ==> EscapedByte(r) == Some(bs.value[0])
  {
    if n == 0 then Some([])
    else
      match EscapedByte(r)
      case None => None
      case Some(b) =>
        match EscapedBytes(r[3..], n - 1)
        case None => None
        case Some(bs) => Some([b] + bs)
  }

  /** The length of the UTF-8 sequence that `lead` starts; 0 when no
      sequence starts with it. */
  function SequenceLength(lead: int): nat {
    if lead < 0x80 then 1
    else if 0xC0 <= lead < 0xE0 then 2
    else if 0xE0 <= lead < 0xF0 then 3
    else if 0xF0 <= lead < 0xF8 then 4
    else 0
  }

  predicate IsContinuation(b: int) {
    0x80 <= b < 0xC0
  }

  /** A Unicode scalar value: a code point that is not a surrogate. */
  predicate IsScalar(v: int) {
    0 <= v < 0xD800 || 0xE000 <= v < 0x11_0000
  }

  /** The code point a UTF-8 sequence of one to four bytes encodes; None for
      a missing continuation byte, an overlong form, a surrogate or a value
      past U+10FFFF. */
  function Utf8Value(bs: seq<int>): (v: Option<int>)
    requires 1 <= |bs| <= 4
    ensures v.Some? ==> IsScalar(v.value)
  {
    if exists i :: 1 <= i < |bs| && !IsContinuation(bs[i]) then None
    else
      var v :=
        if |bs| == 1 then bs[0]
        else if |bs| == 2 then (bs[0] - 0xC0) * 64 + (bs[1] - 0x80)
        else if |bs| == 3 then (bs[0] - 0xE0) * 4096 + (bs[1] - 0x80) * 64 + (bs[2] - 0x80)
        else (bs[0] - 0xF0) * 262144 + (bs[1] - 0x80) * 4096 + (bs[2] - 0x80) * 64 + (bs[3] - 0x80);
      var least := if |bs| == 1 then 0 else if |bs| == 2 then 0x80 else if |bs| == 3 then 0x800 else 0x10000;
      if least <= v && IsScalar(v) then Some(v) else None
  }

  /** The character the escapes at the start of `r` encode, with the number
      of characters they take. */
  function DecodeEscaped(r: string): (d: Option<(char, nat)>)
    ensures d.Some? ==> 3 <= d.value.1 <= |r|
  {
    match EscapedByte(r)
    case None => None
    case Some(lead) =>
      var n := SequenceLength(lead);
      if n == 0 then None
      else
        match EscapedBytes(r, n)
        case None => None
        case Some(bs) =>
          match Utf8Value(bs)
          case None => None
          case Some(v) => Some((v as char, 3 * n))
  }

  /** `decodeURIComponent(r)`; None where it throws a URIError. */
  function DecodeURIComponent(r: string): (s: Option<string>)
    decreases |r|
  {
    if r == [] then Some([])
    else if r[0] != '%' then
      match DecodeURIComponent(r[1..])
      case None => None
      case Some(t) => Some([r[0]] + t)
    else
      match DecodeEscaped(r)
      case None => None
      case Some((c, len)) =>
        match DecodeURIComponent(r[len..])
        case None => None
        case Some(t) => Some([c] + t)
  }

  /** Reading an escape gives back its byte. */
  lemma EscapedByteOfEscape(b: int, rest: string)
    requires 0 <= b < 256
    ensures EscapedByte(Escape(b) + rest) == Some(b)
  {
    HexValueOfDigit(b / 16);
    HexValueOfDigit(b % 16);
  }

  lemma {:induction false} EscapedBytesOfEscapeAll(bs: seq<int>, rest: string)
    requires forall i :: 0 <= i < |bs| ==> 0 <= bs[i] < 256
    ensures EscapedBytes(EscapeAll(bs) + rest, |bs|) == Some(bs)
    ensures (EscapeAll(bs) + rest)[3 * |bs|..] == rest
  {
    if bs != [] {
      var head, more := Escape(bs[0]), EscapeAll(bs[1..]);
      var tail := more + rest;
      assert EscapeAll(bs) == head + more;
      assert EscapeAll(bs) + rest == head + tail by {
        assert (head + more) + rest == head + (more + rest);
      }
      EscapedByteOfEscape(bs[0], tail);
      EscapedBytesOfEscapeAll(bs[1..], rest);
      assert (head + tail)[3..] == tail;
      assert [bs[0]] + bs[1..] == bs;
    }
  }

  /** The UTF-8 encoding of a character decodes to its code point. */
  lemma Utf8RoundTrip(c: char)
    ensures SequenceLength(Utf8(c)[0]) == |Utf8(c)|
    ensures Utf8Value(Utf8(c)) == Some(c as int)
  {
    var n := c as int;
    if n < 0x80 {
    } else if n < 0x800 {
      TwoByteRoundTrip(n);
    } else if n < 0x10000 {
      ThreeByteRoundTrip(n);
    } else {
      FourByteRoundTrip(n);
    }
  }

  lemma TwoByteRoundTrip(n: int)
    requires 0x80 <= n < 0x800
    ensures SequenceLength(0xC0 + n / 64) == 2
    ensures Utf8Value([0xC0 + n / 64, 0x80 + n % 64]) == Some(n)
  {
    var q, r := n / 64, n % 64;
    assert n == 64 * q + r && 0 <= r < 64;
    var bs := [0xC0 + q, 0x80 + r];
    assert IsContinuation(bs[1]);
  }

  lemma ThreeByteRoundTrip(n: int)
    requires 0x800 <= n < 0x10000 && IsScalar(n)
    ensures SequenceLength(0xE0 + n / 4096) == 3
    ensures Utf8Value([0xE0 + n / 4096, 0x80 + (n / 64) % 64, 0x80 + n % 64]) == Some(n)
  {
    var q, r := n / 64, n % 64;
    assert n == 64 * q + r && 0 <= r < 64;
    var q2, r2 := q / 64, q % 64;
    assert q == 64 * q2 + r2 && 0 <= r2 < 64;
    assert n / 4096 == q2;
    var bs := [0xE0 + q2, 0x80 + r2, 0x80 + r];
    assert IsContinuation(bs[1]) && IsContinuation(bs[2]);
    assert (bs[0] - 0xE0) * 4096 + (bs[1] - 0x80) * 64 + (bs[2] - 0x80) == n;
  }

  lemma FourByteRoundTrip(n: int)
    requires 0x10000 <= n < 0x11_0000
    ensures SequenceLength(0xF0 + n / 262144) == 4
    ensures Utf8Value([0xF0 + n / 262144, 0x80 + (n / 4096) % 64, 0x80 + (n / 64) % 64, 0x80 + n % 64]) == Some(n)
  {
    var q, r := n / 64, n % 64;
    assert n == 64 * q + r && 0 <= r < 64;
    var q2, r2 := q / 64, q % 64;
    assert q == 64 * q2 + r2 && 0 <= r2 < 64;
    var q3, r3 := q2 / 64, q2 % 64;
    assert q2 == 64 * q3 + r3 && 0 <= r3 < 64;
    assert n / 4096 == q2 && n / 262144 == q3;
    var bs := [0xF0 + q3, 0x80 + r3, 0x80 + r2, 0x80 + r];
    assert IsContinuation(bs[1]) && IsContinuation(bs[2]) && IsContinuation(bs[3]);
    assert (bs[0] - 0xF0) * 262144 + (bs[1] - 0x80) * 4096 + (bs[2] - 0x80) * 64 + (bs[3] - 0x80) == n;
  }

  /** The escapes of a reserved character decode to that character. */
  lemma DecodeEscapedOfChar(c: char, rest: string)
    ensures DecodeEscaped(EscapeAll(Utf8(c)) + rest) == Some((c, 3 * |Utf8(c)|))
    ensures (EscapeAll(Utf8(c)) + rest)[3 * |Utf8(c)|..] == rest
  {
    EscapedBytesOfEscapeAll(Utf8(c), rest);
    Utf8RoundTrip(c);
  }

  /** An unreserved character decodes as itself. */
  lemma DecodeOfUnreservedHead(c: char, tail: string, t: string)
    requires IsUnreserved(c) && DecodeURIComponent(tail) == Some(t)
    ensures DecodeURIComponent([c] + tail) == Some([c] + t)
  {
    assert ([c] + tail)[1..] == tail;
  }

  /** The escapes of a reserved character decode as that character. */
  lemma DecodeOfEscapedHead(c: char, tail: string, t: string)
    requires DecodeURIComponent(tail) == Some(t)
    ensures DecodeURIComponent(EscapeAll(Utf8(c)) + tail) == Some([c] + t)
  {
    var bs := Utf8(c);
    assert (EscapeAll(bs) + tail)[0] == '%' by {
      assert EscapeAll(bs) == Escape(bs[0]) + EscapeAll(bs[1..]);
    }
    DecodeEscapedOfChar(c, tail);
  }

  /** `decodeURIComponent(encodeURIComponent(s)) == s`. */
  lemma {:induction false} DecodeOfEncode(s: string)
    ensures DecodeURIComponent(EncodeURIComponent(s)) == Some(s)
  {
    if s != [] {
      var tail := EncodeURIComponent(s[1..]);
      DecodeOfEncode(s[1..]);
      if IsUnreserved(s[0]) {
        DecodeOfUnreservedHead(s[0], tail, s[1..]);
      } else {
        DecodeOfEscapedHead(s[0], tail, s[1..]);
      }
      assert [s[0]] + s[1..] == s;
    }
  }

  /** Distinct strings have distinct encodings. */
  lemma EncodeIsInjective(s: string, t: string)
    requires EncodeURIComponent(s) == EncodeURIComponent(t)
    ensures s == t
  {
    DecodeOfEncode(s);
    DecodeOfEncode(t);
  }
}
