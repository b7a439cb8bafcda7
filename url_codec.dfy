/** PHP's `urldecode`, which both decoder closures apply to their input
    first, and the percent-escaping it inverts (section 2.1 of RFC 3986,
    plus the form-encoding rule that `+` stands for a space). */
module UrlCodec {

  predicate IsHexDigit(c: char)
  {
    '0' <= c <= '9' || 'a' <= c <= 'f' || 'A' <= c <= 'F'
  }

  function HexValue(c: char): (r: nat)
    requires IsHexDigit(c)
    ensures r < 16
  {
    if c <= '9' then c as int - '0' as int
    else if c <= 'F' then c as int - 'A' as int + 10
    else c as int - 'a' as int + 10
  }

  /** The lower-case hex digit of a value below 16. */
  function HexDigit(d: nat): (r: char)
    requires d < 16
    ensures IsHexDigit(r) && HexValue(r) == d
  {
    if d < 10 then ('0' as int + d) as char else ('a' as int + d - 10) as char
  }

  /** A character that stands for one byte. */
  predicate IsByte(c: char)
  {
    c as int < 256
  }

  /** `urldecode($s)`: `+` becomes a space, `%` followed by two hex digits
      becomes the byte they spell, and every other character, including a
      `%` that does not start such an escape, is copied unchanged. */
  function UrlDecode(s: string): (r: string)
    ensures |r| <= |s|
  {
    if s == [] then []
    else if s[0] == '+' then [' '] + UrlDecode(s[1..])
    else if s[0] == '%' && |s| >= 3 && IsHexDigit(s[1]) && IsHexDigit(s[2]) then
      [(16 * HexValue(s[1]) + HexValue(s[2])) as char] + UrlDecode(s[3..])
    else [s[0]] + UrlDecode(s[1..])
  }

  /** `%xx` for one byte. */
  function EscapeByte(c: char): (r: string)
    requires IsByte(c)
    ensures |r| == 3 && r[0] == '%'
  {
    ['%', HexDigit(c as int / 16), HexDigit(c as int % 16)]
  }

  /** Every byte written as a percent escape: the form in which the loader
      literals are stored. */
  function Escape(b: string): (r: string)
    requires forall k :: 0 <= k < |b| ==> IsByte(b[k])
    ensures |r| == 3 * |b|
  {
    if b == [] then [] else EscapeByte(b[0]) + Escape(b[1..])
  }

  /** Decoding one escape gives back its byte. */
  lemma UrlDecodeEscapeByte(c: char, rest: string)
    requires IsByte(c)
    ensures UrlDecode(EscapeByte(c) + rest) == [c] + UrlDecode(rest)
  {
    var s := EscapeByte(c) + rest;
    var hi, lo := c as int / 16, c as int % 16;
    assert s[1] == HexDigit(hi) && s[2] == HexDigit(lo);
    assert 16 * hi + lo == c as int;
    assert s[3..] == rest;
  }

  /** Decoding an escaped prefix gives back its bytes, and decoding then
      carries on with whatever follows. */
  lemma {:induction false} UrlDecodeEscape(b: string, rest: string)
    requires forall k :: 0 <= k < |b| ==> IsByte(b[k])
    ensures UrlDecode(Escape(b) + rest) == b + UrlDecode(rest)
  {
    if b != [] {
      var tail := Escape(b[1..]) + rest;
      assert Escape(b) + rest == EscapeByte(b[0]) + tail;
      UrlDecodeEscapeByte(b[0], tail);
      UrlDecodeEscape(b[1..], rest);
      calc {
        UrlDecode(Escape(b) + rest);
        [b[0]] + UrlDecode(tail);
        [b[0]] + (b[1..] + UrlDecode(rest));
        { assert b == [b[0]] + b[1..]; }
        b + UrlDecode(rest);
      }
    } else {
      assert Escape(b) + rest == rest;
    }
  }

  /** `urldecode` inverts full percent-escaping. */
  lemma UrlDecodeEscapeAll(b: string)
    requires forall k :: 0 <= k < |b| ==> IsByte(b[k])
    ensures UrlDecode(Escape(b)) == b
  {
    UrlDecodeEscape(b, []);
    assert Escape(b) + [] == Escape(b);
  }

  /** Text with neither `%` nor `+` passes through `urldecode` unchanged. */
  lemma {:induction false} UrlDecodePlain(s: string)
    requires '%' !in s && '+' !in s
    ensures UrlDecode(s) == s
  {
    if s != [] {
      assert s[0] in s;
      assert forall c :: c in s[1..] ==> c in s;
      UrlDecodePlain(s[1..]);
    }
  }
}
