/**
  Percent-encoding as done by the browser: `encodeURIComponent` (used by the
  manga-list query builder) and the application/x-www-form-urlencoded
  serialiser behind `URLSearchParams.prototype.toString` (used for the page
  URL). Both write a character outside their unreserved set as the UTF-8
  bytes of its code point, each as `%XX` with upper-case hex digits; the form
  serialiser writes a space as `+`.

  Dafny's `char` is a Unicode scalar value, so the lone surrogates on which
  `encodeURIComponent` throws cannot occur here.
*/
module UrlEncoding {

  datatype Flavour = Component | Form

  predicate IsAsciiAlnum(c: char)
  {
    ('A' <= c <= 'Z') || ('a' <= c <= 'z') || ('0' <= c <= '9')
  }

  /** The characters each encoder leaves as they are. */
  predicate IsUnreserved(c: char, flavour: Flavour)
  {
    match flavour
    case Component =>
      IsAsciiAlnum(c) || c == '-' || c == '_' || c == '.' || c == '!' || c == '~' || c == '*'
      || c == '\'' || c == '(' || c == ')'
    case Form => IsAsciiAlnum(c) || c == '*' || c == '-' || c == '.' || c == '_'
  }

  function HexDigit(d: nat): (c: char)
    requires d < 16
  {
    if d < 10 then ('0' as int + d) as char else ('A' as int + d - 10) as char
  }

  /** `%XX` for one byte. */
  function PercentByte(b: nat): (r: string)
    requires b < 256
    ensures |r| == 3 && r[0] == '%'
  {
    ['%', HexDigit(b / 16), HexDigit(b % 16)]
  }

  predicate AreBytes(bs: seq<nat>)
  {
    forall i :: 0 <= i < |bs| ==> bs[i] < 256
  }

  function PercentBytes(bs: seq<nat>): (r: string)
    requires AreBytes(bs)
    ensures |r| == 3 * |bs|
  {
    if |bs| == 0 then "" else PercentByte(bs[0]) + PercentBytes(bs[1..])
  }

  /** The UTF-8 encoding of a Unicode scalar value. */
  function Utf8(c: char): (bs: seq<nat>)
    ensures 1 <= |bs| <= 4 && AreBytes(bs)
    ensures |bs| == Utf8Length(bs[0])
  {
    var cp := c as int;
    var q1 := cp / 64;
    var q2 := q1 / 64;
    var q3 := q2 / 64;
    if cp < 0x80 then [cp]
    else if cp < 0x800 then [0xC0 + q1, 0x80 + cp % 64]
    else if cp < 0x10000 then [0xE0 + q2, 0x80 + q1 % 64, 0x80 + cp % 64]
    else [0xF0 + q3, 0x80 + q2 % 64, 0x80 + q1 % 64, 0x80 + cp % 64]
  }

  /** The length of a UTF-8 sequence, read off its lead byte. */
  function Utf8Length(lead: nat): nat
  {
    if lead < 0x80 then 1 else if lead < 0xE0 then 2 else if lead < 0xF0 then 3 else 4
  }

  /** What one character becomes. */
  function EncodeChar(c: char, flavour: Flavour): (r: string)
    ensures |r| >= 1
  {
    if IsUnreserved(c, flavour) then [c]
    else if flavour == Form && c == ' ' then "+"
    else PercentBytes(Utf8(c))
  }

  /** The encoder, character by character. */
  function Encode(s: string, flavour: Flavour): (r: string)
    ensures |r| >= |s|
  {
    if |s| == 0 then "" else EncodeChar(s[0], flavour) + Encode(s[1..], flavour)
  }

  /** `encodeURIComponent(s)`. */
  function EncodeURIComponent(s: string): string
  {
    Encode(s, Component)
  }

  /** One name or value as `URLSearchParams` serialises it. */
  function FormEncode(s: string): string
  {
    Encode(s, Form)
  }

  // ---------------------------------------------------------------------------
  // what the encoders leave alone and what they never write

  /** A string made only of unreserved characters is written as it is. */
  lemma {:induction false} EncodeUnreserved(s: string, flavour: Flavour)
    requires forall i :: 0 <= i < |s| ==> IsUnreserved(s[i], flavour)
    ensures Encode(s, flavour) == s
  {
    if |s| > 0 {
      EncodeUnreserved(s[1..], flavour);
      assert [s[0]] + s[1..] == s;
    }
  }

  lemma PercentBytesChars(bs: seq<nat>, x: char)
    requires AreBytes(bs)
    requires x in PercentBytes(bs)
    ensures x == '%' || ('0' <= x <= '9') || ('A' <= x <= 'F')
  {
    if |bs| > 0 {
      var head := PercentByte(bs[0]);
      if x !in head {
        PercentBytesChars(bs[1..], x);
      }
    }
  }

  /** No encoded string contains `&` or `=`, the two delimiters of a query string. */
  lemma {:induction false} EncodeAvoidsDelimiters(s: string, flavour: Flavour)
    ensures '&' !in Encode(s, flavour) && '=' !in Encode(s, flavour)
  {
    if |s| > 0 {
      EncodeAvoidsDelimiters(s[1..], flavour);
      var head := EncodeChar(s[0], flavour);
      if !IsUnreserved(s[0], flavour) && !(flavour == Form && s[0] == ' ') {
        if '&' in head { PercentBytesChars(Utf8(s[0]), '&'); }
        if '=' in head { PercentBytesChars(Utf8(s[0]), '='); }
      }
    }
  }

  // ---------------------------------------------------------------------------
  // injectivity

  lemma HexDigitInjective(x: nat, y: nat)
    requires x < 16 && y < 16 && HexDigit(x) == HexDigit(y)
    ensures x == y
  {
  }

  lemma PercentByteInjective(a: nat, b: nat)
    requires a < 256 && b < 256 && PercentByte(a) == PercentByte(b)
    ensures a == b
  {
    assert PercentByte(a)[1] == PercentByte(b)[1] && PercentByte(a)[2] == PercentByte(b)[2];
    HexDigitInjective(a / 16, b / 16);
    HexDigitInjective(a % 16, b % 16);
  }

  /** Equal-length byte strings with the same `%XX` text in front of a string are equal. */
  lemma {:induction false} PercentBytesPrefix(xs: seq<nat>, ys: seq<nat>, r1: string, r2: string)
    requires AreBytes(xs) && AreBytes(ys) && |xs| == |ys|
    requires PercentBytes(xs) + r1 == PercentBytes(ys) + r2
    ensures xs == ys && r1 == r2
  {
    if |xs| > 0 {
      var t := PercentBytes(xs) + r1;
      assert t == PercentByte(xs[0]) + (PercentBytes(xs[1..]) + r1);
      assert t == PercentByte(ys[0]) + (PercentBytes(ys[1..]) + r2);
      assert PercentByte(xs[0]) == t[..3] == PercentByte(ys[0]);
      PercentByteInjective(xs[0], ys[0]);
      assert PercentBytes(xs[1..]) + r1 == t[3..] == PercentBytes(ys[1..]) + r2;
      PercentBytesPrefix(xs[1..], ys[1..], r1, r2);
      assert xs == [xs[0]] + xs[1..] && ys == [ys[0]] + ys[1..];
    } else {
      assert PercentBytes(xs) == "" && PercentBytes(ys) == "";
      assert PercentBytes(xs) + r1 == r1 && PercentBytes(ys) + r2 == r2;
    }
  }

  lemma Utf8Injective(c: char, d: char)
    requires Utf8(c) == Utf8(d)
    ensures c == d
  {
    var x, y := c as int, d as int;
    assert x / 64 * 64 + x % 64 == x;
    assert y / 64 * 64 + y % 64 == y;
    assert x / 64 / 64 * 64 + x / 64 % 64 == x / 64;
    assert y / 64 / 64 * 64 + y / 64 % 64 == y / 64;
    assert x / 64 / 64 / 64 * 64 + x / 64 / 64 % 64 == x / 64 / 64;
    assert y / 64 / 64 / 64 * 64 + y / 64 / 64 % 64 == y / 64 / 64;
    assert x == y;
  }

  /**
    The code of one character is never a proper prefix of another's: if two
    strings start with the codes of `c` and `d` and are otherwise equal, then
    `c == d` and the remainders agree.
  */
  lemma EncodeCharPrefix(c: char, d: char, r1: string, r2: string, flavour: Flavour)
    requires EncodeChar(c, flavour) + r1 == EncodeChar(d, flavour) + r2
    ensures c == d && r1 == r2
  {
    var ec, ed := EncodeChar(c, flavour), EncodeChar(d, flavour);
    var t := ec + r1;
    assert t[0] == ec[0] && t[0] == ed[0];
    var pc := !IsUnreserved(c, flavour) && !(flavour == Form && c == ' ');
    var pd := !IsUnreserved(d, flavour) && !(flavour == Form && d == ' ');
    if pc && pd {
      var bc, bd := Utf8(c), Utf8(d);
      assert ec[..3] == PercentByte(bc[0]) && ed[..3] == PercentByte(bd[0]);
      assert t[..3] == ec[..3] && t[..3] == ed[..3];
      PercentByteInjective(bc[0], bd[0]);
      PercentBytesPrefix(bc, bd, r1, r2);
      Utf8Injective(c, d);
    } else {
      assert |ec| == 1 && |ed| == 1;
      assert r1 == t[1..] && r2 == t[1..];
    }
  }

  /** Both encoders are injective. */
  lemma {:induction false} EncodeInjective(s: string, t: string, flavour: Flavour)
    requires Encode(s, flavour) == Encode(t, flavour)
    ensures s == t
  {
    if |s| > 0 && |t| > 0 {
      EncodeCharPrefix(s[0], t[0], Encode(s[1..], flavour), Encode(t[1..], flavour), flavour);
      EncodeInjective(s[1..], t[1..], flavour);
      assert s == [s[0]] + s[1..] && t == [t[0]] + t[1..];
    }
  }
}
