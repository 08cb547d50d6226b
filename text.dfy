/**
  String helpers that stand for the JavaScript built-ins the client relies on:
  `Array.prototype.join`, `String.prototype.split` with a one-character
  separator, prefix tests, the decimal rendering of integral numbers
  (`${n}`, `n.toString()`), `parseInt(s, 10)` and `Number(s)`.
*/
module Text {
  import opened Wrappers

  // ---------------------------------------------------------------------------
  // join / split

  /** `parts.join(sep)`. */
  function Join(parts: seq<string>, sep: string): string
  {
    if |parts| == 0 then ""
    else if |parts| == 1 then parts[0]
    else parts[0] + sep + Join(parts[1..], sep)
  }

  /** `s.split(sep)` for a one-character separator: the empty string splits into `[""]`. */
  function Split(s: string, sep: char): (r: seq<string>)
    ensures |r| >= 1
  {
    if |s| == 0 then [""]
    else
      var rest := Split(s[1..], sep);
      if s[0] == sep then [""] + rest
      else [[s[0]] + rest[0]] + rest[1..]
  }

  /** Splitting a piece without the separator gives that piece back whole. */
  lemma {:induction false} SplitWithout(p: string, sep: char)
    requires sep !in p
    ensures Split(p, sep) == [p]
  {
    if |p| > 0 {
      assert sep !in p[1..];
      SplitWithout(p[1..], sep);
      assert [p[0]] + p[1..] == p;
    }
  }

  /** Splitting at the first separator cuts off exactly the piece in front of it. */
  lemma {:induction false} SplitFirst(p: string, sep: char, rest: string)
    requires sep !in p
    ensures Split(p + [sep] + rest, sep) == [p] + Split(rest, sep)
  {
    if |p| == 0 {
      assert p + [sep] + rest == [sep] + rest;
      assert ([sep] + rest)[1..] == rest;
    } else {
      assert sep !in p[1..];
      SplitFirst(p[1..], sep, rest);
      assert (p + [sep] + rest)[1..] == p[1..] + [sep] + rest;
      assert [p[0]] + p[1..] == p;
    }
  }

  /** `split` undoes `join` when no piece holds the separator and there is at least one piece. */
  lemma {:induction false} SplitJoin(parts: seq<string>, sep: char)
    requires |parts| >= 1
    requires forall i :: 0 <= i < |parts| ==> sep !in parts[i]
    ensures Split(Join(parts, [sep]), sep) == parts
  {
    if |parts| == 1 {
      SplitWithout(parts[0], sep);
    } else {
      SplitJoin(parts[1..], sep);
      SplitFirst(parts[0], sep, Join(parts[1..], [sep]));
      assert [parts[0]] + parts[1..] == parts;
    }
  }

  /** Joining is injective on non-empty lists of pieces free of the separator. */
  lemma JoinInjective(a: seq<string>, b: seq<string>, sep: char)
    requires |a| >= 1 && |b| >= 1
    requires forall i :: 0 <= i < |a| ==> sep !in a[i]
    requires forall i :: 0 <= i < |b| ==> sep !in b[i]
    ensures Join(a, [sep]) == Join(b, [sep]) <==> a == b
  {
    if Join(a, [sep]) == Join(b, [sep]) {
      SplitJoin(a, sep);
      SplitJoin(b, sep);
    }
  }

  /** A list of non-empty pieces joins to the empty string only when it has no piece. */
  lemma JoinEmpty(parts: seq<string>, sep: string)
    requires forall i :: 0 <= i < |parts| ==> parts[i] != ""
    ensures Join(parts, sep) == "" <==> |parts| == 0
  {
    if |parts| > 0 {
      assert |Join(parts, sep)| >= |parts[0]|;
    }
  }

  /** Two strings glued around a character neither of them holds can be taken apart again. */
  lemma SplitAtMark(a: string, b: string, c: string, d: string, mark: char)
    requires mark !in a && mark !in c
    requires a + [mark] + b == c + [mark] + d
    ensures a == c && b == d
  {
    var s := a + [mark] + b;
    assert s == c + [mark] + d;
    assert s[|a|] == mark && s[|c|] == mark;
    assert forall i :: 0 <= i < |a| ==> s[i] == a[i];
    assert forall i :: 0 <= i < |c| ==> s[i] == c[i];
    assert |a| == |c|;
    assert a == s[..|a|] && c == s[..|c|];
    assert b == s[|a| + 1..] && d == s[|c| + 1..];
  }

  // ---------------------------------------------------------------------------
  // prefixes

  /** `s.startsWith(p)`. */
  predicate StartsWith(s: string, p: string)
  {
    |p| <= |s| && s[..|p|] == p
  }

  /** A string does not start with `p` once they differ at a position both have. */
  lemma DiffersAt(s: string, p: string, i: nat)
    requires i < |s| && i < |p| && s[i] != p[i]
    ensures !StartsWith(s, p)
  {
    if |p| <= |s| {
      assert s[..|p|][i] == s[i];
    }
  }

  /** Prefixing keeps the prefix. */
  lemma PrefixOfConcat(p: string, x: string)
    ensures StartsWith(p + x, p)
  {
    assert (p + x)[..|p|] == p;
  }

  // ---------------------------------------------------------------------------
  // decimal rendering of integral numbers

  predicate IsDigit(c: char)
  {
    '0' <= c <= '9'
  }

  predicate AllDigits(s: string)
  {
    forall i :: 0 <= i < |s| ==> IsDigit(s[i])
  }

  function DigitChar(d: nat): (c: char)
    requires d < 10
    ensures IsDigit(c)
  {
    ('0' as int + d) as char
  }

  function DigitValue(c: char): nat
    requires IsDigit(c)
  {
    c as int - '0' as int
  }

  /** The decimal digits of `n`, without leading zeros. */
  function NatToDecimal(n: nat): (r: string)
    ensures |r| >= 1 && AllDigits(r)
    ensures r[0] == '0' ==> n == 0
  {
    if n < 10 then [DigitChar(n)] else NatToDecimal(n / 10) + [DigitChar(n % 10)]
  }

  /**
    `${n}` for an integral number, as plain decimal digits. JavaScript writes
    exponent form from 1e21 on; the lemmas that read these digits back are
    stated for safe integers only.
  */
  function IntToDecimal(n: int): (r: string)
    ensures |r| >= 1
  {
    if n < 0 then "-" + NatToDecimal(-n) else NatToDecimal(n)
  }

  /** The value of a string of decimal digits, most significant first. */
  function DigitsValue(s: string): nat
    requires AllDigits(s)
  {
    if |s| == 0 then 0 else DigitsValue(s[..|s| - 1]) * 10 + DigitValue(s[|s| - 1])
  }

  /** Reading back the digits written for `n` gives `n`. */
  lemma {:induction false} DecimalValue(n: nat)
    ensures DigitsValue(NatToDecimal(n)) == n
  {
    if n >= 10 {
      DecimalValue(n / 10);
      var s := NatToDecimal(n);
      assert s[..|s| - 1] == NatToDecimal(n / 10);
    }
  }

  // ---------------------------------------------------------------------------
  // parseInt(s, 10) and Number(s)

  /** ECMAScript WhiteSpace and LineTerminator code points, which both parsers skip. */
  predicate IsJsWhitespace(c: char)
  {
    var cp := c as int;
    (0x09 <= cp <= 0x0D) || cp == 0x20 || cp == 0xA0 || cp == 0x1680
    || (0x2000 <= cp <= 0x200A) || cp == 0x2028 || cp == 0x2029 || cp == 0x202F
    || cp == 0x205F || cp == 0x3000 || cp == 0xFEFF
  }

  function TrimStart(s: string): (r: string)
    ensures |r| == 0 || !IsJsWhitespace(r[0])
  {
    if |s| > 0 && IsJsWhitespace(s[0]) then TrimStart(s[1..]) else s
  }

  function TrimEnd(s: string): (r: string)
    ensures |r| == 0 || !IsJsWhitespace(r[|r| - 1])
  {
    if |s| > 0 && IsJsWhitespace(s[|s| - 1]) then TrimEnd(s[..|s| - 1]) else s
  }

  /** The longest prefix of `s` made of ASCII digits. */
  function DigitPrefix(s: string): (r: string)
    ensures AllDigits(r) && StartsWith(s, r)
    ensures |r| < |s| ==> !IsDigit(s[|r|])
  {
    if |s| > 0 && IsDigit(s[0]) then [s[0]] + DigitPrefix(s[1..]) else ""
  }

  /** A leading `+` or `-`: the sign it stands for and what follows it. */
  function SignOf(s: string): (int, string)
  {
    if |s| > 0 && s[0] == '-' then (-1, s[1..])
    else if |s| > 0 && s[0] == '+' then (1, s[1..])
    else (1, s)
  }

  /**
    `parseInt(s, 10)`: leading white space is skipped, a sign is read, then the
    longest run of decimal digits; `None` stands for `NaN` (no digit at all).
  */
  function ParseInt(s: string): (r: Option<int>)
    ensures r.None? <==> DigitPrefix(SignOf(TrimStart(s)).1) == ""
  {
    var (sign, rest) := SignOf(TrimStart(s));
    var digits := DigitPrefix(rest);
    if digits == "" then None else Some(sign * DigitsValue(digits))
  }

  /**
    `Number(s)` for strings in integral decimal notation: white space is trimmed
    on both ends, the empty string is 0, and a sign followed only by digits is
    its value; `None` stands for `NaN`.
  */
  function ParseNumber(s: string): (r: Option<int>)
    ensures TrimEnd(TrimStart(s)) == "" ==> r == Some(0)
  {
    var t := TrimEnd(TrimStart(s));
    if t == "" then Some(0)
    else
      var (sign, rest) := SignOf(t);
      if rest != "" && AllDigits(rest) then Some(sign * DigitsValue(rest)) else None
  }

  lemma DigitPrefixOfDigits(s: string)
    requires AllDigits(s)
    ensures DigitPrefix(s) == s
  {
    var d := DigitPrefix(s);
    assert s[..|d|] == d;
  }

  /** `Number.MAX_SAFE_INTEGER`, 2^53 - 1: up to it every integer is exactly a double. */
  const MaxSafeInteger := 9007199254740991

  /** An integer a JavaScript number holds exactly. */
  predicate IsSafeInteger(n: int)
  {
    -MaxSafeInteger <= n <= MaxSafeInteger
  }

  /** `parseInt(String(n), 10) === n` for every safe integer `n`. */
  lemma ParseIntOfDecimal(n: int)
    requires IsSafeInteger(n)
    ensures ParseInt(IntToDecimal(n)) == Some(n)
  {
    var s := IntToDecimal(n);
    var m: nat := if n < 0 then -n else n;
    var digits := NatToDecimal(m);
    assert !IsJsWhitespace(s[0]);
    assert TrimStart(s) == s;
    assert SignOf(s).1 == digits by {
      if n < 0 { assert s[1..] == digits; }
      else { assert s[0] != '-' && s[0] != '+'; }
    }
    DigitPrefixOfDigits(digits);
    DecimalValue(m);
  }

  /** `Number(String(n)) === n` for every safe integer `n`. */
  lemma ParseNumberOfDecimal(n: int)
    requires IsSafeInteger(n)
    ensures ParseNumber(IntToDecimal(n)) == Some(n)
  {
    var s := IntToDecimal(n);
    var m: nat := if n < 0 then -n else n;
    var digits := NatToDecimal(m);
    assert TrimStart(s) == s;
    assert !IsJsWhitespace(s[|s| - 1]);
    assert TrimEnd(s) == s;
    assert SignOf(s).1 == digits by {
      if n < 0 { assert s[1..] == digits; }
      else { assert s[0] != '-' && s[0] != '+'; }
    }
    DecimalValue(m);
  }
}
