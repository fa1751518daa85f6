/**
 * The pieces of JavaScript's string built-ins that the frontend relies on:
 * `String.prototype.split` with a one-character separator, `parseInt` in
 * radix 10, the decimal rendering of an integer in a template literal,
 * the `%` operator, and the character classes `\s` and `\d`.
 */
module JsText {
  import opened Wrappers

  /** The characters matched by `\s` (and skipped by `parseInt`): white space and line terminators. */
  predicate IsJsSpace(c: char) {
    || c in {'\t', '\n', '\U{000B}', '\U{000C}', '\r', ' ', '\U{00A0}', '\U{1680}',
             '\U{2028}', '\U{2029}', '\U{202F}', '\U{205F}', '\U{3000}', '\U{FEFF}'}
    || ('\U{2000}' <= c <= '\U{200A}')
  }

  /** The characters matched by `\d`. */
  predicate IsDigit(c: char) {
    '0' <= c <= '9'
  }

  predicate AllDigits(s: string) {
    forall i :: 0 <= i < |s| ==> IsDigit(s[i])
  }

  function DigitValue(c: char): (d: nat)
    requires IsDigit(c)
    ensures d < 10
  {
    c as int - '0' as int
  }

  function DigitChar(d: nat): (c: char)
    requires d < 10
    ensures IsDigit(c) && DigitValue(c) == d
  {
    ('0' as int + d) as char
  }

  /** The value of a string of decimal digits, most significant first. */
  function DigitsValue(s: string): nat
    requires AllDigits(s)
    decreases |s|
  {
    if s == [] then 0 else 10 * DigitsValue(s[..|s| - 1]) + DigitValue(s[|s| - 1])
  }

  /** The digits of `n` as a template literal renders them: no sign, no leading zero. */
  function NatToString(n: nat): (s: string)
    ensures |s| >= 1 && AllDigits(s)
    ensures DigitsValue(s) == n
    ensures |s| == 1 || s[0] != '0'
    decreases n
  {
    if n < 10 then [DigitChar(n)]
    else
      var s := NatToString(n / 10) + [DigitChar(n % 10)];
      assert s[..|s| - 1] == NatToString(n / 10);
      s
  }

  /** `${i}` for an integer `i`: a minus sign before the digits when negative. */
  function IntToString(i: int): (s: string)
    ensures i >= 0 ==> s == NatToString(i)
    ensures i < 0 ==> s == "-" + NatToString(-i)
  {
    if i < 0 then "-" + NatToString(-i) else NatToString(i)
  }

  /** `s` without its leading white space. */
  function TrimStart(s: string): (r: string)
    ensures |r| <= |s| && r == s[|s| - |r|..]
    ensures r == [] || !IsJsSpace(r[0])
    ensures (forall i :: 0 <= i < |s| ==> !IsJsSpace(s[i])) ==> r == s
  {
    if s != [] && IsJsSpace(s[0]) then TrimStart(s[1..]) else s
  }

  /** The longest prefix of `s` made of decimal digits. */
  function LeadingDigits(s: string): (r: string)
    ensures AllDigits(r) && |r| <= |s| && r == s[..|r|]
    ensures |r| < |s| ==> !IsDigit(s[|r|])
  {
    if s != [] && IsDigit(s[0]) then [s[0]] + LeadingDigits(s[1..]) else []
  }

  /**
   * `parseInt(s)` in radix 10: leading white space is skipped, one sign is
   * accepted, and the longest run of digits after it is read; with no digit
   * the result is NaN, written None.
   */
  function ParseInt(s: string): (r: Option<int>)
    ensures r.None? <==> LeadingDigits(SignStripped(TrimStart(s))) == []
    ensures r.Some? ==>
      var t := TrimStart(s);
      var magnitude: int := DigitsValue(LeadingDigits(SignStripped(t)));
      t != [] && r.value == if t[0] == '-' then -magnitude else magnitude
  {
    var t := TrimStart(s);
    var digits := LeadingDigits(SignStripped(t));
    if digits == [] then None
    else
      var magnitude: int := DigitsValue(digits);
      Some(if t[0] == '-' then -magnitude else magnitude)
  }

  function SignStripped(t: string): string {
    if t != [] && (t[0] == '-' || t[0] == '+') then t[1..] else t
  }

  lemma DigitIsNotSpace(c: char)
    requires IsDigit(c)
    ensures !IsJsSpace(c) && c != '-' && c != '+'
  {
  }

  lemma {:induction false} LeadingDigitsOf(digits: string, rest: string)
    requires AllDigits(digits)
    requires rest == [] || !IsDigit(rest[0])
    ensures LeadingDigits(digits + rest) == digits
    decreases |digits|
  {
    if digits == [] {
      assert digits + rest == rest;
    } else {
      assert (digits + rest)[1..] == digits[1..] + rest;
      LeadingDigitsOf(digits[1..], rest);
    }
  }

  /** `ParseInt` by its parts: the trimmed text and the digits after its sign. */
  lemma ParseIntOfTrimmed(s: string, digits: string)
    requires |digits| >= 1
    requires LeadingDigits(SignStripped(TrimStart(s))) == digits
    ensures var magnitude: int := DigitsValue(digits);
      ParseInt(s) == Some(if TrimStart(s)[0] == '-' then -magnitude else magnitude)
  {
    var t := TrimStart(s);
    var magnitude: int := DigitsValue(digits);
    var r := ParseInt(s);
    assert r.Some? && t != [];
    if t[0] == '-' {
      assert r.value == -magnitude;
    } else {
      assert r.value == magnitude;
    }
  }

  /** `parseInt` reads back a number's digits, stopping at the first non-digit after them. */
  lemma ParseIntOfDigits(digits: string, rest: string)
    requires |digits| >= 1 && AllDigits(digits)
    requires rest == [] || !IsDigit(rest[0])
    ensures ParseInt(digits + rest) == Some(DigitsValue(digits))
  {
    var s := digits + rest;
    assert s[0] == digits[0];
    DigitIsNotSpace(s[0]);
    assert TrimStart(s) == s;
    assert SignStripped(s) == s;
    LeadingDigitsOf(digits, rest);
    ParseIntOfTrimmed(s, digits);
  }

  /** Rendering an integer and parsing it back gives the integer. */
  lemma ParseIntOfIntToString(i: int)
    ensures ParseInt(IntToString(i)) == Some(i)
  {
    if i >= 0 {
      ParseIntOfDigits(NatToString(i), []);
      assert NatToString(i) + [] == NatToString(i);
    } else {
      var s := IntToString(i);
      assert s[0] == '-' && !IsJsSpace(s[0]);
      assert TrimStart(s) == s;
      assert SignStripped(s) == NatToString(-i);
      LeadingDigitsOf(NatToString(-i), []);
      assert NatToString(-i) + [] == NatToString(-i);
    }
  }

  /** `ws` is made of white space only. */
  predicate AllJsSpace(ws: string) {
    forall k :: 0 <= k < |ws| ==> IsJsSpace(ws[k])
  }

  /** Leading white space is skipped up to the first other character. */
  lemma {:induction false} TrimStartOfSpaces(ws: string, t: string)
    requires AllJsSpace(ws)
    requires t != [] && !IsJsSpace(t[0])
    ensures TrimStart(ws + t) == t
    decreases |ws|
  {
    if ws == [] {
      assert ws + t == t;
    } else {
      assert (ws + t)[0] == ws[0];
      assert (ws + t)[1..] == ws[1..] + t;
      TrimStartOfSpaces(ws[1..], t);
    }
  }

  /** After white space and one explicit sign, `parseInt` reads the digits and applies the sign. */
  lemma ParseIntOfSigned(ws: string, sign: char, digits: string, rest: string)
    requires AllJsSpace(ws)
    requires sign == '+' || sign == '-'
    requires |digits| >= 1 && AllDigits(digits)
    requires rest == [] || !IsDigit(rest[0])
    ensures var magnitude: int := DigitsValue(digits);
      ParseInt(ws + [sign] + digits + rest) == Some(if sign == '-' then -magnitude else magnitude)
  {
    var t := [sign] + (digits + rest);
    Regrouped(ws, [sign], digits, rest);
    assert t[0] == sign;
    TrimStartOfSpaces(ws, t);
    ParseIntOfTrimmedSigned(ws + t, sign, digits, rest);
  }

  /** `ParseIntOfSigned` once the white space is gone. */
  lemma ParseIntOfTrimmedSigned(s: string, sign: char, digits: string, rest: string)
    requires sign == '+' || sign == '-'
    requires |digits| >= 1 && AllDigits(digits)
    requires rest == [] || !IsDigit(rest[0])
    requires TrimStart(s) == [sign] + (digits + rest)
    ensures var magnitude: int := DigitsValue(digits);
      ParseInt(s) == Some(if sign == '-' then -magnitude else magnitude)
  {
    var t := [sign] + (digits + rest);
    assert t[0] == sign && t[1..] == digits + rest;
    assert SignStripped(t) == digits + rest;
    LeadingDigitsOf(digits, rest);
    ParseIntOfTrimmed(s, digits);
  }

  /** Concatenation regrouped to the right. */
  lemma Regrouped<T>(a: seq<T>, b: seq<T>, c: seq<T>, d: seq<T>)
    ensures a + b + c + d == a + (b + (c + d))
  {
  }

  /** A multiple of `b` leaves no remainder. */
  lemma ModOfMultiple(b: int, k: int)
    requires b > 0
    ensures (b * k) % b == 0
  {
    var x := b * k;
    var q := x / b;
    var m := x % b;
    assert x == b * q + m;
    var n := k - q;
    assert b * n == m by {
      assert b * n == b * k - b * q;
    }
  }

  /** JavaScript's `a % b`: the remainder takes the sign of the dividend. */
  function JsRem(a: int, b: int): (r: int)
    requires b > 0
    ensures a >= 0 ==> 0 <= r < b
    ensures a < 0 ==> -b < r <= 0
    ensures a >= 0 ==> r == a % b
    ensures (a - r) % b == 0
  {
    if a >= 0 then
      var q := a / b;
      ModOfMultiple(b, q);
      assert a - a % b == b * q;
      a % b
    else
      var q := (-a) / b;
      ModOfMultiple(b, -q);
      assert a - -((-a) % b) == b * -q;
      -((-a) % b)
  }

  /** `s.split(sep)`: the pieces between separators; always at least one piece. */
  function Split(s: string, sep: char): (parts: seq<string>)
    ensures |parts| >= 1
    ensures forall i :: 0 <= i < |parts| ==> sep !in parts[i]
    decreases |s|
  {
    if s == [] then [[]]
    else
      var rest := Split(s[1..], sep);
      if s[0] == sep then [[]] + rest else [[s[0]] + rest[0]] + rest[1..]
  }

  /** `parts.join(sep)`. */
  function Join(parts: seq<string>, sep: char): string
    requires |parts| >= 1
    decreases |parts|
  {
    if |parts| == 1 then parts[0] else parts[0] + [sep] + Join(parts[1..], sep)
  }

  /** `Join` of a piece put in front of at least one piece. */
  lemma JoinCons(head: string, parts: seq<string>, sep: char)
    requires |parts| >= 1
    ensures Join([head] + parts, sep) == head + [sep] + Join(parts, sep)
  {
    assert ([head] + parts)[1..] == parts;
  }

  /** Splitting loses nothing: joining the pieces gives back the string. */
  lemma {:induction false} SplitThenJoin(s: string, sep: char)
    ensures Join(Split(s, sep), sep) == s
    decreases |s|
  {
    if s != [] {
      var tail := s[1..];
      var rest := Split(tail, sep);
      SplitThenJoin(tail, sep);
      assert s == [s[0]] + tail;
      if s[0] == sep {
        JoinCons([], rest, sep);
      } else if |rest| == 1 {
        assert Split(s, sep) == [[s[0]] + rest[0]];
      } else {
        JoinCons([s[0]] + rest[0], rest[1..], sep);
        JoinCons(rest[0], rest[1..], sep);
        assert rest == [rest[0]] + rest[1..];
      }
    }
  }

  /** A string without the separator is a single piece. */
  lemma {:induction false} SplitWithoutSeparator(a: string, sep: char)
    requires sep !in a
    ensures Split(a, sep) == [a]
    decreases |a|
  {
    if a != [] {
      SplitWithoutSeparator(a[1..], sep);
      assert [a[0]] + a[1..] == a;
    }
  }

  /** The first piece ends at the first separator. */
  lemma {:induction false} SplitAtSeparator(a: string, b: string, sep: char)
    requires sep !in a
    ensures Split(a + [sep] + b, sep) == [a] + Split(b, sep)
    decreases |a|
  {
    if a == [] {
      assert a + [sep] + b == [sep] + b;
      assert ([sep] + b)[1..] == b;
    } else {
      assert (a + [sep] + b)[1..] == a[1..] + [sep] + b;
      SplitAtSeparator(a[1..], b, sep);
      assert [a[0]] + a[1..] == a;
    }
  }
}
