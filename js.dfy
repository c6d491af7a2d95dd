/**
 * The slice of JavaScript semantics that the portal's decision logic depends on:
 * truthiness, JSON scalars, `String.prototype.trim`, `startsWith`, `endsWith`,
 * `includes`, `replace` with a string pattern, `toLowerCase`, integer `toString`
 * and the global `parseInt` called without a radix.
 */
module Js {
  import opened Wrappers

  /** A JavaScript number as far as this model needs one: `NaN` or an integral value. */
  datatype JsNumber = NaN | Int(value: int)

  /** `!!n` for a number: `NaN` and `0` are falsy, every other value is truthy. */
  predicate NumberTruthy(n: JsNumber) {
    n.Int? && n.value != 0
  }

  /** `!!s` for a string that may be `null` or `undefined`: those and `""` are falsy. */
  predicate Truthy(s: Option<string>) {
    s.Some? && s.value != ""
  }

  /** A scalar JSON value as it arrives in a request body. */
  datatype JsonValue = JNull | JBool(b: bool) | JNumber(n: int) | JString(s: string)

  /** `!!v` for a JSON scalar. */
  predicate JsonTruthy(v: JsonValue) {
    match v
    case JNull => false
    case JBool(b) => b
    case JNumber(n) => n != 0
    case JString(s) => s != ""
  }

  /** `String(v)`, the conversion `parseInt` applies to its argument first. */
  function JsonToString(v: JsonValue): string {
    match v
    case JNull => "null"
    case JBool(b) => if b then "true" else "false"
    case JNumber(n) => IntToString(n)
    case JString(s) => s
  }

  // ---------------------------------------------------------------------------
  // Whitespace and trimming
  // ---------------------------------------------------------------------------

  /**
   * ECMAScript WhiteSpace and LineTerminator code points: what `\s` matches in a
   * regular expression and what `trim` removes.
   */
  predicate IsWhitespace(c: char) {
    || c == '\t' || c == '\n' || c == '\U{000B}' || c == '\U{000C}' || c == '\r'
    || c == ' ' || c == '\U{00A0}' || c == '\U{1680}'
    || ('\U{2000}' <= c <= '\U{200A}')
    || c == '\U{2028}' || c == '\U{2029}' || c == '\U{202F}' || c == '\U{205F}'
    || c == '\U{3000}' || c == '\U{FEFF}'
  }

  /** True when every character of `s` is whitespace (so also for `""`). */
  predicate IsBlank(s: string) {
    forall k :: 0 <= k < |s| ==> IsWhitespace(s[k])
  }

  /** `s.trimStart()`. */
  function TrimStart(s: string): string {
    if s == [] || !IsWhitespace(s[0]) then s else TrimStart(s[1..])
  }

  /** `s.trimEnd()`. */
  function TrimEnd(s: string): string {
    if s == [] || !IsWhitespace(s[|s| - 1]) then s else TrimEnd(s[..|s| - 1])
  }

  /** `s.trim()`. */
  function Trim(s: string): string {
    TrimEnd(TrimStart(s))
  }

  /** `trimStart` drops a blank prefix and leaves a suffix that does not start with whitespace. */
  lemma {:induction false} TrimStartShape(s: string)
    ensures var r := TrimStart(s);
      && |r| <= |s| && r == s[|s| - |r|..]
      && IsBlank(s[..|s| - |r|])
      && (r == [] || !IsWhitespace(r[0]))
  {
    if s != [] && IsWhitespace(s[0]) {
      var t := s[1..];
      TrimStartShape(t);
      var r := TrimStart(t);
      var n := |s| - |r|;
      assert t[n - 1..] == s[n..];
      forall k | 0 <= k < n
        ensures IsWhitespace(s[..n][k])
      {
        if k > 0 {
          assert s[..n][k] == t[..n - 1][k - 1];
        }
      }
    }
  }

  /** `trimEnd` drops a blank suffix and leaves a prefix that does not end with whitespace. */
  lemma {:induction false} TrimEndShape(s: string)
    ensures var r := TrimEnd(s);
      && |r| <= |s| && r == s[..|r|]
      && IsBlank(s[|r|..])
      && (r == [] || !IsWhitespace(r[|r| - 1]))
  {
    if s != [] && IsWhitespace(s[|s| - 1]) {
      var t := s[..|s| - 1];
      TrimEndShape(t);
      var r := TrimEnd(t);
      assert t[..|r|] == s[..|r|];
      assert forall k | |r| <= k < |s| - 1 :: s[k] == t[k];
    }
  }

  /** `s.trim()` is empty exactly when `s` is blank; otherwise it starts and ends with a non-blank. */
  lemma TrimBlank(s: string)
    ensures Trim(s) == "" <==> IsBlank(s)
    ensures Trim(s) != "" ==> !IsWhitespace(Trim(s)[0]) && !IsWhitespace(Trim(s)[|Trim(s)| - 1])
  {
    var t := TrimStart(s);
    var d := |s| - |t|;
    TrimStartShape(s);
    TrimEndShape(t);
    if t == [] {
      assert s[..d] == s;
    } else {
      assert s[d] == t[0] && !IsWhitespace(t[0]);
      var r := TrimEnd(t);
      assert IsBlank(t[|r|..]);
      assert |r| > 0 by {
        assert t[0..] == t;
      }
      assert r[0] == t[0];
    }
  }

  /** Trimming twice is trimming once. */
  lemma TrimIdempotent(s: string)
    ensures Trim(Trim(s)) == Trim(s)
  {
    TrimBlank(s);
    var r := Trim(s);
    if r != "" {
      assert TrimStart(r) == r;
      assert TrimEnd(r) == r;
    }
  }

  // ---------------------------------------------------------------------------
  // Substrings
  // ---------------------------------------------------------------------------

  /** `s.startsWith(prefix)`. */
  predicate StartsWith(s: string, prefix: string) {
    |prefix| <= |s| && s[..|prefix|] == prefix
  }

  /** `s.endsWith(suffix)`. */
  predicate EndsWith(s: string, suffix: string) {
    |suffix| <= |s| && s[|s| - |suffix|..] == suffix
  }

  /** `s.includes(part)`. */
  predicate Includes(s: string, part: string)
    decreases |s|
  {
    StartsWith(s, part) || (s != [] && Includes(s[1..], part))
  }

  /** `s.indexOf(part)`, with `None` for -1. */
  function IndexOf(s: string, part: string): (r: Option<nat>)
    ensures r.Some? <==> Includes(s, part)
    ensures r.Some? ==> r.value + |part| <= |s| && s[r.value..r.value + |part|] == part
    ensures r.Some? ==> forall j :: 0 <= j < r.value ==> !StartsWith(s[j..], part)
    decreases |s|
  {
    if StartsWith(s, part) then Some(0)
    else if s == [] then None
    else match IndexOf(s[1..], part)
      case None => None
      case Some(i) =>
        assert forall j :: 1 <= j <= i ==> s[j..] == s[1..][j - 1..];
        Some(i + 1)
  }

  /** `s.replace(pattern, replacement)` with a string pattern: only the first occurrence is replaced. */
  function ReplaceFirst(s: string, pattern: string, replacement: string): (r: string)
    ensures !Includes(s, pattern) ==> r == s
    ensures Includes(s, pattern) ==>
      var i := IndexOf(s, pattern).value;
      r == s[..i] + replacement + s[i + |pattern|..]
  {
    match IndexOf(s, pattern)
    case None => s
    case Some(i) => s[..i] + replacement + s[i + |pattern|..]
  }

  /** `s.toLowerCase()` on the ASCII letters. */
  function ToLowerAscii(s: string): (r: string)
    ensures |r| == |s|
    ensures forall k :: 0 <= k < |s| ==> r[k] == LowerAscii(s[k])
  {
    seq(|s|, k requires 0 <= k < |s| => LowerAscii(s[k]))
  }

  function LowerAscii(c: char): char {
    if 'A' <= c <= 'Z' then (c as int - 'A' as int + 'a' as int) as char else c
  }

  // ---------------------------------------------------------------------------
  // Integers as text
  // ---------------------------------------------------------------------------

  function DigitChar(d: nat): (c: char)
    requires d < 10
    ensures '0' <= c <= '9'
  {
    ('0' as int + d) as char
  }

  /** The decimal digits of `n`, without leading zeros. */
  function NatToString(n: nat): (s: string)
    ensures |s| > 0
    ensures forall k :: 0 <= k < |s| ==> '0' <= s[k] <= '9'
    ensures (s[0] == '0') == (n == 0)
  {
    if n < 10 then [DigitChar(n)] else NatToString(n / 10) + [DigitChar(n % 10)]
  }

  /** `n.toString()` for an integral number. */
  function IntToString(n: int): (s: string)
    ensures |s| > 0
  {
    if n < 0 then "-" + NatToString(-n) else NatToString(n)
  }

  /** The value of a character as a digit of radix up to 36 (`0-9`, `a-z`, `A-Z`). */
  function DigitValue(c: char): Option<nat> {
    if '0' <= c <= '9' then Some(c as int - '0' as int)
    else if 'a' <= c <= 'z' then Some(c as int - 'a' as int + 10)
    else if 'A' <= c <= 'Z' then Some(c as int - 'A' as int + 10)
    else None
  }

  predicate IsDigitOf(c: char, radix: nat) {
    DigitValue(c).Some? && DigitValue(c).value < radix
  }

  predicate AllDigitsOf(s: string, radix: nat) {
    forall k :: 0 <= k < |s| ==> IsDigitOf(s[k], radix)
  }

  /** The longest prefix of `s` made of digits of `radix`. */
  function DigitPrefix(s: string, radix: nat): string {
    if s != [] && IsDigitOf(s[0], radix) then [s[0]] + DigitPrefix(s[1..], radix) else []
  }

  /**
   * The number a string of digits denotes in `radix`, most significant digit first
   * (only ever applied to a `DigitPrefix`, whose characters are all digits).
   */
  function DigitsValue(ds: string, radix: nat): nat {
    if ds == [] then 0
    else DigitsValue(ds[..|ds| - 1], radix) * radix + DigitValue(ds[|ds| - 1]).GetOr(0)
  }

  /**
   * The magnitude `parseInt` reads once whitespace and sign are gone: a `0x`/`0X`
   * prefix selects radix 16 (otherwise 10), and the longest run of digits that
   * follows is read; `None` when there is no digit at all.
   */
  function ParseMagnitude(u: string): Option<nat> {
    var hex := |u| >= 2 && u[0] == '0' && (u[1] == 'x' || u[1] == 'X');
    var radix := if hex then 16 else 10;
    var ds := DigitPrefix(if hex then u[2..] else u, radix);
    if ds == [] then None else Some(DigitsValue(ds, radix))
  }

  /**
   * `parseInt(s)` without a radix (ECMAScript's algorithm): leading whitespace is
   * skipped, one `+` or `-` is taken as the sign, then the magnitude is read and
   * whatever follows its digits is ignored; no digit at all gives `NaN`. Values
   * are exact here (no rounding to a double).
   */
  function ParseInt(s: string): JsNumber {
    var t := TrimStart(s);
    var negative := |t| > 0 && t[0] == '-';
    var u := if |t| > 0 && (t[0] == '-' || t[0] == '+') then t[1..] else t;
    match ParseMagnitude(u)
    case None => NaN
    case Some(v) => Int(if negative then 0 - v else v)
  }

  lemma {:induction false} DigitPrefixOfDigits(s: string, radix: nat)
    requires AllDigitsOf(s, radix)
    ensures DigitPrefix(s, radix) == s
  {
    if s != [] {
      DigitPrefixOfDigits(s[1..], radix);
    }
  }

  lemma {:induction false} NatToStringValue(n: nat)
    ensures AllDigitsOf(NatToString(n), 10)
    ensures DigitsValue(NatToString(n), 10) == n
  {
    var s := NatToString(n);
    assert AllDigitsOf(s, 10) by {
      forall k | 0 <= k < |s| ensures IsDigitOf(s[k], 10) {
        assert '0' <= s[k] <= '9';
      }
    }
    if n >= 10 {
      NatToStringValue(n / 10);
      assert s[..|s| - 1] == NatToString(n / 10);
    }
  }

  lemma MagnitudeOfNatToString(m: nat)
    ensures ParseMagnitude(NatToString(m)) == Some(m)
  {
    var digits := NatToString(m);
    NatToStringValue(m);
    DigitPrefixOfDigits(digits, 10);
    assert !(|digits| >= 2 && digits[0] == '0');
  }

  /** Once leading whitespace is gone, `parseInt` is the sign followed by the magnitude. */
  lemma ParseIntOfTrimmed(t: string)
    requires TrimStart(t) == t
    ensures |t| > 0 && t[0] == '-' ==>
      ParseInt(t) == (if ParseMagnitude(t[1..]).Some? then Int(0 - ParseMagnitude(t[1..]).value) else NaN)
    ensures |t| > 0 && '0' <= t[0] <= '9' ==>
      ParseInt(t) == (if ParseMagnitude(t).Some? then Int(ParseMagnitude(t).value) else NaN)
  {
  }

  /** `parseInt(n.toString())` gives back `n`: the id and state round trips rely on it. */
  lemma ParseIntOfIntToString(n: int)
    ensures ParseInt(IntToString(n)) == Int(n)
  {
    var m: nat := if n < 0 then -n else n;
    var digits := NatToString(m);
    MagnitudeOfNatToString(m);
    var s := IntToString(n);
    assert !IsWhitespace(s[0]);
    ParseIntOfTrimmed(s);
    if n < 0 {
      assert s[1..] == digits;
    }
  }

  /** What `parseInt` reads its magnitude from: `s` without leading whitespace and one sign. */
  function AfterSign(s: string): string {
    var t := TrimStart(s);
    if |t| > 0 && (t[0] == '-' || t[0] == '+') then t[1..] else t
  }

  lemma {:induction false} DigitPrefixStops(ds: string, rest: string, radix: nat)
    requires AllDigitsOf(ds, radix)
    requires rest == [] || !IsDigitOf(rest[0], radix)
    ensures DigitPrefix(ds + rest, radix) == ds
  {
    if ds == [] {
      assert ds + rest == rest;
    } else {
      assert (ds + rest)[1..] == ds[1..] + rest;
      DigitPrefixStops(ds[1..], rest, radix);
    }
  }

  lemma MagnitudeStops(m: nat, rest: string)
    requires rest == [] || !('0' <= rest[0] <= '9')
    requires m == 0 ==> rest == [] || (rest[0] != 'x' && rest[0] != 'X')
    ensures ParseMagnitude(NatToString(m) + rest) == Some(m)
  {
    var digits := NatToString(m);
    var u := digits + rest;
    NatToStringValue(m);
    DigitPrefixStops(digits, rest, 10);
    if |u| >= 2 && u[0] == '0' {
      assert digits[0] == '0';
      assert |digits| == 1 && u[1] == rest[0];
    }
  }

  /**
   * A number followed by anything that is not a decimal digit reads back as that
   * number: the text after the digits is ignored. The one exception is a zero
   * followed by `x` or `X`, which `parseInt` takes as a hexadecimal prefix.
   */
  lemma ParseIntReadsDigitPrefix(n: int, rest: string)
    requires rest == [] || !('0' <= rest[0] <= '9')
    requires n == 0 ==> rest == [] || (rest[0] != 'x' && rest[0] != 'X')
    ensures ParseInt(IntToString(n) + rest) == Int(n)
  {
    var m: nat := if n < 0 then -n else n;
    var u := NatToString(m) + rest;
    MagnitudeStops(m, rest);
    if n < 0 {
      var s := "-" + u;
      assert IntToString(n) + rest == s;
      assert TrimStart(s) == s;
      assert s[1..] == u;
    } else {
      assert IntToString(n) + rest == u;
      assert !IsWhitespace(u[0]);
      assert TrimStart(u) == u;
    }
  }

  /**
   * `parseInt` gives `NaN` exactly when, after whitespace and sign, the text does
   * not start with a decimal digit, or starts with a `0x`/`0X` prefix that no
   * hexadecimal digit follows.
   */
  lemma ParseIntWithoutDigits(s: string)
    ensures var u := AfterSign(s);
      ParseInt(s) == NaN <==>
        || u == [] || !('0' <= u[0] <= '9')
        || (|u| >= 2 && u[0] == '0' && (u[1] == 'x' || u[1] == 'X') && (|u| == 2 || !IsDigitOf(u[2], 16)))
  {
    var u := AfterSign(s);
    assert ParseInt(s).NaN? <==> ParseMagnitude(u).None?;
    if |u| >= 2 && u[0] == '0' && (u[1] == 'x' || u[1] == 'X') {
      assert u[2..] == [] <==> |u| == 2;
      if |u| > 2 {
        assert u[2..][0] == u[2];
      }
    }
  }
}
