/**
 * Text helpers the form engine relies on: the invariant-culture subset of .NET's
 * numeric parsing (`int.TryParse`, `double.TryParse`, `bool.Parse`), integer
 * formatting (`int.ToString()`), `string.Split(char)`, `TrimStart(char)` and
 * `StartsWith`.
 */
module Text {
  import opened Wrappers

  /** The characters .NET's number styles accept as leading or trailing white space. */
  predicate IsWhite(c: char) {
    c == ' ' || '\t' <= c <= '\r'
  }

  predicate IsDigit(c: char) {
    '0' <= c <= '9'
  }

  predicate AllDigits(s: string) {
    forall i :: 0 <= i < |s| ==> IsDigit(s[i])
  }

  function Digit(d: nat): (c: char)
    requires d < 10
    ensures IsDigit(c) && c as int - '0' as int == d
  {
    (d + '0' as int) as char
  }

  /**
   * `Char.IsWhiteSpace`: the Unicode space, line and paragraph separators, the
   * controls '\t' to '\r', and U+0085.
   */
  predicate IsSpace(c: char) {
    IsWhite(c) || c == '\U{0085}' || c == '\U{00A0}' || c == '\U{1680}'
    || ('\U{2000}' <= c <= '\U{200A}') || c == '\U{2028}' || c == '\U{2029}'
    || c == '\U{202F}' || c == '\U{205F}' || c == '\U{3000}'
  }

  /** What `bool.Parse` trims: every `Char.IsWhiteSpace` character and '\0'. */
  predicate IsSpaceOrNull(c: char) {
    IsSpace(c) || c == '\0'
  }

  /** The text without its leading characters of class `w`. */
  function TrimStartBy(s: string, w: char -> bool): (r: string)
    ensures EndsWith(s, r)
    ensures r == [] || !w(r[0])
  {
    if |s| > 0 && w(s[0]) then
      var r := TrimStartBy(s[1..], w);
      assert s[|s| - |r|..] == s[1..][|s| - 1 - |r|..];
      r
    else s
  }

  /** The text without its trailing characters of class `w`. */
  function TrimEndBy(s: string, w: char -> bool): (r: string)
    ensures StartsWith(s, r)
    ensures r == [] || !w(r[|r| - 1])
  {
    if |s| > 0 && w(s[|s| - 1]) then
      var r := TrimEndBy(s[..|s| - 1], w);
      assert s[..|r|] == s[..|s| - 1][..|r|];
      r
    else s
  }

  /** Both ends trimmed of the characters of class `w`. */
  function TrimBy(s: string, w: char -> bool): string {
    TrimEndBy(TrimStartBy(s, w), w)
  }

  /** Text that neither starts nor ends with a character of class `w` is its own trim. */
  lemma NoTrimBy(s: string, w: char -> bool)
    requires s == [] || (!w(s[0]) && !w(s[|s| - 1]))
    ensures TrimBy(s, w) == s
  {
  }

  /** Trimming the white space of the number styles. */
  function Trim(s: string): string {
    TrimBy(s, IsWhite)
  }

  /** The value of a string of decimal digits, most significant first. */
  function DigitsValue(s: string): nat
    requires AllDigits(s)
  {
    if s == [] then 0
    else DigitsValue(s[..|s| - 1]) * 10 + (s[|s| - 1] as int - '0' as int)
  }

  /** `n.ToString()` for a non-negative integer. */
  function NatToString(n: nat): (s: string)
    ensures |s| >= 1 && AllDigits(s)
  {
    if n < 10 then [Digit(n)] else NatToString(n / 10) + [Digit(n % 10)]
  }

  /** `n.ToString()` for any integer: a minus sign, then the digits of the magnitude. */
  function IntToString(n: int): (s: string)
    ensures |s| >= 1
    ensures n >= 0 ==> AllDigits(s)
    ensures n < 0 ==> s[0] == '-' && |s| >= 2 && AllDigits(s[1..])
  {
    if n < 0 then "-" + NatToString(-n) else NatToString(n)
  }

  lemma {:induction false} NatToStringValue(n: nat)
    ensures DigitsValue(NatToString(n)) == n
  {
    if n >= 10 {
      NatToStringValue(n / 10);
      var s := NatToString(n);
      assert s[..|s| - 1] == NatToString(n / 10);
    }
  }

  /**
   * `int.TryParse(s, NumberStyles.Integer, ...)` without the range check:
   * optional white space, an optional sign, at least one digit, optional white space.
   */
  function ParseInteger(s: string): (r: Option<int>)
    ensures r.Some? ==> |Trim(s)| >= 1 && !IsWhite(Trim(s)[0])
    ensures |Trim(s)| >= 1 && AllDigits(Trim(s)) ==> r == Some(DigitsValue(Trim(s)))
    ensures r.Some? && r.value < 0 ==> Trim(s)[0] == '-'
    ensures (exists i :: 0 <= i < |Trim(s)| && Trim(s)[i] == '.') ==> r.None?
  {
    ParseSigned(Trim(s))
  }

  /** The integer spelled by text that carries no surrounding white space. */
  function ParseSigned(t: string): (r: Option<int>)
    ensures r.Some? ==> |t| >= 1
    ensures r.Some? && r.value < 0 ==> t[0] == '-'
  {
    if |t| == 0 then None
    else if t[0] == '-' || t[0] == '+' then
      var d := t[1..];
      var v: int := if |d| > 0 && AllDigits(d) then DigitsValue(d) else 0;
      if |d| > 0 && AllDigits(d) then Some(if t[0] == '-' then -v else v)
      else None
    else if AllDigits(t) then Some(DigitsValue(t))
    else None
  }

  lemma NoWhiteTrim(s: string)
    requires s == [] || (!IsWhite(s[0]) && !IsWhite(s[|s| - 1]))
    ensures Trim(s) == s
  {
    NoTrimBy(s, IsWhite);
  }

  lemma DigitsParse(d: string)
    requires |d| >= 1 && AllDigits(d)
    ensures ParseInteger(d) == Some(DigitsValue(d) as int)
  {
    assert IsDigit(d[0]) && IsDigit(d[|d| - 1]);
    NoWhiteTrim(d);
  }

  lemma NegativeDigitsParseSigned(d: string)
    requires |d| >= 1 && AllDigits(d)
    ensures ParseSigned("-" + d) == Some(-(DigitsValue(d) as int))
  {
    var s := "-" + d;
    assert s[1..] == d;
  }

  lemma NegativeDigitsParse(d: string)
    requires |d| >= 1 && AllDigits(d)
    ensures ParseInteger("-" + d) == Some(-(DigitsValue(d) as int))
  {
    var s := "-" + d;
    assert s[|s| - 1] == d[|d| - 1];
    NoWhiteTrim(s);
    NegativeDigitsParseSigned(d);
  }

  /** Formatting an integer and parsing it back gives the integer. */
  lemma ParseIntegerOfIntToString(n: int)
    ensures ParseInteger(IntToString(n)) == Some(n)
  {
    var m: nat := if n < 0 then -n else n;
    var d := NatToString(m);
    NatToStringValue(m);
    if n < 0 {
      NegativeDigitsParse(d);
      assert IntToString(n) == "-" + d;
    } else {
      DigitsParse(d);
      assert IntToString(n) == d;
    }
  }

  const Int32Min: int := -0x8000_0000
  const Int32Max: int := 0x7FFF_FFFF

  /** `int.TryParse(s, NumberStyles.Integer, ...)`: fails on text outside the 32-bit range. */
  function ParseInt32(s: string): (r: Option<int>)
    ensures r.Some? ==> Int32Min <= r.value <= Int32Max
    ensures r.Some? ==> ParseInteger(s) == r
    ensures ParseInteger(s).Some? && Int32Min <= ParseInteger(s).value <= Int32Max ==> r == ParseInteger(s)
  {
    match ParseInteger(s)
    case Some(n) => if Int32Min <= n <= Int32Max then Some(n) else None
    case None => None
  }

  function Pow10(k: nat): (p: nat)
    ensures p >= 1
  {
    if k == 0 then 1 else 10 * Pow10(k - 1)
  }

  function IndexOf(s: string, c: char): (r: Option<nat>)
    ensures r.Some? ==> r.value < |s| && s[r.value] == c && c !in s[..r.value]
    ensures r.None? ==> c !in s
  {
    if s == [] then None
    else if s[0] == c then Some(0)
    else match IndexOf(s[1..], c)
      case Some(k) => assert s[1..][..k] == s[1..k + 1]; Some(k + 1)
      case None => None
  }

  /** The value of `ip.fp`: the integral digits plus the fractional digits over ten to their count. */
  function DecimalValue(ip: string, fp: string): (x: real)
    requires AllDigits(ip) && AllDigits(fp)
    ensures x >= 0.0
  {
    DigitsValue(ip) as real + DigitsValue(fp) as real / Pow10(|fp|) as real
  }

  /** The unsigned part of a decimal number: digits, optionally a point and more digits. */
  function ParseUnsignedDecimal(b: string): (r: Option<real>)
    ensures r.Some? ==> r.value >= 0.0
  {
    match IndexOf(b, '.')
    case None =>
      if |b| > 0 && AllDigits(b) then Some(DigitsValue(b) as real) else None
    case Some(k) =>
      var ip, fp := b[..k], b[k + 1..];
      if |ip| + |fp| > 0 && AllDigits(ip) && AllDigits(fp)
      then Some(DecimalValue(ip, fp))
      else None
  }

  /**
   * `double.TryParse(s, NumberStyles.Float, ...)` in plain decimal notation:
   * optional white space, an optional sign, digits with at most one decimal point
   * (at least one digit in all), optional white space.
   */
  function ParseDecimal(s: string): (r: Option<real>)
    ensures r.Some? ==> |Trim(s)| >= 1
    ensures r.Some? && r.value < 0.0 ==> Trim(s)[0] == '-'
    ensures |Trim(s)| >= 1 && AllDigits(Trim(s)) ==> r == Some(DigitsValue(Trim(s)) as real)
  {
    ParseSignedDecimal(Trim(s))
  }

  /** The decimal number spelled by text that carries no surrounding white space. */
  function ParseSignedDecimal(t: string): (r: Option<real>)
    ensures r.Some? ==> |t| >= 1
    ensures r.Some? && r.value < 0.0 ==> t[0] == '-'
    ensures |t| >= 1 && AllDigits(t) ==> r == Some(DigitsValue(t) as real)
  {
    if |t| > 0 && (t[0] == '-' || t[0] == '+') then
      match ParseUnsignedDecimal(t[1..])
      case Some(x) => Some(if t[0] == '-' then -x else x)
      case None => None
    else ParseUnsignedDecimal(t)
  }

  /** In digits followed by a point, the first point is the one after the digits. */
  lemma {:induction false} PointAfterDigits(ip: string, rest: string)
    requires AllDigits(ip)
    ensures IndexOf(ip + "." + rest, '.') == Some(|ip|)
  {
    if ip != [] {
      assert (ip + "." + rest)[1..] == ip[1..] + "." + rest;
      PointAfterDigits(ip[1..], rest);
    }
  }

  /** The unsigned part with a decimal point denotes `DecimalValue` of its two digit strings. */
  lemma UnsignedFraction(ip: string, fp: string)
    requires AllDigits(ip) && AllDigits(fp) && |ip| + |fp| > 0
    ensures ParseUnsignedDecimal(ip + "." + fp) == Some(DecimalValue(ip, fp))
  {
    var b := ip + "." + fp;
    PointAfterDigits(ip, fp);
    assert b[..|ip|] == ip;
    assert b[|ip| + 1..] == fp;
  }

  /**
   * A number with a decimal point: an optional sign, the integral digits, the
   * point and the fractional digits (at least one digit in all) denote
   * `DecimalValue` of the digits, negated after a minus sign.
   */
  lemma ParseDecimalFraction(s: string, sign: string, ip: string, fp: string)
    requires sign == "" || sign == "-" || sign == "+"
    requires Trim(s) == sign + ip + "." + fp
    requires AllDigits(ip) && AllDigits(fp) && |ip| + |fp| > 0
    ensures ParseDecimal(s) == Some(if sign == "-" then -DecimalValue(ip, fp) else DecimalValue(ip, fp))
  {
    SignedFraction(Trim(s), sign, ip, fp);
  }

  /** `ParseDecimalFraction` on text already trimmed. */
  lemma SignedFraction(t: string, sign: string, ip: string, fp: string)
    requires sign == "" || sign == "-" || sign == "+"
    requires t == sign + ip + "." + fp
    requires AllDigits(ip) && AllDigits(fp) && |ip| + |fp| > 0
    ensures ParseSignedDecimal(t) == Some(if sign == "-" then -DecimalValue(ip, fp) else DecimalValue(ip, fp))
  {
    UnsignedFraction(ip, fp);
    if sign == "" {
      UnsignedStart(t, ip, fp);
    } else {
      assert t[0] == sign[0];
      assert t[1..] == ip + "." + fp;
    }
  }

  /** Text of digits and a point starts with neither sign. */
  lemma UnsignedStart(t: string, ip: string, fp: string)
    requires t == ip + "." + fp && AllDigits(ip)
    ensures t[0] != '-' && t[0] != '+'
  {
    if |ip| > 0 {
      assert t[0] == ip[0];
    }
  }

  /** Every text `int.TryParse` accepts, `double.TryParse` accepts with the same value. */
  lemma ParseDecimalExtendsParseInteger(s: string)
    requires ParseInteger(s).Some?
    ensures ParseDecimal(s) == Some(ParseInteger(s).value as real)
  {
    var t := Trim(s);
    assert ParseSigned(t).Some?;
    if t[0] == '-' || t[0] == '+' {
      assert IndexOf(t[1..], '.').None?;
    } else {
      assert IndexOf(t, '.').None?;
    }
  }

  function Upper(c: char): char {
    if 'a' <= c <= 'z' then (c as int - 32) as char else c
  }

  predicate EqualsIgnoreCase(a: string, b: string) {
    |a| == |b| && forall i :: 0 <= i < |a| ==> Upper(a[i]) == Upper(b[i])
  }

  /**
   * `bool.Parse`: "True" or "False" in any letter case, surrounded by optional
   * white space (any `Char.IsWhiteSpace` character) and '\0' characters.
   */
  function ParseBool(s: string): (r: Option<bool>)
    ensures r == Some(true) <==> EqualsIgnoreCase(TrimBy(s, IsSpaceOrNull), "True")
    ensures r == Some(false) <==> EqualsIgnoreCase(TrimBy(s, IsSpaceOrNull), "False")
  {
    var t := TrimBy(s, IsSpaceOrNull);
    if EqualsIgnoreCase(t, "True") then Some(true)
    else if EqualsIgnoreCase(t, "False") then
      assert !EqualsIgnoreCase(t, "True") by { assert Upper(t[0]) == 'F'; }
      Some(false)
    else None
  }

  function Occurrences(s: string, c: char): nat {
    if s == [] then 0 else (if s[0] == c then 1 else 0) + Occurrences(s[1..], c)
  }

  /** `s.Split(sep)`: the pieces between the separators, empty pieces included. */
  function Split(s: string, sep: char): (parts: seq<string>)
    ensures |parts| >= 1
  {
    if s == [] then [""]
    else if s[0] == sep then [""] + Split(s[1..], sep)
    else
      var rest := Split(s[1..], sep);
      [[s[0]] + rest[0]] + rest[1..]
  }

  function Join(parts: seq<string>, sep: char): string
    requires |parts| >= 1
  {
    if |parts| == 1 then parts[0] else parts[0] + [sep] + Join(parts[1..], sep)
  }

  /** Joining the pieces of a split with the separator gives back the text. */
  lemma {:induction false} SplitJoin(s: string, sep: char)
    ensures Join(Split(s, sep), sep) == s
  {
    if s != [] {
      SplitJoin(s[1..], sep);
      var rest := Split(s[1..], sep);
      if s[0] != sep && |rest| > 1 {
        assert Split(s, sep)[1..] == rest[1..];
      }
    }
  }

  /** There is exactly one more piece than there are separators, and no piece holds one. */
  lemma {:induction false} SplitShape(s: string, sep: char)
    ensures |Split(s, sep)| == Occurrences(s, sep) + 1
    ensures forall k :: 0 <= k < |Split(s, sep)| ==> sep !in Split(s, sep)[k]
  {
    if s != [] {
      SplitShape(s[1..], sep);
      var rest := Split(s[1..], sep);
      var parts := Split(s, sep);
      if s[0] != sep {
        forall k | 0 <= k < |parts| ensures sep !in parts[k] {
          if k > 0 { assert parts[k] == rest[k]; }
        }
      } else {
        forall k | 0 <= k < |parts| ensures sep !in parts[k] {
          if k > 0 { assert parts[k] == rest[k - 1]; }
        }
      }
    }
  }

  /** Text without the separator splits into itself alone. */
  lemma {:induction false} SplitNoSeparator(s: string, sep: char)
    requires sep !in s
    ensures Split(s, sep) == [s]
  {
    if s != [] {
      SplitNoSeparator(s[1..], sep);
      assert [s[0]] + s[1..] == s;
    }
  }

  /** Text with one separator splits into the piece before it and the piece after it. */
  lemma {:induction false} SplitAround(a: string, sep: char, b: string)
    requires sep !in a && sep !in b
    ensures Split(a + [sep] + b, sep) == [a, b]
  {
    var s := a + [sep] + b;
    if a == [] {
      assert s == [sep] + b;
      assert s[1..] == b;
      SplitNoSeparator(b, sep);
    } else {
      assert s[1..] == a[1..] + [sep] + b;
      SplitAround(a[1..], sep, b);
      assert [s[0]] + a[1..] == a;
    }
  }

  predicate StartsWith(s: string, prefix: string) {
    |prefix| <= |s| && s[..|prefix|] == prefix
  }

  predicate EndsWith(s: string, suffix: string) {
    |suffix| <= |s| && s[|s| - |suffix|..] == suffix
  }

  /** `s.TrimStart(c)`: every leading `c` removed. */
  function TrimStartChar(s: string, c: char): (r: string)
    ensures |r| <= |s| && r == s[|s| - |r|..]
    ensures r == [] || r[0] != c
    ensures forall i :: 0 <= i < |s| - |r| ==> s[i] == c
  {
    if |s| > 0 && s[0] == c then TrimStartChar(s[1..], c) else s
  }
}
