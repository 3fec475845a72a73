/** The few pieces of ECMAScript's built-in behaviour that the authentication core relies on:
    what counts as a line terminator (for `.` in a regular expression), what `parseInt` skips
    and reads, and how an integer prints as a string. Characters are one code unit each;
    surrogate pairs are not modelled. */
module JsRuntime {
  import opened Wrappers

  /** LineTerminator: the characters `.` refuses in a regular expression without the `s` flag. */
  predicate IsLineTerminator(c: char) {
    c == '\n' || c == '\r' || c == '\U{2028}' || c == '\U{2029}'
  }

  predicate NoLineTerminator(s: string) {
    forall i :: 0 <= i < |s| ==> !IsLineTerminator(s[i])
  }

  /** StrWhiteSpaceChar: what `parseInt` skips before the number (white space, the
      Zs space separators, the byte-order mark and the line terminators). */
  predicate IsWhiteSpace(c: char) {
    || c == '\t' || c == '\U{000B}' || c == '\U{000C}' || c == ' '
    || c == '\U{00A0}' || c == '\U{1680}' || ('\U{2000}' <= c <= '\U{200A}')
    || c == '\U{202F}' || c == '\U{205F}' || c == '\U{3000}' || c == '\U{FEFF}'
    || IsLineTerminator(c)
  }

  /** Drops the leading white space, as the first step of `parseInt`. */
  function TrimStart(s: string): (t: string)
    ensures |t| <= |s| && t == s[|s| - |t|..]
    ensures forall i :: 0 <= i < |s| - |t| ==> IsWhiteSpace(s[i])
    ensures t == [] || !IsWhiteSpace(t[0])
  {
    if |s| > 0 && IsWhiteSpace(s[0]) then TrimStart(s[1..]) else s
  }

  datatype Radix = Decimal | Hex {
    function Base(): nat {
      match this
      case Decimal => 10
      case Hex => 16
    }
  }

  predicate IsDecimalDigit(c: char) {
    '0' <= c <= '9'
  }

  predicate IsDigit(c: char, radix: Radix) {
    match radix
    case Decimal => IsDecimalDigit(c)
    case Hex => IsDecimalDigit(c) || ('a' <= c <= 'f') || ('A' <= c <= 'F')
  }

  function DigitValue(c: char, radix: Radix): (v: nat)
    requires IsDigit(c, radix)
    ensures v < radix.Base()
  {
    if IsDecimalDigit(c) then (c - '0') as nat
    else if 'a' <= c <= 'f' then (c - 'a') as nat + 10
    else (c - 'A') as nat + 10
  }

  /** The longest prefix of `s` made of digits of the radix. */
  function LeadingDigits(s: string, radix: Radix): (d: string)
    ensures d <= s
    ensures forall i :: 0 <= i < |d| ==> IsDigit(d[i], radix)
    ensures |d| == |s| || !IsDigit(s[|d|], radix)
  {
    if |s| > 0 && IsDigit(s[0], radix) then [s[0]] + LeadingDigits(s[1..], radix) else []
  }

  /** The value of a digit string, most significant digit first. */
  function DigitsValue(d: string, radix: Radix): nat
    requires forall i :: 0 <= i < |d| ==> IsDigit(d[i], radix)
  {
    if |d| == 0 then 0
    else DigitsValue(d[..|d| - 1], radix) * radix.Base() + DigitValue(d[|d| - 1], radix)
  }

  /** `parseInt(s)` with no radix argument: skip white space, read an optional sign, switch to
      base 16 after a `0x`/`0X` prefix, read the longest run of digits and ignore the rest.
      `None` is `NaN` (no digit at all). Results beyond 2^53 are exact here, rounded in JavaScript. */
  function ParseInt(s: string): (r: Option<int>)
    ensures |s| == 0 ==> r.None?
    ensures |s| > 0 && IsDecimalDigit(s[0]) && s[0] != '0' ==> r.Some? && r.value >= 0
  {
    ParseSigned(TrimStart(s))
  }

  /** Text made only of white space reads as `NaN`. */
  lemma ParseIntOfBlank(s: string)
    requires forall i :: 0 <= i < |s| ==> IsWhiteSpace(s[i])
    ensures ParseInt(s).None?
  {
    assert TrimStart(s) == [];
  }

  /** Text whose first character after the white space is neither a digit nor a sign reads as
      `NaN`. */
  lemma ParseIntNonNumericStart(s: string)
    requires var t := TrimStart(s); |t| > 0 && !IsDecimalDigit(t[0]) && t[0] != '-' && t[0] != '+'
    ensures ParseInt(s).None?
  {
  }

  /** A negative result needs a `-` as the first character after the white space. */
  lemma ParseIntNegativeNeedsMinus(s: string)
    ensures ParseInt(s).Some? && ParseInt(s).value < 0 ==> var t := TrimStart(s); |t| > 0 && t[0] == '-'
  {
  }

  /** The sign step of `parseInt`, on text that no longer starts with white space. */
  function ParseSigned(t: string): (r: Option<int>)
    ensures |t| == 0 ==> r.None?
    ensures |t| > 0 && !IsDecimalDigit(t[0]) && t[0] != '-' && t[0] != '+' ==> r.None?
    ensures r.Some? && r.value < 0 ==> |t| > 0 && t[0] == '-'
    ensures |t| > 0 && IsDecimalDigit(t[0]) && t[0] != '0' ==> r.Some? && r.value >= 0
  {
    if |t| > 0 && t[0] == '-' then
      match ParseUnsigned(t[1..])
      case None => None
      case Some(v) => Some(0 - v)
    else if |t| > 0 && t[0] == '+' then ParseUnsigned(t[1..])
    else ParseUnsigned(t)
  }

  /** `parseInt` ignores any white space in front of the number. */
  lemma ParseIntSkipsWhiteSpace(w: string, s: string)
    requires forall i :: 0 <= i < |w| ==> IsWhiteSpace(w[i])
    ensures ParseInt(w + s) == ParseInt(s)
  {
    TrimStartSkips(w, s);
  }

  lemma {:induction false} TrimStartSkips(w: string, s: string)
    requires forall i :: 0 <= i < |w| ==> IsWhiteSpace(w[i])
    ensures TrimStart(w + s) == TrimStart(s)
  {
    if |w| > 0 {
      assert (w + s)[0] == w[0] && (w + s)[1..] == w[1..] + s;
      TrimStartSkips(w[1..], s);
    } else {
      assert w + s == s;
    }
  }

  /** The unsigned part of `parseInt`: the radix prefix and the digits. */
  function ParseUnsigned(u: string): (r: Option<int>)
    ensures r.Some? ==> r.value >= 0
    ensures |u| == 0 || !IsDecimalDigit(u[0]) ==> r.None?
    ensures |u| > 0 && IsDecimalDigit(u[0]) && u[0] != '0' ==> r.Some?
  {
    var hex := |u| >= 2 && u[0] == '0' && (u[1] == 'x' || u[1] == 'X');
    var radix := if hex then Hex else Decimal;
    var digits := LeadingDigits(if hex then u[2..] else u, radix);
    if |digits| == 0 then None else Some(DigitsValue(digits, radix))
  }

  /** The decimal digits of a natural number, without leading zeros. */
  function NatToString(n: nat): (s: string)
    ensures |s| > 0
    ensures forall i :: 0 <= i < |s| ==> IsDecimalDigit(s[i])
    ensures s[0] == '0' ==> n == 0
  {
    if n < 10 then ['0' + n as char]
    else NatToString(n / 10) + ['0' + (n % 10) as char]
  }

  /** `String(n)` for an integer `n` (what a JSON number turns into before `parseInt` reads it). */
  function IntToString(n: int): string {
    if n < 0 then "-" + NatToString(-n) else NatToString(n)
  }

  lemma {:induction false} NatToStringValue(n: nat)
    ensures DigitsValue(NatToString(n), Decimal) == n
    decreases n
  {
    if n >= 10 {
      NatToStringValue(n / 10);
      var s := NatToString(n);
      assert s[..|s| - 1] == NatToString(n / 10);
    }
  }

  lemma {:induction false} LeadingDigitsOfDigitsThenStop(d: string, rest: string, radix: Radix)
    requires forall i :: 0 <= i < |d| ==> IsDigit(d[i], radix)
    requires rest == [] || !IsDigit(rest[0], radix)
    ensures LeadingDigits(d + rest, radix) == d
    decreases |d|
  {
    if |d| > 0 {
      assert (d + rest)[1..] == d[1..] + rest;
      LeadingDigitsOfDigitsThenStop(d[1..], rest, radix);
    } else {
      assert d + rest == rest;
    }
  }

  lemma ParseUnsignedReadsPrintedNat(m: nat, rest: string)
    requires rest == [] || (!IsDecimalDigit(rest[0]) && rest[0] != 'x' && rest[0] != 'X')
    ensures ParseUnsigned(NatToString(m) + rest) == Some(m)
  {
    var digits := NatToString(m);
    var u := digits + rest;
    NatToStringValue(m);
    LeadingDigitsOfDigitsThenStop(digits, rest, Decimal);
    if |u| >= 2 && u[0] == '0' {
      assert |digits| == 1;
      assert u[1] == rest[0];
    }
  }

  /** `parseInt` reads back the integer that `String` printed, whatever non-digit text follows
      (a `.5` fraction, a unit, trailing spaces); an `x` right after a lone `0` would switch to
      base 16, so it is excluded. */
  lemma ParseIntReadsPrintedInt(n: int, rest: string)
    requires rest == [] || (!IsDecimalDigit(rest[0]) && rest[0] != 'x' && rest[0] != 'X')
    ensures ParseInt(IntToString(n) + rest) == Some(n)
  {
    if n < 0 {
      ParseIntReadsNegative(n, rest);
    } else {
      ParseIntReadsNonNegative(n, rest);
    }
  }

  /** `parseInt(String(n)) == n`: the code a user types back is the code that was printed. */
  lemma ParseIntReadsItsPrint(n: int)
    ensures ParseInt(IntToString(n)) == Some(n)
  {
    ParseIntReadsPrintedInt(n, "");
    assert IntToString(n) + "" == IntToString(n);
  }

  lemma NotWhiteSpaceStart(t: string)
    requires |t| > 0 && (IsDecimalDigit(t[0]) || t[0] == '-')
    ensures TrimStart(t) == t
  {
    assert !IsWhiteSpace(t[0]);
  }

  lemma ParseIntReadsNonNegative(n: int, rest: string)
    requires n >= 0
    requires rest == [] || (!IsDecimalDigit(rest[0]) && rest[0] != 'x' && rest[0] != 'X')
    ensures ParseInt(IntToString(n) + rest) == Some(n)
  {
    var u := NatToString(n) + rest;
    assert IntToString(n) + rest == u;
    assert u[0] == NatToString(n)[0];
    ParseIntOfDigitText(u);
    ParseUnsignedReadsPrintedNat(n, rest);
  }

  lemma ParseIntReadsNegative(n: int, rest: string)
    requires n < 0
    requires rest == [] || (!IsDecimalDigit(rest[0]) && rest[0] != 'x' && rest[0] != 'X')
    ensures ParseInt(IntToString(n) + rest) == Some(n)
  {
    var u := NatToString(-n) + rest;
    assert IntToString(n) == "-" + NatToString(-n);
    assert ("-" + NatToString(-n)) + rest == "-" + u;
    ParseUnsignedReadsPrintedNat(-n, rest);
    assert ParseUnsigned(u) == Some(-n);
    ParseIntOfMinusText(u);
    assert ParseInt("-" + u) == Some(n);
  }

  /** Text starting with a digit is read by the unsigned step directly. */
  lemma ParseIntOfDigitText(u: string)
    requires |u| > 0 && IsDecimalDigit(u[0])
    ensures ParseInt(u) == ParseUnsigned(u)
  {
    NotWhiteSpaceStart(u);
  }

  /** Text starting with `-` is the negation of what the unsigned step reads after it. */
  lemma ParseIntOfMinusText(u: string)
    ensures ParseUnsigned(u).Some? ==> ParseInt("-" + u) == Some(0 - ParseUnsigned(u).value)
  {
    var t := "-" + u;
    assert t[0] == '-' && t[1..] == u;
    NotWhiteSpaceStart(t);
  }
}
