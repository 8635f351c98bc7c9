/**
 * The quantity field of the add dialog: its text is turned into the amount
 * with `parseInt(value) || 1`, so NaN and zero both become 1.
 */
module QuantityInput {

  import opened Wrappers

  /** The white space and line terminators `parseInt` skips before the number. */
  predicate IsSpace(c: char) {
    c == ' ' || c == '\t' || c == '\n' || c == '\r' || c == '\U{B}' || c == '\U{C}'
    || c == '\U{A0}' || c == '\U{FEFF}' || c == '\U{2028}' || c == '\U{2029}'
  }

  /** The input with its leading white space removed. */
  function TrimStart(s: string): (r: string)
    ensures |r| <= |s|
    ensures r != [] ==> !IsSpace(r[0])
    ensures forall c :: c in s[..|s| - |r|] ==> IsSpace(c)
  {
    if s != [] && IsSpace(s[0]) then TrimStart(s[1..]) else s
  }

  /**
   * What remains after trimming is a suffix of the input. Kept out of
   * `TrimStart`'s own contract so that each unfolding does not build a new slice.
   */
  lemma {:induction false} TrimStartIsSuffix(s: string)
    ensures TrimStart(s) == s[|s| - |TrimStart(s)|..]
  {
    if s != [] && IsSpace(s[0]) {
      TrimStartIsSuffix(s[1..]);
      assert s[1..][|s| - 1 - |TrimStart(s)|..] == s[|s| - |TrimStart(s)|..];
    }
  }

  /** The value of a digit in radix 10 or 16 (either letter case), if it is one. */
  function DigitValue(c: char, radix: nat): (d: Option<nat>)
    requires radix == 10 || radix == 16
    ensures d.Some? ==> d.value < radix
  {
    if '0' <= c <= '9' then Some(c as nat - '0' as nat)
    else if radix == 16 && 'a' <= c <= 'f' then Some(c as nat - 'a' as nat + 10)
    else if radix == 16 && 'A' <= c <= 'F' then Some(c as nat - 'A' as nat + 10)
    else None
  }

  predicate IsDigit(c: char, radix: nat)
    requires radix == 10 || radix == 16
  {
    DigitValue(c, radix).Some?
  }

  /** The length of the longest prefix of `s` made of digits. */
  function DigitRun(s: string, radix: nat): (n: nat)
    requires radix == 10 || radix == 16
    ensures n <= |s|
    ensures forall i :: 0 <= i < n ==> IsDigit(s[i], radix)
    ensures n < |s| ==> !IsDigit(s[n], radix)
  {
    if s != [] && IsDigit(s[0], radix) then 1 + DigitRun(s[1..], radix) else 0
  }

  /** The value of one digit known to be valid in `radix`. */
  function Digit(c: char, radix: nat): (d: nat)
    requires radix == 10 || radix == 16
    requires IsDigit(c, radix)
    ensures d < radix
  {
    DigitValue(c, radix).value
  }

  /** The number a string of digits denotes, most significant digit first. */
  function DigitsValue(s: string, radix: nat): nat
    requires radix == 10 || radix == 16
    requires forall i :: 0 <= i < |s| ==> IsDigit(s[i], radix)
  {
    if s == [] then 0
    else DigitsValue(s[..|s| - 1], radix) * radix + Digit(s[|s| - 1], radix)
  }

  /** The text after an optional leading sign. */
  function Unsigned(t: string): (u: string)
    ensures u == t || (t != [] && u == t[1..])
  {
    if t != [] && (t[0] == '-' || t[0] == '+') then t[1..] else t
  }

  /** A `0x` or `0X` prefix, which makes `parseInt` read radix 16. */
  predicate HasHexPrefix(u: string) {
    |u| >= 2 && u[0] == '0' && (u[1] == 'x' || u[1] == 'X')
  }

  /** The magnitude read from unsigned text: the longest run of digits after the radix prefix. */
  function ParseMagnitude(u: string): Option<nat> {
    var radix := if HasHexPrefix(u) then 16 else 10;
    var digits := if HasHexPrefix(u) then u[2..] else u;
    var n := DigitRun(digits, radix);
    if n == 0 then None else Some(DigitsValue(digits[..n], radix))
  }

  /**
   * `parseInt(s)` with no radix: leading white space, an optional sign, an
   * optional `0x`/`0X` prefix that selects radix 16, then the longest run of
   * digits; None stands for NaN (no digit at all).
   */
  function ParseInt(s: string): (r: Option<int>)
    ensures TrimStart(s) == [] ==> r == None
    ensures r.Some? ==> TrimStart(s) != []
    ensures r.Some? && r.value < 0 ==> TrimStart(s)[0] == '-'
    ensures r.Some? && TrimStart(s)[0] == '-' ==> r.value <= 0
  {
    var t := TrimStart(s);
    match ParseMagnitude(Unsigned(t))
    case None => None
    case Some(m) => Some(if t != [] && t[0] == '-' then -(m as int) else m)
  }

  /**
   * The amount the quantity field holds after a change: `parseInt(v) || 1`.
   * NaN, 0 and -0 are falsy and become 1; every other parsed value is kept.
   */
  function CoerceQuantity(v: string): (q: int)
    ensures q != 0
    ensures ParseInt(v).None? ==> q == 1
    ensures ParseInt(v).Some? && ParseInt(v).value == 0 ==> q == 1
    ensures ParseInt(v).Some? && ParseInt(v).value != 0 ==> q == ParseInt(v).value
  {
    match ParseInt(v)
    case None => 1
    case Some(n) => if n == 0 then 1 else n
  }

  // ---- Decimal rendering, the inverse of parsing ----

  function DecimalDigit(d: nat): (c: char)
    requires d < 10
    ensures DigitValue(c, 10) == Some(d)
  {
    ('0' as int + d) as char
  }

  /** The decimal digits of `n`, without leading zeros. */
  function NatToString(n: nat): (s: string)
    ensures s != []
    ensures forall i :: 0 <= i < |s| ==> IsDigit(s[i], 10)
    ensures |s| >= 2 ==> s[0] != '0'
  {
    if n < 10 then [DecimalDigit(n)] else NatToString(n / 10) + [DecimalDigit(n % 10)]
  }

  /** How a number is written in the quantity field: an optional minus sign, then its digits. */
  function IntToString(n: int): string {
    if n < 0 then ['-'] + NatToString(-n) else NatToString(n)
  }

  lemma {:induction false} DigitsValueOfNatToString(n: nat)
    ensures DigitsValue(NatToString(n), 10) == n
  {
    var s := NatToString(n);
    if n >= 10 {
      DigitsValueOfNatToString(n / 10);
      assert s[..|s| - 1] == NatToString(n / 10);
    }
  }

  /** The digits of `n`, read back as unsigned text, give `n`. */
  lemma ParseMagnitudeOfDigits(n: nat)
    ensures ParseMagnitude(NatToString(n)) == Some(n)
  {
    var s := NatToString(n);
    assert !HasHexPrefix(s);
    assert DigitRun(s, 10) == |s|;
    assert s[..|s|] == s;
    DigitsValueOfNatToString(n);
  }

  /** Text that starts with a digit has no leading white space and no sign to skip. */
  lemma DigitFirstIsPlain(s: string)
    requires s != [] && IsDigit(s[0], 10)
    ensures TrimStart(s) == s && Unsigned(s) == s
  {
  }

  /** Text that starts with a minus sign has no leading white space, and the sign is skipped. */
  lemma MinusFirstIsPlain(s: string)
    requires s != [] && s[0] == '-'
    ensures TrimStart(s) == s && Unsigned(s) == s[1..]
  {
  }

  /** `parseInt` from its steps: the trimmed text and the magnitude read after the sign. */
  lemma ParseIntFromParts(s: string, t: string, m: nat)
    requires TrimStart(s) == t && ParseMagnitude(Unsigned(t)) == Some(m)
    ensures ParseInt(s) == Some(if t != [] && t[0] == '-' then -(m as int) else m)
  {
  }

  /** The digits of a non-negative `n` have no leading space and no sign, so `parseInt` reads `n`. */
  lemma ParseNonNegative(n: int)
    requires n >= 0
    ensures ParseInt(IntToString(n)) == Some(n)
  {
    var s := IntToString(n);
    assert s == NatToString(n);
    DigitFirstIsPlain(s);
    ParseMagnitudeOfDigits(n);
    ParseIntFromParts(s, s, n);
  }

  /** A negative number is written as a minus sign followed by the digits of its magnitude, which read back as that magnitude. */
  lemma NegativeText(n: int)
    requires n < 0
    ensures IntToString(n) != [] && IntToString(n)[0] == '-'
    ensures IntToString(n)[1..] == NatToString(-n)
    ensures ParseMagnitude(IntToString(n)[1..]) == Some(-n)
  {
    assert IntToString(n) == ['-'] + NatToString(-n);
    ParseMagnitudeOfDigits(-n);
  }

  /** A minus sign followed by text of magnitude `m` is read as `-m`. */
  lemma ParseSigned(s: string, m: nat)
    requires s != [] && s[0] == '-' && ParseMagnitude(s[1..]) == Some(m)
    ensures ParseInt(s) == Some(-(m as int))
  {
    MinusFirstIsPlain(s);
    ParseIntFromParts(s, s, m);
  }

  /** A negative `n` is written as a minus sign before the digits of `-n`, which is read as `n`. */
  lemma ParseNegative(n: int)
    requires n < 0
    ensures ParseInt(IntToString(n)) == Some(n)
  {
    NegativeText(n);
    ParseSigned(IntToString(n), -n);
  }

  /** Parsing what `IntToString` writes gives the number back. */
  lemma ParseIntRoundTrip(n: int)
    ensures ParseInt(IntToString(n)) == Some(n)
  {
    if n < 0 {
      ParseNegative(n);
    } else {
      ParseNonNegative(n);
    }
  }

  /** Typing a non-zero whole number into the quantity field stores exactly that number. */
  lemma CoerceRoundTrip(n: int)
    requires n != 0
    ensures CoerceQuantity(IntToString(n)) == n
  {
    ParseIntRoundTrip(n);
  }

  /** Digits followed by a character that is not a digit: the run stops at the digits. */
  lemma {:induction false} DigitRunAppend(d: string, rest: string, radix: nat)
    requires radix == 10 || radix == 16
    requires forall i :: 0 <= i < |d| ==> IsDigit(d[i], radix)
    requires rest == [] || !IsDigit(rest[0], radix)
    ensures DigitRun(d + rest, radix) == |d|
    decreases |d|
  {
    if d == [] {
      assert d + rest == rest;
    } else {
      DigitRunAppend(d[1..], rest, radix);
      assert (d + rest)[1..] == d[1..] + rest;
    }
  }

  /**
   * `parseInt` reads the leading digits and ignores what follows them, so
   * "2.5" gives 2 and "1e3" gives 1. A leading "0" followed by `x` or `X`
   * is the hex prefix instead, hence the exception for 0.
   */
  lemma ParseIntReadsPrefix(n: nat, rest: string)
    requires rest == [] || (!IsDigit(rest[0], 10) && (n != 0 || (rest[0] != 'x' && rest[0] != 'X')))
    ensures ParseInt(NatToString(n) + rest) == Some(n)
  {
    var d := NatToString(n);
    var s := d + rest;
    assert s[0] == d[0];
    DigitFirstIsPlain(s);
    assert !HasHexPrefix(s) by {
      if |d| >= 2 {
        assert s[0] == d[0] != '0';
      } else if rest != [] {
        assert s[1] == rest[0];
        assert n == 0 ==> rest[0] != 'x' && rest[0] != 'X';
        assert n != 0 ==> d[0] != '0' by { DigitsValueOfNatToString(n); }
      }
    }
    DigitRunAppend(d, rest, 10);
    assert s[..|d|] == d;
    DigitsValueOfNatToString(n);
    ParseIntFromParts(s, s, n);
  }

  /** Text that starts with neither white space, a sign nor a digit is NaN to `parseInt`. */
  lemma NoLeadingNumberIsNaN(s: string)
    requires s != [] && !IsSpace(s[0]) && s[0] != '-' && s[0] != '+' && !IsDigit(s[0], 10)
    ensures ParseInt(s) == None
  {
    assert TrimStart(s) == s;
    assert Unsigned(s) == s;
    assert !HasHexPrefix(s) by { assert s[0] != '0'; }
    assert DigitRun(s, 10) == 0;
  }

  /** An empty field and text that is not a number give 1 (`parseInt` yields NaN). */
  lemma CoerceNotANumber()
    ensures CoerceQuantity("") == 1
    ensures CoerceQuantity("abc") == 1
  {
    assert ParseInt("") == None;
    NoLeadingNumberIsNaN("abc");
  }

  /** A field holding 0 gives 1, because 0 is falsy. */
  lemma CoerceZero()
    ensures CoerceQuantity("0") == 1
  {
    ParseIntRoundTrip(0);
  }

  /** A negative entry is not rejected: `parseInt("-2") || 1` is -2. */
  lemma CoerceKeepsNegative()
    ensures CoerceQuantity(IntToString(-2)) == -2
  {
    CoerceRoundTrip(-2);
  }
}
