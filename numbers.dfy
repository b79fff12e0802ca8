/**
 JavaScript's `parseInt(text, 10)` and the decimal rendering `String(n)` of a
 natural number, over Unicode scalar values.
 */
module Numbers {

  import opened Wrappers

  predicate IsDigit(c: char) {
    '0' <= c <= '9'
  }

  /** The WhiteSpace and LineTerminator code points of ECMA-262 that `parseInt` skips at the front. */
  predicate IsJsSpace(c: char) {
    || c == '\t' || c == '\n' || c == '\U{B}' || c == '\U{C}' || c == '\r' || c == ' '
    || c == '\U{A0}' || c == '\U{1680}' || '\U{2000}' <= c <= '\U{200A}'
    || c == '\U{2028}' || c == '\U{2029}' || c == '\U{202F}' || c == '\U{205F}'
    || c == '\U{3000}' || c == '\U{FEFF}'
  }

  /** The string with its leading white space removed. */
  function TrimStart(s: string): (t: string)
    ensures |t| <= |s| && t == s[|s| - |t|..]
    ensures t == [] || !IsJsSpace(t[0])
    ensures forall k | 0 <= k < |s| - |t| :: IsJsSpace(s[k])
  {
    if s != [] && IsJsSpace(s[0]) then
      var t := TrimStart(s[1..]);
      assert t == s[|s| - |t|..];
      assert forall k | 1 <= k < |s| - |t| :: s[k] == s[1..][k - 1];
      t
    else s
  }

  /** The number of leading decimal digits. */
  function DigitRun(s: string): (n: nat)
    ensures n <= |s|
    ensures forall k | 0 <= k < n :: IsDigit(s[k])
    ensures n < |s| ==> !IsDigit(s[n])
  {
    if s != [] && IsDigit(s[0]) then 1 + DigitRun(s[1..]) else 0
  }

  function DigitValue(c: char): (d: nat)
    requires IsDigit(c)
    ensures d < 10
  {
    (c as int - '0' as int) as nat
  }

  /** The value of a string of decimal digits, most significant first. */
  function ValueOf(ds: string): nat
    requires forall k | 0 <= k < |ds| :: IsDigit(ds[k])
  {
    if ds == [] then 0 else 10 * ValueOf(ds[..|ds| - 1]) + DigitValue(ds[|ds| - 1])
  }

  /**
   `parseInt(s, 10)`: skip leading white space, then read a signed run of
   digits; no digit at all gives NaN, written `None`.
   */
  function ParseInt(s: string): (r: Option<int>)
    ensures (forall k | 0 <= k < |s| :: !IsDigit(s[k])) ==> r == None
  {
    var t := TrimStart(s);
    assert forall k | 0 <= k < |t| :: t[k] == s[|s| - |t| + k];
    ParseSigned(t)
  }

  /** One optional `+` or `-`, then the longest run of decimal digits. */
  function ParseSigned(t: string): (r: Option<int>)
    ensures (forall k | 0 <= k < |t| :: !IsDigit(t[k])) ==> r == None
  {
    var negative := t != [] && t[0] == '-';
    var u := if t != [] && (t[0] == '-' || t[0] == '+') then t[1..] else t;
    match ReadDigits(u)
    case None => None
    case Some(v) =>
      assert u[0] == t[|t| - |u|];
      Some(if negative then -(v as int) else v)
  }

  /** `String(n)` for a natural number: its decimal digits without leading zeros. */
  function Decimal(n: nat): (s: string)
    ensures s != [] && forall k | 0 <= k < |s| :: IsDigit(s[k])
    ensures |s| > 1 ==> s[0] != '0'
  {
    (if n < 10 then "" else Decimal(n / 10)) + [('0' as int + n % 10) as char]
  }

  lemma {:induction false} ValueOfDecimal(n: nat)
    ensures ValueOf(Decimal(n)) == n
  {
    var s := Decimal(n);
    assert s[..|s| - 1] == if n < 10 then "" else Decimal(n / 10);
    if n >= 10 {
      ValueOfDecimal(n / 10);
    }
  }

  lemma {:induction false} TrimStartBlank(blank: string, t: string)
    requires forall k | 0 <= k < |blank| :: IsJsSpace(blank[k])
    requires t == [] || !IsJsSpace(t[0])
    ensures TrimStart(blank + t) == t
  {
    if blank != [] {
      assert (blank + t)[1..] == blank[1..] + t;
      TrimStartBlank(blank[1..], t);
    }
  }

  lemma {:induction false} DigitRunDigits(ds: string, rest: string)
    requires forall k | 0 <= k < |ds| :: IsDigit(ds[k])
    requires rest == [] || !IsDigit(rest[0])
    ensures DigitRun(ds + rest) == |ds|
  {
    if ds != [] {
      assert (ds + rest)[1..] == ds[1..] + rest;
      DigitRunDigits(ds[1..], rest);
    }
  }

  /** Leading white space does not change what `parseInt` reads. */
  lemma ParseIntBlank(blank: string, t: string)
    requires forall k | 0 <= k < |blank| :: IsJsSpace(blank[k])
    requires t == [] || !IsJsSpace(t[0])
    ensures ParseInt(blank + t) == ParseSigned(t)
  {
    TrimStartBlank(blank, t);
  }

  /** The digits that `ParseSigned` reads once the sign is consumed. */
  function ReadDigits(u: string): (r: Option<nat>)
    ensures r.Some? ==> u != [] && IsDigit(u[0])
  {
    var n := DigitRun(u);
    if n == 0 then None else Some(ValueOf(u[..n]))
  }

  /** A run of digits followed by a non-digit or nothing reads as its value. */
  lemma ReadDigitsPrefix(d: string, rest: string)
    requires d != [] && forall k | 0 <= k < |d| :: IsDigit(d[k])
    requires rest == [] || !IsDigit(rest[0])
    ensures ReadDigits(d + rest) == Some(ValueOf(d))
  {
    DigitRunDigits(d, rest);
    assert (d + rest)[..|d|] == d;
  }

  lemma ParseSignedUnsigned(t: string)
    requires t != [] && IsDigit(t[0])
    ensures ParseSigned(t) == ReadDigits(t)
  {
  }

  lemma ParseSignedMinus(t: string)
    requires ReadDigits(t).Some?
    ensures ParseSigned("-" + t) == Some(-(ReadDigits(t).value as int))
  {
    assert ("-" + t)[1..] == t;
  }

  /** The digits of `String(n)`, signed or not, followed by a non-digit or nothing. */
  lemma ParseSignedDecimal(n: nat, rest: string)
    requires rest == [] || !IsDigit(rest[0])
    ensures ParseSigned(Decimal(n) + rest) == Some(n)
    ensures ParseSigned("-" + (Decimal(n) + rest)) == Some(-(n as int))
  {
    var u := Decimal(n) + rest;
    ReadDigitsDecimal(n, rest);
    ParseSignedUnsigned(u);
    ParseSignedMinus(u);
  }

  /** The digits of `String(n)` read back as `n`. */
  lemma ReadDigitsDecimal(n: nat, rest: string)
    requires rest == [] || !IsDigit(rest[0])
    ensures var u := Decimal(n) + rest; u != [] && IsDigit(u[0]) && ReadDigits(u) == Some(n)
  {
    var d := Decimal(n);
    ValueOfDecimal(n);
    ReadDigitsPrefix(d, rest);
    assert (d + rest)[0] == d[0];
  }

  /**
   `parseInt` reads back what `String(n)` wrote, after any leading white space
   and before any text that is not a digit.
   */
  lemma ParseIntDecimal(blank: string, n: nat, rest: string)
    requires forall k | 0 <= k < |blank| :: IsJsSpace(blank[k])
    requires rest == [] || !IsDigit(rest[0])
    ensures ParseInt(blank + (Decimal(n) + rest)) == Some(n)
  {
    var d := Decimal(n);
    ParseSignedDecimal(n, rest);
    assert (d + rest)[0] == d[0];
    ParseIntBlank(blank, d + rest);
  }

  /** The same with a minus sign in front of the digits. */
  lemma ParseIntNegative(blank: string, n: nat, rest: string)
    requires forall k | 0 <= k < |blank| :: IsJsSpace(blank[k])
    requires rest == [] || !IsDigit(rest[0])
    ensures ParseInt(blank + ("-" + (Decimal(n) + rest))) == Some(-(n as int))
  {
    ParseSignedDecimal(n, rest);
    ParseIntBlank(blank, "-" + (Decimal(n) + rest));
  }

  /** `parseInt(String(n), 10) == n`. */
  lemma ParseIntRoundTrip(n: nat)
    ensures ParseInt(Decimal(n)) == Some(n)
  {
    ParseIntDecimal("", n, "");
    assert "" + (Decimal(n) + "") == Decimal(n);
  }

  /**
   The whole rule: after the leading white space and one optional sign,
   `parseInt` gives NaN exactly when no digit follows; otherwise it gives the
   value of the longest run of digits there, negated after a `-`.
   */
  lemma ParseIntExact(s: string)
    ensures var t := TrimStart(s);
            var u := if t != [] && (t[0] == '-' || t[0] == '+') then t[1..] else t;
            && (ParseInt(s).None? <==> u == [] || !IsDigit(u[0]))
            && (DigitRun(u) > 0 ==>
                  ParseInt(s).Some?
                  && ParseInt(s).value == if t[0] == '-' then -(ValueOf(u[..DigitRun(u)]) as int) else ValueOf(u[..DigitRun(u)]))
  {
    var t := TrimStart(s);
    ParseSignedExact(t);
    assert ParseInt(s) == ParseSigned(t);
  }

  /** The same after the white space: one optional sign, then the digits. */
  lemma ParseSignedExact(t: string)
    ensures var u := if t != [] && (t[0] == '-' || t[0] == '+') then t[1..] else t;
            && (ParseSigned(t).None? <==> u == [] || !IsDigit(u[0]))
            && (DigitRun(u) > 0 ==>
                  ParseSigned(t).Some?
                  && ParseSigned(t).value == if t[0] == '-' then -(ValueOf(u[..DigitRun(u)]) as int) else ValueOf(u[..DigitRun(u)]))
  {
    var u := if t != [] && (t[0] == '-' || t[0] == '+') then t[1..] else t;
    assert DigitRun(u) > 0 <==> u != [] && IsDigit(u[0]);
  }

  /** Text that starts with a non-digit is NaN, even when digits follow. */
  lemma ParseIntLetters()
    ensures ParseInt("px64") == None
  {
    ParseIntBlank("", "px64");
    assert "" + "px64" == "px64";
    assert DigitRun("px64") == 0;
  }

  /** `"64"` reads as 64. */
  lemma SixtyFour()
    ensures DigitRun("64") == 2 && ValueOf("64") == 64
  {
    assert "64"[1..] == "4" && "4"[1..] == "";
    assert "64"[..1] == "6" && "6"[..0] == "";
  }

  /** A leading `+` does not change the value. */
  lemma ParseIntPlus()
    ensures ParseInt("+64") == Some(64)
  {
    ParseIntBlank("", "+64");
    assert "" + "+64" == "+64";
    ReadDigitsPrefix("64", "");
    assert "64" + "" == "64";
    SixtyFour();
    assert "+64"[1..] == "64";
  }

  /** `"064"` reads as 64. */
  lemma ZeroSixtyFour()
    ensures ValueOf("064") == 64
  {
    assert "064"[..2] == "06" && "06"[..1] == "0" && "0"[..0] == "";
  }

  /** Leading zeros do not change the value. */
  lemma ParseIntLeadingZero()
    ensures ParseInt("064") == Some(64)
  {
    ParseIntBlank("", "064");
    assert "" + "064" == "064";
    ReadDigitsPrefix("064", "");
    assert "064" + "" == "064";
    ZeroSixtyFour();
    ParseSignedUnsigned("064");
  }
}
