/**
 * JavaScript's conversions from a string to a number, as the adapters use
 * them: the global `isNaN(s)` (which converts with `Number(s)`, the
 * StringToNumber operation of ECMAScript section 7.1.4.1.1) and the global
 * `parseFloat(s)` (ECMAScript section 19.2.4). Both follow the grammar
 * StrDecimalLiteral; they differ in that `Number` trims both ends, maps blank
 * text to 0, accepts the 0x/0o/0b literals and rejects trailing garbage,
 * while `parseFloat` trims the start only, reads the longest decimal prefix
 * and gives NaN when there is none. Values are exact reals: IEEE-754
 * rounding, overflow to Infinity and negative zero are not modelled.
 */
module JsNumber {
  import opened Util
  import opened JsRegex

  /** A JavaScript number: finite, NaN, or an infinity. */
  datatype Number = Finite(r: real) | NaN | Infinity(negative: bool)

  function Pow10(n: nat): (p: nat)
    ensures p >= 1
  {
    if n == 0 then 1 else 10 * Pow10(n - 1)
  }

  function DigitValue(c: char): nat
    requires IsDigit(c)
  {
    c as int - '0' as int
  }

  function DigitChar(k: nat): (c: char)
    requires k < 10
    ensures IsDigit(c) && DigitValue(c) == k
  {
    ('0' as int + k) as char
  }

  /** The value of a string of decimal digits, most significant first. */
  function DigitsValue(d: string): nat
    requires AllDigits(d)
    decreases |d|
  {
    if d == [] then 0 else 10 * DigitsValue(d[..|d| - 1]) + DigitValue(d[|d| - 1])
  }

  /** The decimal numeral of `n`, as `String(n)` writes it for `n` below 10^21 (larger ones get an exponent). */
  function Decimal(n: nat): (s: string)
    ensures s != [] && AllDigits(s)
  {
    if n < 10 then [DigitChar(n)] else Decimal(n / 10) + [DigitChar(n % 10)]
  }

  /** Reading back the numeral of `n` gives `n`. */
  lemma {:induction false} DecimalRoundTrip(n: nat)
    ensures DigitsValue(Decimal(n)) == n
  {
    var s := Decimal(n);
    if n >= 10 {
      DecimalRoundTrip(n / 10);
      assert s[..|s| - 1] == Decimal(n / 10);
    }
  }

  /** The value of a hexadecimal, octal or binary digit, if `c` is one. */
  function RadixDigit(c: char): Option<nat> {
    if '0' <= c <= '9' then Some(c as int - '0' as int)
    else if 'a' <= c <= 'f' then Some(c as int - 'a' as int + 10)
    else if 'A' <= c <= 'F' then Some(c as int - 'A' as int + 10)
    else None
  }

  predicate AllRadix(d: string, base: nat) {
    forall i :: 0 <= i < |d| ==> RadixDigit(d[i]).Some? && RadixDigit(d[i]).value < base
  }

  function RadixValue(d: string, base: nat): nat
    requires AllRadix(d, base)
    decreases |d|
  {
    if d == [] then 0 else base * RadixValue(d[..|d| - 1], base) + RadixDigit(d[|d| - 1]).value
  }

  /** The base a `0x`, `0o` or `0b` prefix announces (the letter in either case). */
  function RadixOf(c: char): Option<nat> {
    if c == 'x' || c == 'X' then Some(16)
    else if c == 'o' || c == 'O' then Some(8)
    else if c == 'b' || c == 'B' then Some(2)
    else None
  }

  /** `s` without its leading white space. */
  function TrimStart(s: string): (r: string)
    ensures r == [] || !IsSpace(r[0])
  {
    s[LeadingRun(s, IsSpace)..]
  }

  /** `s` without its trailing white space. */
  function TrimEnd(s: string): (r: string)
    ensures r == [] || !IsSpace(r[|r| - 1])
    ensures |r| <= |s| && r == s[..|r|]
    ensures forall i :: |r| <= i < |s| ==> IsSpace(s[i])
  {
    if s != [] && IsSpace(s[|s| - 1]) then TrimEnd(s[..|s| - 1]) else s
  }

  function Trim(s: string): string {
    TrimEnd(TrimStart(s))
  }

  /** `m * 10^e` as an exact real. */
  function Scale(m: nat, e: int): real {
    if e >= 0 then (m * Pow10(e)) as real else m as real / Pow10(-e) as real
  }

  function Negate(n: Number): Number {
    match n
    case Finite(r) => Finite(-r)
    case NaN => NaN
    case Infinity(neg) => Infinity(!neg)
  }

  /**
   * The ExponentPart at the start of `s`, as (exponent, length): `e` or `E`,
   * an optional sign and at least one digit; (0, 0) when there is none.
   */
  function ScanExponent(s: string): (r: (int, nat))
    ensures r.1 <= |s|
  {
    if s != [] && (s[0] == 'e' || s[0] == 'E') then
      var j := if |s| > 1 && (s[1] == '+' || s[1] == '-') then 2 else 1;
      var k := LeadingRun(s[j..], IsDigit);
      if k == 0 then (0, 0)
      else
        var e: int := DigitsValue(s[j..j + k]);
        (if j == 2 && s[1] == '-' then -e else e, j + k)
    else (0, 0)
  }

  /**
   * The longest prefix of `s` that is a StrUnsignedDecimalLiteral, as
   * (value, length): `Infinity`, or digits with an optional `.` and fraction
   * (at least one digit in all), then an optional exponent.
   */
  function ScanUnsigned(s: string): (r: Option<(Number, nat)>)
    ensures r.Some? ==> 0 < r.value.1 <= |s|
  {
    if StartsWithInfinity(s) then Some((Infinity(false), 8)) else ScanFinite(s)
  }

  predicate StartsWithInfinity(s: string) {
    |s| >= 8 && s[..8] == "Infinity"
  }

  /** The finite case: digits with an optional `.` and fraction, then an optional exponent. */
  function ScanFinite(s: string): (r: Option<(Number, nat)>)
    ensures r.Some? ==> 0 < r.value.1 <= |s|
  {
    var i := LeadingRun(s, IsDigit);
    var dot := i < |s| && s[i] == '.';
    var f := if dot then LeadingRun(s[i + 1..], IsDigit) else 0;
    if i == 0 && f == 0 then None
    else
      var end := if dot then i + 1 + f else i;
      MantissaDigits(s, i, dot, f);
      var mantissa := if dot then DigitsValue(s[..i] + s[i + 1..end]) else DigitsValue(s[..i]);
      var exponent := ScanExponent(s[end..]);
      Some((Finite(Scale(mantissa, exponent.0 - f)), end + exponent.1))
  }

  /** The digits before and after the decimal point, run together, are all digits. */
  lemma MantissaDigits(s: string, i: nat, dot: bool, f: nat)
    requires i == LeadingRun(s, IsDigit)
    requires dot ==> i < |s| && f == LeadingRun(s[i + 1..], IsDigit)
    ensures AllDigits(s[..i])
    ensures dot ==> AllDigits(s[..i] + s[i + 1..i + 1 + f])
  {
    assert forall k :: 0 <= k < i ==> IsDigit(s[..i][k]);
    if dot {
      var t := s[i + 1..];
      assert forall k :: 0 <= k < f ==> IsDigit(t[k]);
      assert s[i + 1..i + 1 + f] == t[..f];
      var joined := s[..i] + t[..f];
      forall k | 0 <= k < |joined| ensures IsDigit(joined[k]) {
        if k < i { assert joined[k] == s[..i][k]; } else { assert joined[k] == t[k - i]; }
      }
    }
  }

  /** The longest prefix of `s` that is a StrDecimalLiteral (an optional sign, then an unsigned literal). */
  function ScanDecimal(s: string): (r: Option<(Number, nat)>)
    ensures r.Some? ==> 0 < r.value.1 <= |s|
  {
    if s != [] && (s[0] == '+' || s[0] == '-') then
      match ScanUnsigned(s[1..])
      case None => None
      case Some((v, n)) => Some((if s[0] == '-' then Negate(v) else v, n + 1))
    else ScanUnsigned(s)
  }

  /** `Number(s)` for a string `s`. */
  function StringToNumber(s: string): Number {
    var t := Trim(s);
    if t == [] then Finite(0.0)
    else if |t| >= 2 && t[0] == '0' && RadixOf(t[1]).Some? then
      var base := RadixOf(t[1]).value;
      if |t| > 2 && AllRadix(t[2..], base) then Finite(RadixValue(t[2..], base) as real) else NaN
    else
      match ScanDecimal(t)
      case Some((v, n)) => if n == |t| then v else NaN
      case None => NaN
  }

  /** The global `isNaN(s)` for a string `s`. */
  predicate IsNaN(s: string) {
    StringToNumber(s).NaN?
  }

  /** The global `parseFloat(s)` for a string `s`. */
  function ParseFloat(s: string): Number {
    match ScanDecimal(TrimStart(s))
    case Some((v, _)) => v
    case None => NaN
  }

  /** `x * 1000`: the mg/m³ to µg/m³ conversion applied to carbon monoxide. */
  function TimesThousand(x: Number): (r: Number)
    ensures r.NaN? <==> x.NaN?
    ensures x.Finite? ==> r.Finite? && r.r == x.r * 1000.0
    ensures x.Infinity? ==> r == x
  {
    match x
    case Finite(v) => Finite(v * 1000.0)
    case _ => x
  }

  // ---------------------------------------------------------------------
  // Properties the adapters rely on
  // ---------------------------------------------------------------------

  lemma {:induction false} TrimStartOfBlank(s: string)
    requires forall i :: 0 <= i < |s| ==> IsSpace(s[i])
    ensures TrimStart(s) == []
  {
  }

  /**
   * Blank text, the empty string included, is not NaN for `isNaN` (it
   * converts to 0) but `parseFloat` of it is NaN.
   */
  lemma BlankText(s: string)
    requires forall i :: 0 <= i < |s| ==> IsSpace(s[i])
    ensures StringToNumber(s) == Finite(0.0) && !IsNaN(s)
    ensures ParseFloat(s) == NaN
  {
    TrimStartOfBlank(s);
  }

  /** A non-empty digit string is a complete decimal literal: the scan takes all of it. */
  lemma ScanNumeral(d: string)
    requires d != [] && AllDigits(d)
    ensures ScanDecimal(d) == Some((Finite(DigitsValue(d) as real), |d|))
  {
    assert !StartsWithInfinity(d) by {
      if |d| >= 8 { assert d[..8][0] == d[0]; }
    }
    FiniteNumeral(d);
  }

  lemma FiniteNumeral(d: string)
    requires d != [] && AllDigits(d)
    ensures ScanFinite(d) == Some((Finite(DigitsValue(d) as real), |d|))
  {
    WholeRun(d);
    assert d[..|d|] == d && d[|d|..] == [];
    assert ScanExponent([]) == (0, 0);
    assert Pow10(0) == 1;
  }

  lemma WholeRun(d: string)
    requires AllDigits(d)
    ensures LeadingRun(d, IsDigit) == |d|
  {
  }

  /** A non-empty string of digits converts to its decimal value under both conversions. */
  lemma Numeral(d: string)
    requires d != [] && AllDigits(d)
    ensures StringToNumber(d) == Finite(DigitsValue(d) as real)
    ensures ParseFloat(d) == Finite(DigitsValue(d) as real)
  {
    assert LeadingRun(d, IsSpace) == 0;
    assert TrimStart(d) == d;
    assert TrimEnd(d) == d;
    assert Trim(d) == d;
    assert |d| >= 2 ==> RadixOf(d[1]).None?;
    ScanNumeral(d);
  }

  /** `Number(String(n))` and `parseFloat(String(n))` are both `n`, for `n` below 10^21. */
  lemma DecimalConverts(n: nat)
    ensures StringToNumber(Decimal(n)) == Finite(n as real)
    ensures ParseFloat(Decimal(n)) == Finite(n as real)
  {
    Numeral(Decimal(n));
    DecimalRoundTrip(n);
  }

  /** "-5" is a number to both conversions: negative readings are not filtered. */
  lemma MinusFive()
    ensures StringToNumber("-5") == Finite(-5.0) && !IsNaN("-5")
    ensures ParseFloat("-5") == Finite(-5.0)
  {
    var s := "-5";
    assert LeadingRun(s, IsSpace) == 0;
    assert TrimStart(s) == s && TrimEnd(s) == s;
    ScanNumeral("5");
    assert s[1..] == "5";
    assert DigitsValue("5") == 5 by {
      assert "5"[..0] == [];
    }
  }
}
