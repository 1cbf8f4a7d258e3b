/** PayPal decimal amounts: exact conversion of strings to integer minor units. */
module PayPalMoney {
  import opened Common

  const MAX_AMOUNT_MINOR_UNITS: nat := 2_147_483_647
  const MAX_AMOUNT_LENGTH: nat := 32

  datatype NormalizationError =
    | MalformedCurrency
    | UnsupportedCurrency
    | MalformedAmount
    | TooManyFractionDigits
    | NotPositive
    | TooLarge

  /** PAYPAL_CURRENCY_EXPONENTS. */
  function Exponent(currency: string): Option<nat> {
    if currency in {"HUF", "JPY", "TWD"} then Some(0)
    else if currency in {"AUD", "BRL", "CAD", "CHF", "CNY", "CZK", "DKK", "EUR", "GBP", "HKD", "ILS", "MXN", "MYR",
                         "NOK", "NZD", "PHP", "PLN", "RUB", "SEK", "SGD", "THB", "USD"} then Some(2)
    else None
  }

  /** The currencies without decimals, those with two, and no other. */
  lemma ExponentMeaning(currency: string)
    ensures Exponent(currency) == Some(0) <==> currency == "HUF" || currency == "JPY" || currency == "TWD"
    ensures Exponent(currency) == Some(2) <==>
              || currency == "AUD" || currency == "BRL" || currency == "CAD" || currency == "CHF" || currency == "CNY"
              || currency == "CZK" || currency == "DKK" || currency == "EUR" || currency == "GBP" || currency == "HKD"
              || currency == "ILS" || currency == "MXN" || currency == "MYR" || currency == "NOK" || currency == "NZD"
              || currency == "PHP" || currency == "PLN" || currency == "RUB" || currency == "SEK" || currency == "SGD"
              || currency == "THB" || currency == "USD"
    ensures Exponent(currency).Some? ==> Exponent(currency) == Some(0) || Exponent(currency) == Some(2)
  {
  }

  // ---------------------------------------------------------------------------
  // Decimal digits
  // ---------------------------------------------------------------------------

  predicate IsDigit(c: char) {
    '0' <= c <= '9'
  }

  predicate AllDigits(s: string) {
    forall i :: 0 <= i < |s| ==> IsDigit(s[i])
  }

  function DigitValue(c: char): nat
    requires IsDigit(c)
  {
    c as int - '0' as int
  }

  function DigitOf(n: nat): char
    requires n < 10
  {
    '0' + n as char
  }

  function Pow10(n: nat): (p: nat)
    ensures p > 0
  {
    if n == 0 then 1 else 10 * Pow10(n - 1)
  }

  /** The integer a digit string denotes. */
  function ValueOf(s: string): nat
    requires AllDigits(s)
  {
    if s == "" then 0 else 10 * ValueOf(s[..|s| - 1]) + DigitValue(s[|s| - 1])
  }

  lemma {:induction false} PowAdds(a: nat, b: nat)
    ensures Pow10(a + b) == Pow10(a) * Pow10(b)
  {
    if a > 0 {
      PowAdds(a - 1, b);
    }
  }

  lemma TenTimes(v: int, p: int)
    ensures v * (10 * p) == 10 * (v * p)
  {
  }

  lemma {:induction false} ValueOfConcat(a: string, b: string)
    requires AllDigits(a) && AllDigits(b)
    ensures AllDigits(a + b) && ValueOf(a + b) == ValueOf(a) * Pow10(|b|) + ValueOf(b)
  {
    if b == "" {
      assert a + b == a;
    } else {
      var front := b[..|b| - 1];
      assert (a + b)[..|a + b| - 1] == a + front;
      ValueOfConcat(a, front);
      var v, p, u := ValueOf(a), Pow10(|front|), ValueOf(front);
      assert ValueOf(a + b) == 10 * (v * p + u) + DigitValue(b[|b| - 1]);
      assert Pow10(|b|) == 10 * p;
      TenTimes(v, p);
    }
  }

  // ---------------------------------------------------------------------------
  // The grammar of amounts
  // ---------------------------------------------------------------------------

  /** (0|[1-9][0-9]*) */
  predicate IsNumeral(s: string) {
    s != "" && AllDigits(s) && (s[0] == '0' ==> |s| == 1)
  }

  function DigitRun(s: string): (k: nat)
    ensures k <= |s| && AllDigits(s[..k]) && (k < |s| ==> !IsDigit(s[k]))
  {
    if s == "" || !IsDigit(s[0]) then 0 else 1 + DigitRun(s[1..])
  }

  /** The dollar sign of the pattern also matches before one final line feed. */
  function Body(s: string): string {
    if s != "" && s[|s| - 1] == '\n' then s[..|s| - 1] else s
  }

  datatype Parts = Parts(whole: string, fraction: string)

  /** The groups of the amount pattern, when it matches. */
  function Split(s: string): (r: Option<Parts>)
    ensures r.Some? ==> IsNumeral(r.value.whole) && AllDigits(r.value.fraction)
  {
    var k := DigitRun(s);
    if !IsNumeral(s[..k]) then None
    else if k == |s| then Some(Parts(s, ""))
    else if s[k] == '.' && k + 1 < |s| && AllDigits(s[k + 1..]) then Some(Parts(s[..k], s[k + 1..]))
    else None
  }

  /** The text of a whole part and a fraction. */
  function Written(p: Parts): string {
    if p.fraction == "" then p.whole else p.whole + "." + p.fraction
  }

  lemma {:induction false} RunOf(digits: string, rest: string)
    requires AllDigits(digits) && (rest != "" ==> !IsDigit(rest[0]))
    ensures DigitRun(digits + rest) == |digits|
  {
    if digits == "" {
      assert digits + rest == rest;
    } else {
      assert (digits + rest)[1..] == digits[1..] + rest;
      RunOf(digits[1..], rest);
    }
  }

  /** Matching finds the one way to read a string as a numeral with an optional fraction. */
  lemma SplitIsExact(s: string, p: Parts)
    ensures Split(s) == Some(p) <==> IsNumeral(p.whole) && AllDigits(p.fraction) && Written(p) == s
  {
    var k := DigitRun(s);
    if Split(s) == Some(p) {
      assert s == s[..k] + s[k..];
      assert k < |s| ==> s[k..] == [s[k]] + s[k + 1..];
    }
    if IsNumeral(p.whole) && AllDigits(p.fraction) && Written(p) == s {
      var rest := if p.fraction == "" then "" else "." + p.fraction;
      assert s == p.whole + rest;
      RunOf(p.whole, rest);
      assert s[..k] == p.whole;
      assert rest != "" ==> s[k + 1..] == p.fraction;
    }
  }

  // ---------------------------------------------------------------------------
  // Conversion
  // ---------------------------------------------------------------------------

  /** int(Decimal(value).scaleb(exponent)): with at most 32 digits nothing is rounded. */
  function Scaled(p: Parts, exponent: nat): nat
    requires IsNumeral(p.whole) && AllDigits(p.fraction) && |p.fraction| <= exponent
  {
    ValueOf(p.whole + p.fraction) * Pow10(exponent - |p.fraction|)
  }

  predicate IsCurrencyCode(s: string) {
    |s| == 3 && forall i :: 0 <= i < 3 ==> 'A' <= s[i] <= 'Z'
  }

  function ToMinorUnits(value: string, currency: string): Result<nat, NormalizationError> {
    if !IsCurrencyCode(Body(currency)) then Err(MalformedCurrency)
    else if Exponent(currency).None? then Err(UnsupportedCurrency)
    else if |value| > MAX_AMOUNT_LENGTH then Err(MalformedAmount)
    else
      var parts := Split(Body(value));
      if parts.None? then Err(MalformedAmount)
      else if |parts.value.fraction| > Exponent(currency).value then Err(TooManyFractionDigits)
      else
        var minor := Scaled(parts.value, Exponent(currency).value);
        if minor == 0 then Err(NotPositive)
        else if minor > MAX_AMOUNT_MINOR_UNITS then Err(TooLarge)
        else Ok(minor)
  }

  // ---------------------------------------------------------------------------
  // What an accepted string is worth
  // ---------------------------------------------------------------------------

  /** The digits after the point, in units of 10 to the minus exponent: each counts a tenth of the one before it. */
  function FractionWorth(f: string, exponent: nat): nat
    requires AllDigits(f) && |f| <= exponent
  {
    if f == "" then 0 else DigitValue(f[0]) * Pow10(exponent - 1) + FractionWorth(f[1..], exponent - 1)
  }

  /** What the text denotes, in units of 10 to the minus exponent. */
  function Worth(p: Parts, exponent: nat): nat
    requires AllDigits(p.whole) && AllDigits(p.fraction) && |p.fraction| <= exponent
  {
    ValueOf(p.whole) * Pow10(exponent) + FractionWorth(p.fraction, exponent)
  }

  lemma Distribute(d: int, q: int, v: int, b: int)
    ensures (d * q + v) * b == d * (q * b) + v * b
  {
    assert d * (q * b) == (d * q) * b;
  }

  lemma {:induction false} FractionIsValue(f: string, exponent: nat)
    requires AllDigits(f) && |f| <= exponent
    ensures FractionWorth(f, exponent) == ValueOf(f) * Pow10(exponent - |f|)
  {
    if f != "" {
      var rest := f[1..];
      FractionIsValue(rest, exponent - 1);
      assert f == [f[0]] + rest;
      ValueOfConcat([f[0]], rest);
      assert ValueOf([f[0]]) == DigitValue(f[0]) by {
        assert [f[0]][..0] == "";
      }
      PowAdds(|rest|, exponent - |f|);
      Distribute(DigitValue(f[0]), Pow10(|rest|), ValueOf(rest), Pow10(exponent - |f|));
    }
  }

  lemma ScaledIsWorth(p: Parts, exponent: nat)
    requires IsNumeral(p.whole) && AllDigits(p.fraction) && |p.fraction| <= exponent
    ensures Worth(p, exponent) == Scaled(p, exponent)
  {
    var n := |p.fraction|;
    ValueOfConcat(p.whole, p.fraction);
    PowAdds(n, exponent - n);
    FractionIsValue(p.fraction, exponent);
    Distribute(ValueOf(p.whole), Pow10(n), ValueOf(p.fraction), Pow10(exponent - n));
  }

  /**
   * Exactly the well-formed amounts of a supported currency, with no more decimals than it has and in the
   * 32-bit range, are accepted, and the result is their exact worth in minor units.
   */
  lemma ConversionIsExact(value: string, currency: string, n: nat)
    ensures ToMinorUnits(value, currency) == Ok(n) <==>
              && Exponent(currency).Some? && |value| <= 32
              && 1 <= n <= 2147483647
              && exists p :: Reads(p, value, Exponent(currency).value, n)
  {
    if Exponent(currency).Some? {
      SupportedCodesAreCodes(currency);
      var parts, e := Split(Body(value)), Exponent(currency).value;
      if parts.Some? && |parts.value.fraction| <= e {
        SplitIsExact(Body(value), parts.value);
        ScaledIsWorth(parts.value, e);
        if ToMinorUnits(value, currency) == Ok(n) {
          assert Reads(parts.value, value, e, n);
        }
      }
      if p :| Reads(p, value, e, n) {
        SplitIsExact(Body(value), p);
        ScaledIsWorth(p, e);
      }
    }
  }

  /** Three capital letters, by their code points, and at most one line feed after them. */
  predicate IsThreeCapitals(s: string) {
    && (|s| == 3 || (|s| == 4 && s[3] == '\n'))
    && 65 <= s[0] as int <= 90 && 65 <= s[1] as int <= 90 && 65 <= s[2] as int <= 90
  }

  /**
   * Which error is reported: the first that applies of the currency's form, the currency, the amount's form, its
   * decimals and its range.
   */
  lemma ErrorMeaning(value: string, currency: string)
    ensures ToMinorUnits(value, currency) == Err(MalformedCurrency) <==> !IsThreeCapitals(currency)
    ensures ToMinorUnits(value, currency) == Err(UnsupportedCurrency) <==>
              IsThreeCapitals(currency) && Exponent(currency) == None
    ensures ToMinorUnits(value, currency) == Err(MalformedAmount) <==>
              Exponent(currency).Some?
              && (|value| > 32 || forall p :: !IsText(p, value))
    ensures ToMinorUnits(value, currency) == Err(TooManyFractionDigits) <==>
              Exponent(currency).Some? && |value| <= 32
              && exists p :: IsText(p, value) && |p.fraction| > Exponent(currency).value
    ensures ToMinorUnits(value, currency) == Err(NotPositive) <==>
              Exponent(currency).Some? && |value| <= 32 && exists p :: Reads(p, value, Exponent(currency).value, 0)
    ensures ToMinorUnits(value, currency) == Err(TooLarge) <==>
              Exponent(currency).Some? && |value| <= 32
              && exists p, n: nat :: n > 2147483647 && Reads(p, value, Exponent(currency).value, n)
  {
    if Exponent(currency).Some? {
      SupportedCodesAreCodes(currency);
      var e := Exponent(currency).value;
      forall p
        ensures Split(Body(value)) == Some(p) <==> IsText(p, value)
        ensures IsText(p, value) && |p.fraction| <= e ==> Reads(p, value, e, Scaled(p, e))
      {
        TextIsSplit(p, value, e);
      }
      if Split(Body(value)).Some? {
        assert IsText(Split(Body(value)).value, value);
      }
    }
  }

  lemma TextIsSplit(p: Parts, value: string, exponent: nat)
    ensures Split(Body(value)) == Some(p) <==> IsText(p, value)
    ensures IsText(p, value) && |p.fraction| <= exponent ==> Reads(p, value, exponent, Scaled(p, exponent))
  {
    SplitIsExact(Body(value), p);
    if IsText(p, value) && |p.fraction| <= exponent {
      ScaledIsWorth(p, exponent);
    }
  }

  predicate IsText(p: Parts, value: string) {
    IsNumeral(p.whole) && AllDigits(p.fraction) && Written(p) == Body(value)
  }

  /** The value, up to one final line feed, is the text of p, and p is worth n minor units. */
  predicate Reads(p: Parts, value: string, exponent: nat, n: nat) {
    && IsNumeral(p.whole) && AllDigits(p.fraction) && |p.fraction| <= exponent
    && Written(p) == Body(value)
    && Worth(p, exponent) == n
  }

  lemma SupportedCodesAreCodes(currency: string)
    requires Exponent(currency).Some?
    ensures IsCurrencyCode(Body(currency)) && Exponent(currency).value <= 2
  {
  }

  // ---------------------------------------------------------------------------
  // Round trip
  // ---------------------------------------------------------------------------

  function Numeral(n: nat): string {
    if n < 10 then [DigitOf(n)] else Numeral(n / 10) + [DigitOf(n % 10)]
  }

  /** The number without its last digits. */
  function Leading(n: nat, width: nat): nat {
    if width == 0 then n else Leading(n / 10, width - 1)
  }

  /** Its last digits, zeros included. */
  function Trailing(n: nat, width: nat): string {
    if width == 0 then "" else Trailing(n / 10, width - 1) + [DigitOf(n % 10)]
  }

  /** A minor-unit amount written with all the decimals of its currency. */
  function Render(n: nat, exponent: nat): string {
    Written(Parts(Numeral(Leading(n, exponent)), Trailing(n, exponent)))
  }

  lemma {:induction false} NumeralDenotes(n: nat)
    ensures IsNumeral(Numeral(n)) && ValueOf(Numeral(n)) == n
    ensures n > 0 ==> Numeral(n)[0] != '0'
    ensures n < Pow10(10) ==> |Numeral(n)| <= 10
  {
    NumeralLength(n, 10);
    if n < 10 {
      assert Numeral(n)[..0] == "";
    } else {
      NumeralDenotes(n / 10);
      assert Numeral(n)[..|Numeral(n)| - 1] == Numeral(n / 10);
    }
  }

  lemma {:induction false} NumeralLength(n: nat, width: nat)
    requires width > 0
    ensures n < Pow10(width) ==> |Numeral(n)| <= width
  {
    assert Pow10(1) == 10 * Pow10(0);
    if n >= 10 && width > 1 {
      NumeralLength(n / 10, width - 1);
    }
  }

  lemma {:induction false} SplitsIntoDigits(n: nat, width: nat)
    ensures |Trailing(n, width)| == width && AllDigits(Trailing(n, width)) && Leading(n, width) <= n
    ensures Leading(n, width) * Pow10(width) + ValueOf(Trailing(n, width)) == n
  {
    if width > 0 {
      SplitsIntoDigits(n / 10, width - 1);
      assert Trailing(n, width)[..width - 1] == Trailing(n / 10, width - 1);
      TenTimes(Leading(n, width), Pow10(width - 1));
    }
  }

  lemma TenDigits()
    ensures MAX_AMOUNT_MINOR_UNITS < Pow10(10)
  {
    assert Pow10(5) == 100000;
    PowAdds(5, 5);
  }

  lemma RenderedParts(n: nat, e: nat, p: Parts)
    requires p == Parts(Numeral(Leading(n, e)), Trailing(n, e))
    ensures IsNumeral(p.whole) && AllDigits(p.fraction) && |p.fraction| == e && Scaled(p, e) == n
    ensures n < Pow10(10) ==> |p.whole| <= 10
  {
    NumeralDenotes(Leading(n, e));
    SplitsIntoDigits(n, e);
    ValueOfConcat(p.whole, p.fraction);
    assert Pow10(0) == 1;
  }

  lemma WrittenIsRead(p: Parts)
    requires IsNumeral(p.whole) && AllDigits(p.fraction)
    ensures |Written(p)| <= |p.whole| + |p.fraction| + 1 && Split(Body(Written(p))) == Some(p)
  {
    var s := Written(p);
    assert IsDigit(s[|s| - 1]);
    SplitIsExact(s, p);
  }

  /** The text of an amount is short, matches the pattern and is worth the amount. */
  lemma RenderedIsRead(n: nat, e: nat)
    requires e <= 2 && n <= MAX_AMOUNT_MINOR_UNITS
    ensures |Render(n, e)| <= MAX_AMOUNT_LENGTH && Split(Body(Render(n, e))).Some?
    ensures var p := Split(Body(Render(n, e))).value; |p.fraction| == e && Scaled(p, e) == n
  {
    var p := Parts(Numeral(Leading(n, e)), Trailing(n, e));
    TenDigits();
    RenderedParts(n, e, p);
    WrittenIsRead(p);
  }

  /** Writing any storable amount of any supported currency and converting it back gives the amount. */
  lemma RoundTrip(n: nat, currency: string)
    requires Exponent(currency).Some? && 1 <= n <= MAX_AMOUNT_MINOR_UNITS
    ensures ToMinorUnits(Render(n, Exponent(currency).value), currency) == Ok(n)
  {
    SupportedCodesAreCodes(currency);
    RenderedIsRead(n, Exponent(currency).value);
  }
}
