/**
 * The few pieces of Kotlin's text library the core relies on:
 * `Char.isDigit`, the decimal rendering of an `Int` used in string
 * templates, and `String.toInt()` (which is `java.lang.Integer.parseInt`).
 * Digits are the ASCII digits '0'..'9'.
 */
module KotlinText {
  import opened Wrappers

  /** The range of a JVM `Int`. */
  const INT_MIN: int := -0x8000_0000
  const INT_MAX: int := 0x7fff_ffff

  predicate IsDigit(c: char) {
    '0' <= c <= '9'
  }

  predicate AllDigits(s: string) {
    forall i :: 0 <= i < |s| ==> IsDigit(s[i])
  }

  function DigitValue(c: char): (d: nat)
    requires IsDigit(c)
    ensures d < 10
  {
    c as int - '0' as int
  }

  function DigitChar(d: nat): (c: char)
    requires d < 10
    ensures IsDigit(c) && DigitValue(c) == d
  {
    ('0' as int + d) as char
  }

  /** The number a non-empty run of decimal digits denotes, read most significant digit first. */
  function DigitsValue(ds: string): nat
    requires AllDigits(ds)
  {
    if ds == [] then 0 else DigitsValue(ds[..|ds| - 1]) * 10 + DigitValue(ds[|ds| - 1])
  }

  function Pow10(k: nat): (p: nat)
    ensures p >= 1
  {
    if k == 0 then 1 else 10 * Pow10(k - 1)
  }

  /** The decimal rendering of a natural number, without leading zeros. */
  function ShowNat(n: nat): (s: string)
    ensures s != [] && AllDigits(s)
    ensures s[0] != '0' || n == 0
  {
    if n < 10 then [DigitChar(n)] else ShowNat(n / 10) + [DigitChar(n % 10)]
  }

  /** The decimal rendering of an integer, as a Kotlin string template renders an `Int`. */
  function ShowInt(v: int): (s: string)
    ensures s != [] && (s[0] == '-' <==> v < 0)
    ensures v < 0 ==> AllDigits(s[1..])
    ensures v >= 0 ==> AllDigits(s)
  {
    if v < 0 then "-" + ShowNat(-v) else ShowNat(v)
  }

  /**
   * `String.toInt()`: an optional '+' or '-' sign followed by at least one
   * digit, denoting a value in INT_MIN..INT_MAX; anything else throws a
   * NumberFormatException, modelled as None.
   */
  function ParseInt(s: string): (r: Option<int>)
    ensures r.Some? ==> INT_MIN <= r.value <= INT_MAX
  {
    if s == [] then None
    else
      var digits := if s[0] == '-' || s[0] == '+' then s[1..] else s;
      if digits == [] || !AllDigits(digits) then None
      else
        var magnitude: int := DigitsValue(digits);
        var v := if s[0] == '-' then -magnitude else magnitude;
        if INT_MIN <= v <= INT_MAX then Some(v) else None
  }

  lemma {:induction false} ShowNatDigits(n: nat)
    ensures DigitsValue(ShowNat(n)) == n
  {
    if n >= 10 {
      ShowNatDigits(n / 10);
      var s := ShowNat(n);
      assert s[..|s| - 1] == ShowNat(n / 10);
    }
  }

  /** A digit run without a leading zero is at least 10^(length - 1). */
  lemma {:induction false} DigitsValueLowerBound(ds: string)
    requires ds != [] && AllDigits(ds) && ds[0] != '0'
    ensures DigitsValue(ds) >= Pow10(|ds| - 1)
  {
    if |ds| > 1 {
      var init := ds[..|ds| - 1];
      assert init[0] == ds[0];
      DigitsValueLowerBound(init);
    }
  }

  /** Every `Int` survives rendering and parsing back: the parser accepts what the printer writes. */
  lemma ParseShowRoundTrip(v: int)
    requires INT_MIN <= v <= INT_MAX
    ensures ParseInt(ShowInt(v)) == Some(v)
  {
    var s := ShowInt(v);
    if v < 0 {
      ShowNatDigits(-v);
      assert s[1..] == ShowNat(-v);
    } else {
      ShowNatDigits(v);
    }
  }

  /** Any non-digit after the optional sign is rejected. */
  lemma ParseRejectsNonDigits(s: string, i: nat)
    requires 0 < i < |s| || (i == 0 < |s| && s[0] != '-' && s[0] != '+')
    requires !IsDigit(s[i])
    ensures ParseInt(s) == None
  {
    if i > 0 && (s[0] == '-' || s[0] == '+') {
      assert s[1..][i - 1] == s[i];
    }
  }

  /** More than ten significant digits, after an optional sign, never fit in an `Int`. */
  lemma {:induction false} ParseRejectsLongNumbers(s: string)
    requires s != []
    requires var d := if s[0] == '-' || s[0] == '+' then s[1..] else s;
      |d| > 10 && AllDigits(d) && d[0] != '0'
    ensures ParseInt(s) == None
  {
    var d := if s[0] == '-' || s[0] == '+' then s[1..] else s;
    DigitsValueLowerBound(d);
    Pow10Monotone(10, |d| - 1);
  }

  lemma {:induction false} Pow10Monotone(j: nat, k: nat)
    requires j <= k
    ensures Pow10(j) <= Pow10(k)
  {
    if j < k { Pow10Monotone(j, k - 1); }
  }

  /** The amount text of the view-model tests. */
  lemma ParseExamples()
    ensures ParseInt("5") == Some(5)
    ensures ParseInt("-5") == Some(-5)
    ensures ParseInt("+5") == Some(5)
    ensures ParseInt("") == None && ParseInt("-") == None && ParseInt("+") == None
    ensures ParseInt("9999999999999999999") == None
    ensures ParseInt("-12345678901") == None
  {
    ParseRejectsLongNumbers("9999999999999999999");
    ParseRejectsLongNumbers("-12345678901");
    assert "+5"[1..] == "5";
    assert "-5"[1..] == "5";
    assert DigitsValue("5") == 5;
  }
}
