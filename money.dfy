/** Exact-cents money helpers of app/utils.py: the supported currencies,
    parsing a decimal amount into integer cents with ROUND_HALF_UP, rendering
    cents with two decimals, and summing cents. */
module Money {
  import opened Common
  import opened Text

  /** The fixed set of currencies every amount must be in. */
  const SupportedCurrencies: set<string> := {"EUR", "XAF"}

  /** The same currencies as a list, in the order closure postings are made. */
  const SupportedList: seq<string> := ["EUR", "XAF"]

  lemma SupportedListMatchesSet()
    ensures forall c :: c in SupportedList <==> c in SupportedCurrencies
    ensures |SupportedList| == 2 && SupportedList[0] != SupportedList[1]
  {
  }

  // ---------------------------------------------------------------------------
  // Parsing

  /** `amount.replace(",", ".")`. */
  function ReplaceCommas(s: string): (r: string)
    ensures |r| == |s|
    ensures forall i :: 0 <= i < |s| ==> r[i] == (if s[i] == ',' then '.' else s[i])
  {
    seq(|s|, i requires 0 <= i < |s| => if s[i] == ',' then '.' else s[i])
  }

  /** A decimal number as Python's `Decimal` holds it: sign, integer
      coefficient and number of fractional digits; its value is
      (-1)^negative * coefficient / 10^scale. */
  datatype Dec = Dec(negative: bool, coefficient: nat, scale: nat)

  /** `dec > 0`. */
  predicate Positive(d: Dec) {
    !d.negative && d.coefficient > 0
  }

  /** Index of the first '.', or |s| when there is none. */
  function DotIndex(s: string): (i: nat)
    ensures i <= |s|
    ensures i < |s| ==> s[i] == '.'
    ensures forall j :: 0 <= j < i ==> s[j] != '.'
  {
    if s == [] || s[0] == '.' then 0 else 1 + DotIndex(s[1..])
  }

  /** `Decimal(text)` on the fragment of its grammar the model covers:
      surrounding whitespace, an optional sign, digits, and an optional single
      '.' followed by digits, with at least one digit in all. */
  function ParseDecimal(text: string): (r: Option<Dec>)
    ensures r.Some? ==> Strip(text) != [] && r.value.scale < |Strip(text)|
    ensures r.Some? && r.value.negative ==> Strip(text)[0] == '-'
  {
    ParseSigned(Strip(text))
  }

  /** The optional sign, then the unsigned part. */
  function ParseSigned(s: string): (r: Option<Dec>)
    ensures r.Some? ==> s != [] && r.value.scale < |s|
    ensures r.Some? && r.value.negative ==> s[0] == '-'
  {
    if |s| > 0 && (s[0] == '+' || s[0] == '-') then ParseUnsigned(s[1..], s[0] == '-')
    else ParseUnsigned(s, false)
  }

  /** The digits-and-point part of a decimal, after the sign. */
  function ParseUnsigned(body: string, negative: bool): (r: Option<Dec>)
    ensures r.Some? ==> r.value.negative == negative && r.value.scale < |body|
  {
    var i := DotIndex(body);
    var intPart := body[..i];
    var frac := if i < |body| then body[i + 1..] else [];
    if AllDigits(intPart) && AllDigits(frac) && |intPart| + |frac| > 0 then
      AllDigitsConcat(intPart, frac);
      Some(Dec(negative, DigitsValue(intPart + frac), |frac|))
    else
      None
  }

  /** `cents` is the value coefficient / 10^scale, times 100, rounded half-up:
      cents - 1/2 <= 100 * coefficient / 10^scale < cents + 1/2. */
  predicate RoundsHalfUpTo(coefficient: nat, scale: nat, cents: int) {
    (2 * cents - 1) * Pow10(scale) <= 200 * coefficient < (2 * cents + 1) * Pow10(scale)
  }

  /** `(dec.quantize(Decimal("0.01"), rounding=ROUND_HALF_UP) * 100)` for a
      non-negative decimal coefficient / 10^scale. */
  function HalfUpCents(coefficient: nat, scale: nat): nat {
    if scale <= 2 then
      var p := Pow10(2 - scale);
      NatMul(coefficient, p);
      coefficient * p
    else
      var d := Pow10(scale - 2);
      DivMod(coefficient, d);
      coefficient / d + (if 2 * (coefficient % d) >= d then 1 else 0)
  }

  lemma NatMul(a: nat, b: nat)
    ensures a * b >= 0
  {
  }

  /** The conversion rounds half-up: exact below three decimals, and
      otherwise the nearest cent with halves going up. */
  lemma HalfUpCentsRounds(coefficient: nat, scale: nat)
    ensures RoundsHalfUpTo(coefficient, scale, HalfUpCents(coefficient, scale))
  {
    var cents := HalfUpCents(coefficient, scale);
    if scale <= 2 {
      HalfUpExact(coefficient, scale, cents);
    } else {
      var d := Pow10(scale - 2);
      DivMod(coefficient, d);
      HalfUpBounds(coefficient, scale, d, coefficient / d, coefficient % d, cents);
    }
  }

  lemma DivMod(a: nat, d: nat)
    requires d >= 1
    ensures a == (a / d) * d + a % d && 0 <= a % d < d && a / d >= 0
  {
  }

  lemma HalfUpExact(coefficient: nat, scale: nat, cents: nat)
    requires scale <= 2 && cents == coefficient * Pow10(2 - scale)
    ensures RoundsHalfUpTo(coefficient, scale, cents)
  {
    Pow10Add(scale, 2 - scale);
    var p, p2 := Pow10(scale), Pow10(2 - scale);
    assert p * p2 == 100;
    calc {
      cents * p;
      coefficient * p2 * p;
      { assert p2 * p == 100; }
      coefficient * 100;
    }
    assert (2 * cents - 1) * p == 2 * (cents * p) - p;
    assert (2 * cents + 1) * p == 2 * (cents * p) + p;
  }

  lemma HalfUpBounds(coefficient: nat, scale: nat, d: nat, q: nat, rem: nat, cents: nat)
    requires scale > 2 && d == Pow10(scale - 2) && d >= 1
    requires coefficient == q * d + rem && 0 <= rem < d
    requires cents == q + (if 2 * rem >= d then 1 else 0)
    ensures RoundsHalfUpTo(coefficient, scale, cents)
  {
    Pow10Add(scale - 2, 2);
    assert Pow10(2) == 100;
    var p := Pow10(scale);
    assert p == d * 100;
    ScaledHalves(cents, d, p);
    if 2 * rem >= d {
      MulSucc(q, d);
    }
  }

  /** (2c -/+ 1) * 100d, expanded. */
  lemma ScaledHalves(c: int, d: int, p: int)
    requires p == d * 100
    ensures (2 * c - 1) * p == 200 * (c * d) - 100 * d
    ensures (2 * c + 1) * p == 200 * (c * d) + 100 * d
  {
  }

  lemma MulSucc(q: int, d: int)
    ensures (q + 1) * d == q * d + d
  {
  }

  /** The half-up bounds determine the cents uniquely. */
  lemma RoundsHalfUpUnique(coefficient: nat, scale: nat, a: int, b: int)
    requires RoundsHalfUpTo(coefficient, scale, a) && RoundsHalfUpTo(coefficient, scale, b)
    ensures a == b
  {
    var p := Pow10(scale);
    if a < b {
      MulMono(2 * a + 1, 2 * b - 1, p);
    } else if b < a {
      MulMono(2 * b + 1, 2 * a - 1, p);
    }
  }

  lemma MulMono(x: int, y: int, p: nat)
    requires x <= y
    ensures x * p <= y * p
  {
  }

  /** 10^28: `quantize` under Python's default decimal context (28 digits of
      precision) raises `InvalidOperation` when the quantized coefficient,
      here the number of cents, needs more digits than that. */
  const QuantizeLimit: nat := 10_000_000_000_000_000_000_000_000_000

  /** `parse_money_to_cents(amount, currency)`. */
  function ParseMoneyToCents(amount: string, currency: string): (r: Result<int>)
    // the currency is checked first, before the amount is looked at
    ensures currency !in SupportedCurrencies ==> r == Err(UnsupportedCurrency)
    ensures (currency in SupportedCurrencies && ParseDecimal(ReplaceCommas(amount)).None?)
              ==> r == Err(InvalidAmount)
    ensures (currency in SupportedCurrencies && ParseDecimal(ReplaceCommas(amount)).Some?
             && !Positive(ParseDecimal(ReplaceCommas(amount)).value))
              ==> r == Err(NonPositiveAmount)
    // a positive amount in a supported currency is accepted exactly when its
    // cents fit the decimal context, and then gives those cents
    ensures (currency in SupportedCurrencies && ParseDecimal(ReplaceCommas(amount)).Some?
             && Positive(ParseDecimal(ReplaceCommas(amount)).value)) ==>
              var d := ParseDecimal(ReplaceCommas(amount)).value;
              (r.Ok? <==> HalfUpCents(d.coefficient, d.scale) < QuantizeLimit) &&
              (r.Ok? ==> r.value == HalfUpCents(d.coefficient, d.scale)) &&
              (r.Err? ==> r.error == AmountTooLarge)
    ensures r.Ok? ==> 0 <= r.value < QuantizeLimit && ParseDecimal(ReplaceCommas(amount)).Some?
    ensures r.Ok? ==>
              var d := ParseDecimal(ReplaceCommas(amount)).value;
              Positive(d) && RoundsHalfUpTo(d.coefficient, d.scale, r.value)
  {
    if currency !in SupportedCurrencies then Err(UnsupportedCurrency)
    else
      match ParseDecimal(ReplaceCommas(amount))
      case None => Err(InvalidAmount)
      case Some(d) =>
        if !Positive(d) then Err(NonPositiveAmount)
        else
          var cents := HalfUpCents(d.coefficient, d.scale);
          if cents >= QuantizeLimit then Err(AmountTooLarge)
          else
            HalfUpCentsRounds(d.coefficient, d.scale);
            Ok(cents)
  }

  /** A whole amount of 10^26 units or more needs more than 28 digits of
      cents, so `quantize` refuses it. */
  lemma LargeAmountRejected(w: string, currency: string)
    requires |w| >= 1 && AllDigits(w) && DigitsValue(w) > 0 && 100 * DigitsValue(w) >= QuantizeLimit
    requires currency in SupportedCurrencies
    ensures ParseMoneyToCents(w, currency) == Err(AmountTooLarge)
  {
    var v := DigitsValue(w);
    NoCommasUnchanged(w);
    IntegerParses(w);
    assert ParseDecimal(ReplaceCommas(w)) == Some(Dec(false, v, 0));
    assert Pow10(2) == 100;
    assert HalfUpCents(v, 0) == v * 100;
  }

  lemma ReplaceCommasIdempotent(s: string)
    ensures ReplaceCommas(ReplaceCommas(s)) == ReplaceCommas(s)
  {
  }

  /** A comma is read exactly as a dot. */
  lemma CommaIsDot(amount: string, currency: string)
    ensures ParseMoneyToCents(amount, currency) == ParseMoneyToCents(ReplaceCommas(amount), currency)
  {
    ReplaceCommasIdempotent(amount);
  }

  /** A non-space character survives Strip, shifted left by the leading
      whitespace removed. */
  lemma StripKeepsChar(s: string, i: int) returns (k: nat)
    requires 0 <= i < |s| && !IsSpace(s[i])
    ensures k == i - (|s| - |StripLeft(s)|) && k < |Strip(s)| && Strip(s)[k] == s[i]
  {
    var l := StripLeft(s);
    var off := |s| - |l|;
    assert i >= off;
    k := i - off;
    assert l[k] == s[i];
    var r := StripRight(l);
    assert k < |r| by {
      assert !IsSpace(l[k]);
    }
    assert r[k] == l[k];
  }

  /** Two separators (for example "1,000.50", which becomes "1.000.50") make
      the amount unparseable. */
  lemma TwoSeparatorsRejected(s: string, i: int, j: int)
    requires 0 <= i < j < |s| && s[i] == '.' && s[j] == '.'
    ensures ParseDecimal(s) == None
  {
    var i' := StripKeepsChar(s, i);
    var j' := StripKeepsChar(s, j);
    SignedTwoDots(Strip(s), i', j');
  }

  lemma SignedTwoDots(t: string, a: int, b: int)
    requires 0 <= a < b < |t| && t[a] == '.' && t[b] == '.'
    ensures ParseSigned(t) == None
  {
    if |t| > 0 && (t[0] == '+' || t[0] == '-') {
      assert t[1..][a - 1] == t[a] && t[1..][b - 1] == t[b];
      UnsignedTwoDots(t[1..], a - 1, b - 1, t[0] == '-');
    } else {
      UnsignedTwoDots(t, a, b, false);
    }
  }

  lemma UnsignedTwoDots(body: string, a: int, b: int, negative: bool)
    requires 0 <= a < b < |body| && body[a] == '.' && body[b] == '.'
    ensures ParseUnsigned(body, negative) == None
  {
    var k := DotIndex(body);
    var frac := body[k + 1..];
    assert frac[b - k - 1] == '.';
    assert !IsDigit(frac[b - k - 1]);
  }

  /** Amounts of at most two decimals are converted exactly. */
  lemma ExactWithTwoDecimals(coefficient: nat, scale: nat)
    requires scale <= 2
    ensures HalfUpCents(coefficient, scale) * Pow10(scale) == 100 * coefficient
  {
    HalfUpExact(coefficient, scale, HalfUpCents(coefficient, scale));
    Pow10Add(scale, 2 - scale);
    assert Pow10(2) == 100;
  }

  /** A positive amount below half a cent is accepted and becomes 0 cents. */
  lemma BelowHalfCentIsZero(coefficient: nat, scale: nat)
    requires 200 * coefficient < Pow10(scale)
    ensures HalfUpCents(coefficient, scale) == 0
  {
    HalfUpCentsRounds(coefficient, scale);
    RoundsToZero(coefficient, scale, HalfUpCents(coefficient, scale));
  }

  lemma RoundsToZero(coefficient: nat, scale: nat, c: int)
    requires RoundsHalfUpTo(coefficient, scale, c) && c >= 0 && 200 * coefficient < Pow10(scale)
    ensures c == 0
  {
    if c >= 1 {
      MulMono(1, 2 * c - 1, Pow10(scale));
    }
  }

  // ---------------------------------------------------------------------------
  // Rendering

  /** Two digits for a value below 100, as `format(n, "02d")`. */
  function TwoDigits(n: nat): (s: string)
    requires n < 100
    ensures |s| == 2 && AllDigits(s) && DigitsValue(s) == n
  {
    var s := [DigitChar(n / 10), DigitChar(n % 10)];
    assert s[..1] == [DigitChar(n / 10)];
    assert s[..1][..0] == [];
    assert DigitsValue(s[..1]) == n / 10;
    s
  }

  function Abs(c: int): nat {
    if c < 0 then -c else c
  }

  /** The text `cents_to_str` builds from its parts: an optional '-', the
      whole units, '.', and two digits. */
  function Render(negative: bool, whole: string, two: string): string {
    var body := whole + "." + two;
    if negative then "-" + body else body
  }

  /** `cents_to_str(cents)`: the sign, the whole units, '.', two digits of cents. */
  function CentsToStr(cents: int): (s: string)
    ensures |s| >= 4 && s[|s| - 3] == '.'
  {
    var n := Abs(cents);
    var s := Render(cents < 0, NatToDigits(n / 100), TwoDigits(n % 100));
    assert s[|s| - 3] == '.';
    s
  }

  /** The rendering is made of digits, '.' and '-', and reads back as the
      decimal with the same sign, the cents as coefficient, and two places. */
  lemma CentsToStrParses(cents: int)
    ensures RenderChars(CentsToStr(cents))
    ensures ParseDecimal(CentsToStr(cents)) == Some(Dec(cents < 0, Abs(cents), 2))
  {
    var n := Abs(cents);
    var whole := NatToDigits(n / 100);
    var two := TwoDigits(n % 100);
    RenderedParses(whole, two, cents < 0);
    RenderedValue(n);
    RenderPartsChars(whole, two, cents < 0);
  }

  /** The whole units followed by the two cent digits spell the cents. */
  lemma RenderedValue(n: nat)
    ensures AllDigits(NatToDigits(n / 100) + TwoDigits(n % 100))
    ensures DigitsValue(NatToDigits(n / 100) + TwoDigits(n % 100)) == n
  {
    var whole := NatToDigits(n / 100);
    var two := TwoDigits(n % 100);
    DigitsValueAppendTwo(whole, two);
  }

  lemma DigitsValueAppendTwo(a: string, b: string)
    requires AllDigits(a) && AllDigits(b) && |b| == 2
    ensures AllDigits(a + b)
    ensures DigitsValue(a + b) == DigitsValue(a) * 100 + DigitsValue(b)
  {
    DigitsValueAppend(a, b);
    assert Pow10(|b|) == 100;
  }

  lemma {:induction false} DotIndexAfterDigits(a: string, b: string)
    requires AllDigits(a)
    ensures DotIndex(a + "." + b) == |a|
  {
    if a != [] {
      assert (a + "." + b)[1..] == a[1..] + "." + b;
      DotIndexAfterDigits(a[1..], b);
    }
  }

  /** A text with no surrounding whitespace is parsed as it stands. */
  lemma ParseTrimmed(s: string)
    requires s != [] && !IsSpace(s[0]) && !IsSpace(s[|s| - 1])
    ensures ParseDecimal(s) == ParseSigned(s)
  {
    StripUnchanged(s);
  }

  /** Digits, one '.', digits: the coefficient is all the digits read as one
      number and the scale is the number of digits after the point; "." alone
      is refused. */
  lemma UnsignedDotted(whole: string, frac: string, negative: bool)
    requires AllDigits(whole) && AllDigits(frac)
    ensures AllDigits(whole + frac)
    ensures ParseUnsigned(whole + "." + frac, negative)
            == if |whole| + |frac| >= 1 then Some(Dec(negative, DigitsValue(whole + frac), |frac|)) else None
  {
    AllDigitsConcat(whole, frac);
    var body := whole + "." + frac;
    DotIndexAfterDigits(whole, frac);
    assert body[..|whole|] == whole;
    assert body[|whole| + 1..] == frac;
  }

  /** `Decimal` of an optionally negative decimal text "whole.frac", for any
      number of digits on either side of the point: "12.345" is 12345 at
      scale 3, "0.004" is 4 at scale 3, "-.5" is -5 at scale 1. */
  lemma {:induction false} DottedParses(whole: string, frac: string, negative: bool)
    requires AllDigits(whole) && AllDigits(frac)
    ensures AllDigits(whole + frac)
    ensures ParseDecimal(Render(negative, whole, frac))
            == if |whole| + |frac| >= 1 then Some(Dec(negative, DigitsValue(whole + frac), |frac|)) else None
  {
    UnsignedDotted(whole, frac, negative);
    var body := whole + "." + frac;
    NumberChar(body[0]);
    NumberChar(body[|body| - 1]);
    if negative {
      MinusParses(body);
    } else {
      SignlessParses(body);
    }
  }

  /** A digit or the point is neither whitespace nor a sign. */
  lemma NumberChar(c: char)
    requires c == '.' || IsDigit(c)
    ensures !IsSpace(c) && c != '+' && c != '-'
  {
  }

  /** A text that starts with neither whitespace nor a sign and does not end
      in whitespace is read without a sign. */
  lemma SignlessParses(body: string)
    requires body != [] && !IsSpace(body[0]) && body[0] != '+' && body[0] != '-' && !IsSpace(body[|body| - 1])
    ensures ParseDecimal(body) == ParseUnsigned(body, false)
  {
    ParseTrimmed(body);
  }

  /** A leading '-' flips the sign only. */
  lemma MinusParses(body: string)
    requires body != [] && !IsSpace(body[|body| - 1])
    ensures ParseDecimal("-" + body) == ParseUnsigned(body, true)
  {
    var s := "-" + body;
    assert s[|s| - 1] == body[|body| - 1];
    ParseTrimmed(s);
    assert s[1..] == body;
  }

  lemma RenderedParses(whole: string, two: string, negative: bool)
    requires |whole| >= 1 && AllDigits(whole) && |two| == 2 && AllDigits(two)
    ensures AllDigits(whole + two)
    ensures ParseDecimal(Render(negative, whole, two)) == Some(Dec(negative, DigitsValue(whole + two), 2))
  {
    DottedParses(whole, two, negative);
  }

  lemma NoCommasUnchanged(s: string)
    requires RenderChars(s)
    ensures ReplaceCommas(s) == s
  {
  }

  /** The characters a rendered amount is made of. */
  predicate RenderChars(s: string) {
    forall i :: 0 <= i < |s| ==> IsDigit(s[i]) || s[i] == '.' || s[i] == '-'
  }

  lemma RenderPartsChars(whole: string, two: string, negative: bool)
    requires AllDigits(whole) && AllDigits(two)
    ensures RenderChars(Render(negative, whole, two))
  {
    var body := whole + "." + two;
    assert RenderChars(body) by {
      forall i | 0 <= i < |body| ensures IsDigit(body[i]) || body[i] == '.' || body[i] == '-' {
        if i < |whole| {
          assert body[i] == whole[i];
        } else if i > |whole| {
          assert body[i] == two[i - |whole| - 1];
        }
      }
    }
    if negative {
      var s := "-" + body;
      assert forall i :: 1 <= i < |s| ==> s[i] == body[i - 1];
    }
  }

  /** The rendered text has no comma, so the comma replacement leaves it alone. */
  lemma RenderedHasNoCommas(cents: int)
    ensures ReplaceCommas(CentsToStr(cents)) == CentsToStr(cents)
  {
    CentsToStrParses(cents);
    NoCommasUnchanged(CentsToStr(cents));
  }

  /** Round trip: rendering positive cents and parsing them back, in any
      supported currency, gives the same cents, for every amount whose cents
      fit the 28-digit decimal context (beyond it `quantize` raises in both
      directions). */
  lemma RenderThenParse(cents: int, currency: string)
    requires 0 < cents < QuantizeLimit && currency in SupportedCurrencies
    ensures ParseMoneyToCents(CentsToStr(cents), currency) == Ok(cents)
  {
    RenderedHasNoCommas(cents);
    CentsToStrParses(cents);
    assert ParseDecimal(CentsToStr(cents)) == Some(Dec(false, cents, 2));
    assert HalfUpCents(cents, 2) == cents;
  }

  lemma {:induction false} DotIndexDigits(w: string)
    requires AllDigits(w)
    ensures DotIndex(w) == |w|
  {
    if w != [] {
      DotIndexDigits(w[1..]);
    }
  }

  lemma UnsignedDigits(w: string, negative: bool)
    requires AllDigits(w)
    ensures ParseUnsigned(w, negative) == if |w| >= 1 then Some(Dec(negative, DigitsValue(w), 0)) else None
  {
    DotIndexDigits(w);
    assert w[..|w|] == w;
    var e: string := [];
    assert w + e == w;
  }

  /** A plain digit string reads as that whole number with no decimals. */
  lemma IntegerParses(w: string)
    requires |w| >= 1 && AllDigits(w)
    ensures ParseDecimal(w) == Some(Dec(false, DigitsValue(w), 0))
  {
    assert IsDigit(w[0]) && IsDigit(w[|w| - 1]);
    ParseTrimmed(w);
    assert !(w[0] == '+' || w[0] == '-');
    UnsignedDigits(w, false);
  }

  /** The digits-and-point body of a decimal text: digits, or digits, '.'
      and digits. */
  function Body(whole: string, dotted: bool, frac: string): string {
    if dotted then whole + "." + frac else whole
  }

  lemma UnsignedBody(whole: string, dotted: bool, frac: string, negative: bool)
    requires AllDigits(whole) && AllDigits(frac) && (!dotted ==> frac == [])
    ensures AllDigits(whole + frac)
    ensures ParseUnsigned(Body(whole, dotted, frac), negative)
            == if |whole| + |frac| >= 1 then Some(Dec(negative, DigitsValue(whole + frac), |frac|)) else None
  {
    if dotted {
      UnsignedDotted(whole, frac, negative);
    } else {
      UnsignedDigits(whole, negative);
      assert whole + frac == whole;
    }
  }

  /** A body starts and ends with a digit or the point. */
  lemma BodyEnds(whole: string, dotted: bool, frac: string)
    requires AllDigits(whole) && AllDigits(frac) && Body(whole, dotted, frac) != []
    ensures var b := Body(whole, dotted, frac);
            (b[0] == '.' || IsDigit(b[0])) && (b[|b| - 1] == '.' || IsDigit(b[|b| - 1]))
  {
    var b := Body(whole, dotted, frac);
    if dotted {
      assert b[0] == if whole == [] then '.' else whole[0];
      assert b[|b| - 1] == if frac == [] then '.' else frac[|frac| - 1];
    }
  }

  /** An optional sign before the body selects the sign of the result. */
  lemma SignedBody(sign: string, body: string)
    requires sign == "" || sign == "+" || sign == "-"
    requires body == [] || (body[0] != '+' && body[0] != '-')
    ensures ParseSigned(sign + body) == ParseUnsigned(body, sign == "-")
  {
    if sign == "" {
      assert sign + body == body;
    } else {
      assert (sign + body)[1..] == body;
    }
  }

  /** `Decimal` of every text in the modelled grammar: surrounding
      whitespace, an optional '+' or '-', then digits with at most one point.
      The coefficient is all the digits read as one number, the scale is the
      number of digits after the point, and the result is negative exactly
      for a '-' sign. A text without any digit is refused. */
  lemma SignedParses(before: string, sign: string, whole: string, dotted: bool, frac: string, after: string)
    requires forall k :: 0 <= k < |before| ==> IsSpace(before[k])
    requires forall k :: 0 <= k < |after| ==> IsSpace(after[k])
    requires sign == "" || sign == "+" || sign == "-"
    requires AllDigits(whole) && AllDigits(frac) && (!dotted ==> frac == [])
    ensures AllDigits(whole + frac)
    ensures ParseDecimal(before + (sign + Body(whole, dotted, frac)) + after)
            == if |whole| + |frac| >= 1 then Some(Dec(sign == "-", DigitsValue(whole + frac), |frac|)) else None
  {
    AllDigitsConcat(whole, frac);
    if sign + Body(whole, dotted, frac) == [] {
      BlankSignedParses(before, sign, whole, dotted, frac, after);
    } else {
      SignedTextParses(before, sign, whole, dotted, frac, after);
    }
  }

  lemma BlankSignedParses(before: string, sign: string, whole: string, dotted: bool, frac: string, after: string)
    requires forall k :: 0 <= k < |before| ==> IsSpace(before[k])
    requires forall k :: 0 <= k < |after| ==> IsSpace(after[k])
    requires !dotted ==> frac == []
    requires sign + Body(whole, dotted, frac) == []
    ensures whole == [] && frac == []
    ensures ParseDecimal(before + (sign + Body(whole, dotted, frac)) + after) == None
  {
    BlankParses(before, after);
    assert before + (sign + Body(whole, dotted, frac)) + after == before + after;
  }

  lemma SignedTextParses(before: string, sign: string, whole: string, dotted: bool, frac: string, after: string)
    requires forall k :: 0 <= k < |before| ==> IsSpace(before[k])
    requires forall k :: 0 <= k < |after| ==> IsSpace(after[k])
    requires sign == "" || sign == "+" || sign == "-"
    requires AllDigits(whole) && AllDigits(frac) && (!dotted ==> frac == [])
    requires sign + Body(whole, dotted, frac) != []
    ensures AllDigits(whole + frac)
    ensures ParseDecimal(before + (sign + Body(whole, dotted, frac)) + after)
            == if |whole| + |frac| >= 1 then Some(Dec(sign == "-", DigitsValue(whole + frac), |frac|)) else None
  {
    var body := Body(whole, dotted, frac);
    UnsignedBody(whole, dotted, frac, sign == "-");
    SignedTextEnds(sign, whole, dotted, frac);
    StrippedParses(before, sign + body, after);
    SignedBody(sign, body);
  }

  /** Whitespace alone is refused. */
  lemma BlankParses(before: string, after: string)
    requires forall k :: 0 <= k < |before| ==> IsSpace(before[k])
    requires forall k :: 0 <= k < |after| ==> IsSpace(after[k])
    ensures ParseDecimal(before + after) == None
  {
    var s := before + after;
    assert forall k :: 0 <= k < |s| ==> IsSpace(s[k]) by {
      assert forall k :: |before| <= k < |s| ==> s[k] == after[k - |before|];
    }
    StripAllSpace(s);
  }

  /** Surrounding whitespace is ignored. */
  lemma StrippedParses(before: string, t: string, after: string)
    requires forall k :: 0 <= k < |before| ==> IsSpace(before[k])
    requires forall k :: 0 <= k < |after| ==> IsSpace(after[k])
    requires t != [] && !IsSpace(t[0]) && !IsSpace(t[|t| - 1])
    ensures ParseDecimal(before + t + after) == ParseSigned(t)
  {
    StripSurrounded(before, t, after);
  }

  /** A signed text neither starts nor ends with whitespace, and its body
      does not start with a sign. */
  lemma SignedTextEnds(sign: string, whole: string, dotted: bool, frac: string)
    requires sign == "" || sign == "+" || sign == "-"
    requires AllDigits(whole) && AllDigits(frac)
    requires sign + Body(whole, dotted, frac) != []
    ensures var body := Body(whole, dotted, frac);
            var t := sign + body;
            !IsSpace(t[0]) && !IsSpace(t[|t| - 1]) && (body == [] || (body[0] != '+' && body[0] != '-'))
  {
    var body := Body(whole, dotted, frac);
    var t := sign + body;
    SignNotSpace();
    if body != [] {
      BodyEnds(whole, dotted, frac);
      NumberChar(body[0]);
      NumberChar(body[|body| - 1]);
    }
    assert t[0] == if sign == "" then body[0] else sign[0];
    assert t[|t| - 1] == if body == [] then sign[0] else body[|body| - 1];
  }

  lemma SignNotSpace()
    ensures !IsSpace('+') && !IsSpace('-')
  {
  }

  // Worked examples: each fact on a literal in its own small lemma.

  lemma RenderTwelveFiftyParts()
    ensures CentsToStr(1250) == NatToDigits(12) + "." + TwoDigits(50)
  {
  }

  lemma TwelveDigits()
    ensures NatToDigits(12) == "12"
  {
  }

  lemma FiftyDigits()
    ensures TwoDigits(50) == "50"
  {
  }

  lemma RenderTwelveFifty()
    ensures CentsToStr(1250) == "12.50"
  {
    RenderTwelveFiftyParts();
    TwelveDigits();
    FiftyDigits();
  }

  lemma RenderMinusFiveParts()
    ensures CentsToStr(-5) == "-" + NatToDigits(0) + "." + TwoDigits(5)
  {
  }

  lemma RenderMinusFive()
    ensures CentsToStr(-5) == "-0.05"
  {
    RenderMinusFiveParts();
    assert NatToDigits(0) == "0";
    assert TwoDigits(5) == "05";
  }

  lemma RenderZero()
    ensures CentsToStr(0) == "0.00"
  {
    assert CentsToStr(0) == NatToDigits(0) + "." + TwoDigits(0);
    assert NatToDigits(0) == "0";
    assert TwoDigits(0) == "00";
  }

  lemma RenderThousandsParts()
    ensures CentsToStr(12345) == NatToDigits(123) + "." + TwoDigits(45)
  {
  }

  lemma RenderThousands()
    ensures CentsToStr(12345) == "123.45"
  {
    RenderThousandsParts();
    assert NatToDigits(1) == "1";
    assert NatToDigits(12) == NatToDigits(1) + "2";
    assert NatToDigits(123) == NatToDigits(12) + "3";
    assert TwoDigits(45) == "45";
  }

  lemma ParseDotTwelveFifty()
    ensures ParseMoneyToCents("12.50", "EUR") == Ok(1250)
  {
    RenderTwelveFifty();
    RenderThenParse(1250, "EUR");
  }

  lemma CommaTwelveFifty()
    ensures ReplaceCommas("12,50") == "12.50"
  {
  }

  /** "12,50" reads as 1250 cents, as "12.50" does. */
  lemma ParseCommaTwelveFifty()
    ensures ParseMoneyToCents("12,50", "EUR") == Ok(1250)
  {
    ParseDotTwelveFifty();
    CommaIsDot("12,50", "EUR");
    CommaTwelveFifty();
  }

  lemma ZeroDigits()
    ensures ReplaceCommas("0") == "0" && AllDigits("0") && DigitsValue("0") == 0
  {
  }

  /** A zero amount is refused. */
  lemma ParseZeroRejected()
    ensures ParseMoneyToCents("0", "EUR") == Err(NonPositiveAmount)
  {
    ZeroDigits();
    IntegerParses("0");
  }

  /** An unknown currency is refused before the amount is looked at. */
  lemma ParseUnknownCurrency()
    ensures ParseMoneyToCents("5", "XYZ") == Err(UnsupportedCurrency)
  {
    assert "XYZ" !in SupportedCurrencies;
  }

  /** Zeros alone denote 0. */
  lemma {:induction false} ZerosValue(z: string)
    requires forall i :: 0 <= i < |z| ==> z[i] == '0'
    ensures AllDigits(z) && DigitsValue(z) == 0
  {
    if z != [] {
      ZerosValue(z[..|z| - 1]);
    }
  }

  /** "0.00d" is the decimal d / 1000. */
  lemma ThousandthsParse(amount: string, digit: char)
    requires IsDigit(digit) && amount == "0.00" + [digit]
    ensures ReplaceCommas(amount) == amount
    ensures ParseDecimal(amount) == Some(Dec(false, DigitValue(digit), 3))
  {
    NoCommasUnchanged(amount);
    var frac := "00" + [digit];
    assert amount == Render(false, "0", frac);
    DottedParses("0", frac, false);
    ThousandthsDigits(digit);
  }

  lemma ThousandthsDigits(digit: char)
    requires IsDigit(digit)
    ensures "0" + ("00" + [digit]) == "000" + [digit]
    ensures AllDigits("000" + [digit]) && DigitsValue("000" + [digit]) == DigitValue(digit)
  {
    ZerosValue("000");
    DigitsValueAppend("000", [digit]);
    assert [digit][..0] == [];
  }

  /** Thousandths of a unit below ten: half a cent or more rounds up to one
      cent, less gives 0 cents. */
  lemma ThousandthsCents(c: nat)
    requires c < 10
    ensures HalfUpCents(c, 3) == if c >= 5 then 1 else 0
  {
    assert Pow10(1) == 10;
  }

  /** A parsed positive amount whose cents fit is accepted with those cents. */
  lemma AcceptedCents(amount: string, currency: string, d: Dec)
    requires currency in SupportedCurrencies && ParseDecimal(ReplaceCommas(amount)) == Some(d) && Positive(d)
    requires HalfUpCents(d.coefficient, d.scale) < QuantizeLimit
    ensures ParseMoneyToCents(amount, currency) == Ok(HalfUpCents(d.coefficient, d.scale))
  {
  }

  /** "0.000" is not positive; "0.001" to "0.004" are accepted as 0 cents,
      because the `> 0` check comes before rounding; "0.005" to "0.009"
      round half-up to one cent. */
  lemma ParseThousandths(amount: string, digit: char)
    requires IsDigit(digit) && amount == "0.00" + [digit]
    ensures ParseMoneyToCents(amount, "EUR")
            == if digit == '0' then Err(NonPositiveAmount) else Ok(if DigitValue(digit) >= 5 then 1 else 0)
  {
    ThousandthsParse(amount, digit);
    var c := DigitValue(digit);
    if c > 0 {
      ThousandthsCents(c);
      AcceptedCents(amount, "EUR", Dec(false, c, 3));
    }
  }

  lemma ParseHalfCentRoundsUp()
    ensures ParseMoneyToCents("0.005", "EUR") == Ok(1)
  {
    ParseThousandths("0.005", '5');
  }

  lemma ParseBelowHalfCent()
    ensures ParseMoneyToCents("0.004", "EUR") == Ok(0)
  {
    ParseThousandths("0.004", '4');
  }

  /** A thousands separator makes the amount invalid. */
  lemma ParseThousandsRejected()
    ensures ParseMoneyToCents("1,000.50", "EUR") == Err(InvalidAmount)
  {
    assert ReplaceCommas("1,000.50") == "1.000.50";
    TwoSeparatorsRejected("1.000.50", 1, 5);
  }

  // ---------------------------------------------------------------------------
  // Sums

  /** The arithmetic sum of a sequence of cents. */
  function Sum(values: seq<int>): int {
    if values == [] then 0 else Sum(values[..|values| - 1]) + values[|values| - 1]
  }

  lemma {:induction false} SumAppend(a: seq<int>, b: seq<int>)
    ensures Sum(a + b) == Sum(a) + Sum(b)
  {
    if b == [] {
      assert a + b == a;
    } else {
      assert (a + b)[..|a + b| - 1] == a + b[..|b| - 1];
      SumAppend(a, b[..|b| - 1]);
    }
  }

  /** `sum_cents(values)`: accumulates `total` over the values. */
  method SumCents(values: seq<int>) returns (total: int)
    ensures total == Sum(values)
    ensures values == [] ==> total == 0
  {
    total := 0;
    for i := 0 to |values|
      invariant total == Sum(values[..i])
    {
      assert values[..i + 1][..i] == values[..i];
      total := total + values[i];
    }
    assert values[..|values|] == values;
  }
}
