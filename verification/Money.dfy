/**
 Exact two-place money (money.py).

 An amount is a whole number of cents. A decimal numeral is a coefficient scaled by a power of ten, and every
 amount is quantized to cents on the way in, half-way cases rounding away from zero.
 */
module Money {
  import opened Wrappers

  type Cents = int

  /** The number `coefficient / 10^places`. */
  datatype Decimal = Decimal(coefficient: int, places: nat)

  function Pow10(n: nat): (p: int)
    ensures p >= 1
  {
    if n == 0 then 1 else 10 * Pow10(n - 1)
  }

  function Abs(x: int): nat {
    if x < 0 then -x else x
  }

  /** `Decimal.quantize(Decimal("0.01"), rounding=ROUND_HALF_UP)`. */
  function Quantize(d: Decimal): Cents {
    var unit := Pow10(d.places);
    var magnitude := (200 * Abs(d.coefficient) + unit) / (2 * unit);
    if d.coefficient < 0 then -magnitude else magnitude
  }

  /** `q` cents is within half a cent of `d`, and a half-way case lies on the side away from zero. */
  ghost predicate NearestHalfUp(q: Cents, d: Decimal) {
    var unit := Pow10(d.places);
    var error := 2 * (Abs(q) * unit - 100 * Abs(d.coefficient));
    && -unit < error <= unit
    && (q < 0 ==> d.coefficient < 0)
    && (q > 0 ==> d.coefficient > 0)
  }

  /** Quantizing is exactly rounding to the nearest cent, half-way cases away from zero. */
  lemma QuantizeIsNearest(d: Decimal, q: Cents)
    ensures q == Quantize(d) <==> NearestHalfUp(q, d)
  {
    var unit, scaled, k := Pow10(d.places), 100 * Abs(d.coefficient), Abs(q);
    NearestQuotient(scaled, unit, k);
    NearestQuotient(scaled, unit, 0);
    assert 2 * scaled + unit == 200 * Abs(d.coefficient) + unit;
    if d.coefficient == 0 {
      assert Quantize(d) == 0;
    }
  }

  /** Rounding a quotient half-up is the same as being within half a unit, half-way cases upwards. */
  lemma NearestQuotient(scaled: nat, unit: int, k: nat)
    requires unit > 0
    ensures k == (2 * scaled + unit) / (2 * unit) <==> -unit < 2 * (k * unit - scaled) <= unit
  {
    QuotientBracket(2 * scaled + unit, 2 * unit, k);
    assert 2 * unit * k == 2 * (k * unit);
  }

  /** `n / m` is the only natural `k` with `k * m <= n < (k + 1) * m`. */
  lemma QuotientBracket(n: nat, m: int, k: nat)
    requires m > 0
    ensures k == n / m <==> m * k <= n < m * k + m
  {
    var r := n / m;
    assert n == m * r + n % m;
    if k < r {
      assert m * r >= m * (k + 1) by { ProductMonotone(m, k + 1, r); }
    } else if k > r {
      assert m * k >= m * (r + 1) by { ProductMonotone(m, r + 1, k); }
    }
  }

  lemma ProductMonotone(m: int, a: int, b: int)
    requires m >= 0 && a <= b
    ensures m * a <= m * b
  {
    assert m * b - m * a == m * (b - a);
  }

  /** `percent`% of an amount, rounded half-up: the exact quotient has four decimal places. */
  function PercentageOf(amount: Cents, percent: int): Cents {
    Quantize(Decimal(amount * percent, 4))
  }

  /**
   For a percentage from 0 to 100 of a subtotal that is not negative: the discount lies between zero and the
   subtotal, it is at most half a cent from the exact share, and both it and what remains grow with the subtotal.
   */
  lemma PercentageBounds(small: Cents, large: Cents, percent: int)
    requires 0 <= small <= large && 0 <= percent <= 100
    ensures 0 <= PercentageOf(small, percent) <= small
    ensures -100 < 200 * PercentageOf(small, percent) - 2 * (small * percent) <= 100
    ensures PercentageOf(small, percent) <= PercentageOf(large, percent)
    ensures small - PercentageOf(small, percent) <= large - PercentageOf(large, percent)
  {
    HundredthBounds(small, large, percent);
    PercentageRounds(small, percent);
    PercentageRounds(large, percent);
  }

  lemma HundredthBounds(small: Cents, large: Cents, percent: int)
    requires 0 <= small <= large && 0 <= percent <= 100
    ensures 0 <= small * percent <= large * percent
    ensures 0 <= Hundredth(small * percent) <= small
    ensures -100 < 200 * Hundredth(small * percent) - 2 * (small * percent) <= 100
    ensures 0 <= Hundredth(large * percent) - Hundredth(small * percent) <= large - small
  {
    ShareBounds(small, percent);
    ShareBounds(large - small, percent);
    Distribute(small, large, percent);
    HundredthSteps(small * percent, (large - small) * percent, large - small);
    HundredthSteps(0, small * percent, small);
  }

  lemma Distribute(a: int, b: int, m: int)
    ensures b * m == a * m + (b - a) * m
  {
  }

  /** A hundredth of `x`, rounded half-up. */
  function Hundredth(x: nat): nat {
    (x + 50) / 100
  }

  lemma HundredthSteps(x: nat, more: nat, whole: nat)
    requires more <= 100 * whole
    ensures Hundredth(x) <= Hundredth(x + more) <= Hundredth(x) + whole
    ensures -100 < 200 * Hundredth(x + more) - 2 * (x + more) <= 100
  {
  }

  lemma PercentageRounds(amount: Cents, percent: int)
    requires 0 <= amount * percent
    ensures PercentageOf(amount, percent) == Hundredth(amount * percent)
  {
    var x := amount * percent;
    assert Pow10(4) == 10000 by { assert Pow10(3) == 1000 by { assert Pow10(2) == 100; } }
    assert Abs(x) == x;
    assert (200 * x + 10000) / 20000 == (x + 50) / 100;
  }

  lemma ShareBounds(amount: Cents, percent: int)
    requires 0 <= amount && 0 <= percent <= 100
    ensures 0 <= amount * percent <= 100 * amount
  {
    ProductMonotone(amount, 0, percent);
    ProductMonotone(amount, percent, 100);
  }

  // -- numerals ---------------------------------------------------------------

  function DigitChar(d: int): char
    requires 0 <= d < 10
  {
    ('0' as int + d) as char
  }

  predicate IsDigit(c: char) {
    '0' <= c <= '9'
  }

  predicate AllDigits(s: string) {
    forall i :: 0 <= i < |s| ==> IsDigit(s[i])
  }

  /** The number a digit string denotes; the empty string denotes zero. */
  function NumberOf(s: string): (n: int)
    requires AllDigits(s)
    ensures n >= 0
  {
    if s == [] then 0 else 10 * NumberOf(s[..|s| - 1]) + (s[|s| - 1] as int - '0' as int)
  }

  /** The decimal digits of `n`, without a leading zero except for zero itself. */
  function Digits(n: nat): (s: string)
    ensures s != [] && AllDigits(s) && NumberOf(s) == n
  {
    if n < 10 then
      var s := [DigitChar(n)];
      assert s[..0] == [];
      s
    else
      var front := Digits(n / 10);
      var s := front + [DigitChar(n % 10)];
      assert s[..|s| - 1] == front;
      s
  }

  /** The last `width` decimal digits of `n`, zero-padded. */
  function Padded(n: nat, width: nat): (s: string)
    requires n < Pow10(width)
    ensures |s| == width && AllDigits(s) && NumberOf(s) == n
  {
    if width == 0 then [] else
    assert n / 10 < Pow10(width - 1);
    var front := Padded(n / 10, width - 1);
    var s := front + [DigitChar(n % 10)];
    assert s[..|s| - 1] == front;
    s
  }

  lemma TimesTen(x: int, p: int)
    ensures 10 * (x * p) == x * (10 * p)
  {
  }

  lemma LastOfConcat(a: string, b: string)
    requires b != ""
    ensures (a + b)[..|a + b| - 1] == a + b[..|b| - 1] && (a + b)[|a + b| - 1] == b[|b| - 1]
  {
  }

  lemma {:induction false} NumberOfConcat(a: string, b: string)
    requires AllDigits(a) && AllDigits(b)
    ensures AllDigits(a + b)
    ensures NumberOf(a + b) == NumberOf(a) * Pow10(|b|) + NumberOf(b)
  {
    if b == [] {
      assert a + b == a;
    } else {
      var front := b[..|b| - 1];
      NumberOfConcat(a, front);
      LastOfConcat(a, b);
      TimesTen(NumberOf(a), Pow10(|front|));
    }
  }

  // -- amount strings ---------------------------------------------------------

  /** `f"{value:f}"` of a quantized amount: a sign, whole units, a point, two digits. */
  function FormatAmount(c: Cents): string {
    if c < 0 then "-" + FormatUnsigned(-c) else FormatUnsigned(c)
  }

  function FormatUnsigned(n: nat): string {
    assert Pow10(2) == 100 by { assert Pow10(1) == 10; }
    Digits(n / 100) + "." + Padded(n % 100, 2)
  }

  function FirstPoint(s: string): (i: nat)
    ensures i <= |s|
    ensures i < |s| ==> s[i] == '.'
    ensures forall j :: 0 <= j < i ==> s[j] != '.'
  {
    if s == [] || s[0] == '.' then 0 else 1 + FirstPoint(s[1..])
  }

  /** A plain decimal numeral: an optional sign, digits, and optionally a point and more digits. */
  function ParseDecimal(s: string): Option<Decimal> {
    if s != [] && s[0] == '-' then
      match ParseUnsigned(s[1..])
      case None => None
      case Some(d) => Some(Decimal(-d.coefficient, d.places))
    else
      ParseUnsigned(if s != [] && s[0] == '+' then s[1..] else s)
  }

  function ParseUnsigned(body: string): Option<Decimal> {
    var point := FirstPoint(body);
    var whole, fraction := body[..point], if point < |body| then body[point + 1..] else [];
    if whole + fraction != [] && AllDigits(whole) && AllDigits(fraction) then
      NumberOfConcat(whole, fraction);
      Some(Decimal(NumberOf(whole + fraction), |fraction|))
    else None
  }

  /** `amount_of` on a string: parse, then quantize. */
  function AmountOf(s: string): Option<Cents> {
    match ParseDecimal(s)
    case None => None
    case Some(d) => Some(Quantize(d))
  }

  lemma PointAfterDigits(whole: string, fraction: string)
    requires AllDigits(whole)
    ensures FirstPoint(whole + "." + fraction) == |whole|
  {
    var body := whole + "." + fraction;
    assert body[|whole|] == '.';
    assert forall j :: 0 <= j < |whole| ==> body[j] == whole[j] && IsDigit(whole[j]);
  }

  lemma ParseUnsignedParts(whole: string, fraction: string)
    requires AllDigits(whole) && AllDigits(fraction) && whole != []
    ensures AllDigits(whole + fraction)
    ensures ParseUnsigned(whole + "." + fraction) == Some(Decimal(NumberOf(whole + fraction), |fraction|))
  {
    var body := whole + "." + fraction;
    PointAfterDigits(whole, fraction);
    NumberOfConcat(whole, fraction);
    assert body[..|whole|] == whole;
    assert body[|whole| + 1..] == fraction;
  }

  lemma FormatUnsignedParses(n: nat)
    ensures ParseUnsigned(FormatUnsigned(n)) == Some(Decimal(n, 2))
    ensures FormatUnsigned(n) != [] && IsDigit(FormatUnsigned(n)[0])
  {
    assert Pow10(2) == 100 by { assert Pow10(1) == 10; }
    var whole, fraction := Digits(n / 100), Padded(n % 100, 2);
    ParseUnsignedParts(whole, fraction);
    NumberOfConcat(whole, fraction);
    assert FormatUnsigned(n)[0] == whole[0];
  }

  /** Reading a formatted amount gives the amount back, whatever its size or sign. */
  lemma AmountRoundTrip(c: Cents)
    ensures AmountOf(FormatAmount(c)) == Some(c)
  {
    FormatUnsignedParses(Abs(c));
    assert c < 0 ==> FormatAmount(c)[1..] == FormatUnsigned(-c);
    CentsAreQuantized(c);
  }

  lemma {:induction false} DigitsHaveNoLeadingZero(n: nat)
    ensures n > 0 ==> Digits(n)[0] != '0'
    ensures n == 0 ==> Digits(n) == "0"
  {
    if n >= 10 {
      DigitsHaveNoLeadingZero(n / 10);
    }
  }

  /** The spelling of an amount: whole units without a leading zero, a point, exactly two digits, a sign if negative. */
  lemma AmountIsSpelled(c: Cents) returns (whole: string, cents: string)
    ensures FormatAmount(c) == (if c < 0 then "-" else "") + whole + "." + cents
    ensures AllDigits(whole) && AllDigits(cents) && |cents| == 2
    ensures whole == "0" || (whole != [] && whole[0] != '0')
    ensures 100 * NumberOf(whole) + NumberOf(cents) == if c < 0 then -c else c
  {
    assert Pow10(2) == 100 by { assert Pow10(1) == 10; }
    var n := Abs(c);
    whole, cents := Digits(n / 100), Padded(n % 100, 2);
    DigitsHaveNoLeadingZero(n / 100);
    assert FormatUnsigned(n) == whole + "." + cents;
    SignedSpelling(c < 0, whole, cents);
  }

  lemma SignedSpelling(negative: bool, whole: string, cents: string)
    ensures (if negative then "-" else "") + whole + "." + cents
         == if negative then "-" + (whole + "." + cents) else whole + "." + cents
  {
  }

  lemma CentsAreQuantized(c: Cents)
    ensures Quantize(Decimal(c, 2)) == c
  {
    assert Pow10(2) == 100 by { assert Pow10(1) == 10; }
    assert (200 * Abs(c) + 100) / 200 == Abs(c);
  }

  /** Two amounts never share a spelling. */
  lemma FormatAmountInjective(a: Cents, b: Cents)
    requires FormatAmount(a) == FormatAmount(b)
    ensures a == b
  {
    AmountRoundTrip(a);
    AmountRoundTrip(b);
  }

  // -- which texts are amounts ------------------------------------------------

  /** Digits, and perhaps a point and more digits, with a digit somewhere. */
  ghost predicate Plain(body: string, whole: string, fraction: string, pointed: bool) {
    && body == (if pointed then whole + "." + fraction else whole)
    && AllDigits(whole) && AllDigits(fraction) && (!pointed ==> fraction == "")
    && (whole != "" || fraction != "")
  }

  lemma PlainIsRead(body: string, whole: string, fraction: string, pointed: bool)
    requires Plain(body, whole, fraction, pointed)
    ensures AllDigits(whole + fraction)
    ensures ParseUnsigned(body) == Some(Decimal(NumberOf(whole + fraction), |fraction|))
  {
    NumberOfConcat(whole, fraction);
    if pointed {
      PointAfterDigits(whole, fraction);
      PointSplits(whole, fraction);
    } else {
      NoPointInDigits(whole);
      assert body[..|whole|] == whole;
    }
  }

  lemma PointSplits(whole: string, fraction: string)
    ensures (whole + "." + fraction)[..|whole|] == whole
    ensures (whole + "." + fraction)[|whole| + 1..] == fraction
  {
  }

  lemma NoPointInDigits(s: string)
    requires AllDigits(s)
    ensures FirstPoint(s) == |s|
  {
    assert forall i :: 0 <= i < |s| ==> IsDigit(s[i]);
  }

  lemma SignIsRead(sign: string, body: string)
    requires sign in {"", "+", "-"} && body != "" && (IsDigit(body[0]) || body[0] == '.')
    ensures ParseDecimal(sign + body)
         == match ParseUnsigned(body)
            case None => None
            case Some(d) => Some(Decimal(if sign == "-" then -d.coefficient else d.coefficient, d.places))
  {
    if sign == "" {
      assert sign + body == body;
    } else {
      assert (sign + body)[1..] == body;
    }
  }

  /** A plain numeral, signed or not, is read as the nearest cents of the number it spells. */
  lemma AmountIsRead(sign: string, body: string, whole: string, fraction: string, pointed: bool)
    requires sign in {"", "+", "-"} && Plain(body, whole, fraction, pointed)
    ensures AmountOf(sign + body).Some? && AllDigits(whole + fraction)
    ensures var n := NumberOf(whole + fraction);
            NearestHalfUp(AmountOf(sign + body).value, Decimal(if sign == "-" then -n else n, |fraction|))
  {
    NumberOfConcat(whole, fraction);
    var n := NumberOf(whole + fraction);
    PlainIsDecimal(sign, body, whole, fraction, pointed);
    DecimalIsQuantized(sign + body, Decimal(if sign == "-" then -n else n, |fraction|));
  }

  lemma PlainIsDecimal(sign: string, body: string, whole: string, fraction: string, pointed: bool)
    requires sign in {"", "+", "-"} && Plain(body, whole, fraction, pointed)
    ensures AllDigits(whole + fraction)
    ensures var n := NumberOf(whole + fraction);
            ParseDecimal(sign + body) == Some(Decimal(if sign == "-" then -n else n, |fraction|))
  {
    PlainIsRead(body, whole, fraction, pointed);
    PlainStarts(body, whole, fraction, pointed);
    SignIsRead(sign, body);
  }

  lemma DecimalIsQuantized(s: string, d: Decimal)
    requires ParseDecimal(s) == Some(d)
    ensures AmountOf(s).Some? && NearestHalfUp(AmountOf(s).value, d)
  {
    QuantizeIsNearest(d, Quantize(d));
  }

  lemma PlainStarts(body: string, whole: string, fraction: string, pointed: bool)
    requires Plain(body, whole, fraction, pointed)
    ensures body != "" && (IsDigit(body[0]) || body[0] == '.')
  {
    if whole != "" {
      assert body[0] == whole[0];
    }
  }

  /** And nothing else is an amount. */
  lemma AmountIsPlain(s: string) returns (sign: string, body: string, whole: string, fraction: string, pointed: bool)
    requires AmountOf(s).Some?
    ensures s == sign + body && sign in {"", "+", "-"} && Plain(body, whole, fraction, pointed)
  {
    sign, body := SignSplits(s);
    whole, fraction, pointed := UnsignedIsPlain(body);
  }

  lemma SignSplits(s: string) returns (sign: string, body: string)
    requires ParseDecimal(s).Some?
    ensures s == sign + body && sign in {"", "+", "-"} && ParseUnsigned(body).Some?
  {
    if s != "" && s[0] == '-' {
      sign, body := "-", s[1..];
    } else if s != "" && s[0] == '+' {
      sign, body := "+", s[1..];
    } else {
      sign, body := "", s;
    }
  }

  lemma UnsignedIsPlain(body: string) returns (whole: string, fraction: string, pointed: bool)
    requires ParseUnsigned(body).Some?
    ensures Plain(body, whole, fraction, pointed)
  {
    var i := FirstPoint(body);
    whole, pointed := body[..i], i < |body|;
    fraction := if pointed then body[i + 1..] else "";
    if pointed {
      assert body == body[..i] + [body[i]] + body[i + 1..] && [body[i]] == ".";
    } else {
      assert body == whole;
    }
    assert whole + fraction != "";
  }
}
