/**
 * Monetary amounts of the service layer (internal/service/user.go):
 * parseAmount, formatAmount and calculateNewBalance, on exact decimals
 * instead of float64.
 *
 * A parsed amount is units / 10^scale, with scale the number of digits written
 * after the '.', so "10.5" is Decimal(105, 1) and "10.50" is Decimal(1050, 2):
 * the same value. formatAmount renders exactly two fraction digits, rounding
 * half away from zero, so every balance the service writes has scale 2 (whole cents).
 */
module Amounts {
  import opened Wrappers
  import opened Numerals

  datatype Decimal = Decimal(units: int, scale: nat)

  /** The number a decimal stands for. */
  ghost function Value(d: Decimal): real {
    d.units as real / Pow10(d.scale) as real
  }

  function Abs(x: int): nat {
    if x < 0 then -x else x
  }

  function Max(a: nat, b: nat): nat {
    if a < b then b else a
  }

  // ---------------------------------------------------------------------------
  // Parsing

  /** A leading '+' or '-' is a sign; what follows it is the numeral proper. */
  function Unsigned(s: string): (body: string)
    ensures |body| <= |s|
  {
    if |s| > 0 && (s[0] == '+' || s[0] == '-') then s[1..] else s
  }

  predicate HasMinus(s: string) {
    |s| > 0 && s[0] == '-'
  }

  /**
   * The literals the parser accepts, described by their characters: after an
   * optional sign, only digits and at most one '.', and at least one digit.
   */
  ghost predicate IsDecimalLiteral(s: string) {
    var body := Unsigned(s);
    && CountDots(body) <= 1
    && (forall i :: 0 <= i < |body| ==> IsDigit(body[i]) || body[i] == '.')
    && (exists i :: 0 <= i < |body| && IsDigit(body[i]))
  }

  /**
   * parseAmount: the plain decimal literals that strconv.ParseFloat accepts,
   * read exactly. The digits after the '.' set the scale.
   */
  function ParseAmount(s: string): (r: Option<Decimal>)
    ensures r.Some? ==> r.value.scale < |s|
    ensures r.Some? && HasMinus(s) ==> r.value.units <= 0
    ensures r.Some? && !HasMinus(s) ==> r.value.units >= 0
  {
    var parts := SplitDot(Unsigned(s));
    if |parts| > 2 then None
    else
      var whole := parts[0];
      var frac := if |parts| == 2 then parts[1] else "";
      if AllDigits(whole) && AllDigits(frac) && |whole| + |frac| > 0 then
        assert |s| >= |Unsigned(s)| == |whole| + |frac| + |parts| - 1 by {
          JoinSplitDot(Unsigned(s));
        }
        var n := DigitsValue(whole) * Pow10(|frac|) + DigitsValue(frac);
        Some(Decimal(if HasMinus(s) then -n else n, |frac|))
      else None
  }

  lemma NoDotInDigits(s: string)
    requires AllDigits(s)
    ensures '.' !in s
  {
  }

  /** The parser accepts exactly the decimal literals. */
  lemma ParseAmountAccepts(s: string)
    ensures ParseAmount(s).Some? <==> IsDecimalLiteral(s)
  {
    var body := Unsigned(s);
    var parts := SplitDot(body);
    JoinSplitDot(body);
    if |parts| == 1 {
      assert body == parts[0];
      assert AllDigits(parts[0]) && |parts[0]| > 0 <==> IsDecimalLiteral(s) by {
        if IsDecimalLiteral(s) {
          forall i | 0 <= i < |body| ensures IsDigit(body[i]) {
            assert body[i] != '.';
          }
        }
      }
    } else if |parts| == 2 {
      var whole, frac := parts[0], parts[1];
      assert body == whole + "." + frac;
      if AllDigits(whole) && AllDigits(frac) && |whole| + |frac| > 0 {
        forall i | 0 <= i < |body| ensures IsDigit(body[i]) || body[i] == '.' {
          if i < |whole| { assert body[i] == whole[i]; }
          else if i > |whole| { assert body[i] == frac[i - |whole| - 1]; }
        }
        if |whole| > 0 { assert body[0] == whole[0]; }
        else { assert body[1] == frac[0]; }
      }
      if IsDecimalLiteral(s) {
        forall i | 0 <= i < |whole| ensures IsDigit(whole[i]) {
          assert whole[i] == body[i];
        }
        forall i | 0 <= i < |frac| ensures IsDigit(frac[i]) {
          assert frac[i] == body[|whole| + 1 + i];
        }
        var j :| 0 <= j < |body| && IsDigit(body[j]);
        assert j != |whole|;
      }
    }
  }

  // ---------------------------------------------------------------------------
  // Formatting

  /**
   * The amount in whole cents, rounded half away from zero; exact when the
   * amount has at most two fraction digits.
   */
  function RoundedCents(d: Decimal): (c: int)
    ensures d.units >= 0 ==> c >= 0
    ensures d.units <= 0 ==> c <= 0
  {
    if d.scale <= 2 then d.units * Pow10(2 - d.scale)
    else
      var k := Pow10(d.scale - 2);
      var m := (Abs(d.units) + k / 2) / k;
      if d.units < 0 then -m else m
  }

  /** Text with exactly two digits after a '.' that ends the integer part. */
  predicate HasTwoFractionDigits(t: string) {
    |t| >= 4 && t[|t| - 3] == '.' && IsDigit(t[|t| - 2]) && IsDigit(t[|t| - 1])
  }

  /**
   * formatAmount, Go's "%.2f": an optional '-', the integer part without
   * leading zeros, '.', and exactly two digits. A negative amount keeps its
   * sign even when it rounds to zero ("-0.00"). A zero is never negative here,
   * so the "-0.00" that %.2f prints for a float64 negative zero has no
   * counterpart.
   */
  function FormatAmount(d: Decimal): (t: string)
    ensures HasTwoFractionDigits(t)
    ensures '.' in t && AllDigits(t[|t| - 2..])
  {
    var m := Abs(RoundedCents(d));
    var t := (if d.units < 0 then "-" else "") + NatToDecimal(m / 100) + "." + TwoDigits(m % 100);
    assert t[|t| - 2..] == TwoDigits(m % 100);
    assert t[|t| - 3] == '.';
    t
  }

  /** Whatever is formatted parses back as the rounded number of cents. */
  lemma {:induction false} FormatThenParse(d: Decimal)
    ensures ParseAmount(FormatAmount(d)) == Some(Decimal(RoundedCents(d), 2))
  {
    var c := RoundedCents(d);
    var m := Abs(c);
    var whole, frac := NatToDecimal(m / 100), TwoDigits(m % 100);
    var t := FormatAmount(d);
    FormatPieces(d);
    var parts := SplitDot(Unsigned(t));
    assert parts[0] == whole && parts[1] == frac;
    assert Pow10(|frac|) == 100;
    CentsSplit(m, DigitsValue(whole), DigitsValue(frac));
    var n := DigitsValue(whole) * Pow10(|frac|) + DigitsValue(frac);
    assert n == m;
    assert ParseAmount(t) == Some(Decimal(if HasMinus(t) then -n else n, 2));
    assert (if d.units < 0 then -(m as int) else m as int) == c;
  }

  /** The formatted text, sign aside, splits at its '.' into the whole cents' digits and two more. */
  lemma FormatPieces(d: Decimal)
    ensures var m := Abs(RoundedCents(d));
      && SplitDot(Unsigned(FormatAmount(d))) == [NatToDecimal(m / 100), TwoDigits(m % 100)]
      && (HasMinus(FormatAmount(d)) <==> d.units < 0)
  {
    var m := Abs(RoundedCents(d));
    var whole, frac := NatToDecimal(m / 100), TwoDigits(m % 100);
    var body := whole + "." + frac;
    var t := FormatAmount(d);
    assert t == (if d.units < 0 then "-" else "") + body;
    assert body[0] == whole[0] && IsDigit(whole[0]);
    assert Unsigned(t) == body by {
      if d.units < 0 { assert t == "-" + body && t[1..] == body; }
    }
    NoDotInDigits(whole);
    NoDotInDigits(frac);
    SplitDotOne(whole, frac);
  }

  lemma CentsSplit(m: nat, q: nat, r: nat)
    requires q == m / 100 && r == m % 100
    ensures q * 100 + r == m
  {
  }

  /** A whole number of cents survives format-then-parse unchanged. */
  lemma FormatThenParseCents(c: int)
    ensures ParseAmount(FormatAmount(Decimal(c, 2))) == Some(Decimal(c, 2))
  {
    FormatThenParse(Decimal(c, 2));
  }

  /** Every parsed literal is reproduced by formatting it and parsing the text again. */
  lemma ParseFormatParse(s: string)
    requires ParseAmount(s).Some? && ParseAmount(s).value.scale == 2
    ensures ParseAmount(FormatAmount(ParseAmount(s).value)) == ParseAmount(s)
  {
    FormatThenParseCents(ParseAmount(s).value.units);
  }

  lemma Rescale(d: Decimal, s: nat)
    requires s >= d.scale
    ensures Value(Decimal(d.units * Pow10(s - d.scale), s)) == Value(d)
  {
    var u, p, k := d.units, Pow10(d.scale), Pow10(s - d.scale);
    Pow10Add(d.scale, s - d.scale);
    RealOfProduct(u, k);
    RealOfProduct(p, k);
    CancelFactor(u as real, p as real, k as real);
  }

  lemma RealOfProduct(x: int, y: int)
    ensures (x * y) as real == x as real * y as real
  {
  }

  lemma CancelFactor(u: real, p: real, k: real)
    requires p > 0.0 && k > 0.0
    ensures (u * k) / (p * k) == u / p
  {
  }

  /** With at most two fraction digits, rounding to cents loses nothing. */
  lemma CentsAreExact(d: Decimal)
    requires d.scale <= 2
    ensures Value(Decimal(RoundedCents(d), 2)) == Value(d)
  {
    Rescale(d, 2);
  }

  /**
   * With more fraction digits, the cents are the nearest ones: k cents stand
   * for k * 10^(scale-2) units, and the distance is at most half a cent.
   */
  lemma RoundingIsNearest(d: Decimal)
    requires d.scale > 2
    ensures var k: int := Pow10(d.scale - 2);
      -k <= 2 * (RoundedCents(d) * k - d.units) <= k
  {
    var k: int := Pow10(d.scale - 2);
    assert k == 10 * Pow10(d.scale - 3);
    var a: int := Abs(d.units);
    var m: int := (a + k / 2) / k;
    HalfUp(a, k);
    var c := RoundedCents(d);
    if d.units < 0 {
      assert c == -m && d.units == -a;
      NegatedProduct(m, k);
    } else {
      assert c == m && d.units == a;
    }
  }

  lemma HalfUp(a: int, k: int)
    requires a >= 0 && k > 0 && k % 2 == 0
    ensures var m := (a + k / 2) / k; -k <= 2 * (m * k - a) <= k
  {
    var q := a + k / 2;
    var m := q / k;
    assert m * k <= q < m * k + k;
  }

  lemma NegatedProduct(m: int, k: int)
    ensures (-m) * k == -(m * k)
  {
  }

  // ---------------------------------------------------------------------------
  // Balance arithmetic

  datatype BalanceError = InsufficientBalance | InvalidTransactionState

  lemma SignOfValue(d: Decimal)
    ensures Value(d) < 0.0 <==> d.units < 0
  {
    var p := Pow10(d.scale) as real;
    PositiveDivision(d.units as real, p);
  }

  lemma PositiveDivision(x: real, p: real)
    requires p > 0.0
    ensures x / p < 0.0 <==> x < 0.0
  {
    if x < 0.0 { assert x / p * p == x; }
    if x / p < 0.0 { assert x / p * p == x; }
  }

  /** Both operands brought to the larger scale, then combined exactly. */
  function Combine(a: Decimal, b: Decimal, negateB: bool): (r: Decimal)
    ensures r.scale == Max(a.scale, b.scale)
    ensures Value(r) == Value(a) + (if negateB then -Value(b) else Value(b))
  {
    var s := Max(a.scale, b.scale);
    var x := a.units * Pow10(s - a.scale);
    var y := b.units * Pow10(s - b.scale);
    var r := Decimal(if negateB then x - y else x + y, s);
    Rescale(a, s);
    Rescale(b, s);
    SumOfValues(x, y, Pow10(s), negateB);
    r
  }

  lemma SumOfValues(x: int, y: int, p: nat, negateB: bool)
    requires p >= 1
    ensures (if negateB then x - y else x + y) as real / p as real
         == x as real / p as real + (if negateB then -(y as real / p as real) else y as real / p as real)
  {
  }

  /**
   * calculateNewBalance: "win" credits the amount, "lose" debits it unless
   * that would take the balance below zero, any other state is refused.
   */
  function CalculateNewBalance(current: Decimal, amount: Decimal, state: string): (r: Result<Decimal, BalanceError>)
    ensures state == "win" ==> r.Success? && Value(r.value) == Value(current) + Value(amount)
    ensures state == "lose" ==> (r.Success? <==> Value(amount) <= Value(current))
    ensures state == "lose" && r.Success? ==> Value(r.value) == Value(current) - Value(amount) >= 0.0
    ensures state == "lose" && r.Failure? ==> r.error == InsufficientBalance
    ensures state != "win" && state != "lose" ==> r == Failure(InvalidTransactionState)
    ensures r.Success? ==> r.value.scale == Max(current.scale, amount.scale)
  {
    match state
    case "win" => Success(Combine(current, amount, false))
    case "lose" =>
      var n := Combine(current, amount, true);
      SignOfValue(n);
      if n.units < 0 then Failure(InsufficientBalance) else Success(n)
    case _ => Failure(InvalidTransactionState)
  }

  /**
   * The text is an amount with at most two decimals, worth a cents ("5",
   * "5.0" and "5.00" are all worth 500 cents).
   */
  predicate AmountInCents(amount: string, a: int) {
    match ParseAmount(amount)
    case None => false
    case Some(d) =>
      || (d.scale == 0 && a == 100 * d.units)
      || (d.scale == 1 && a == 10 * d.units)
      || (d.scale == 2 && a == d.units)
  }

  /** In whole cents the arithmetic stays in whole cents and is plain integer arithmetic. */
  lemma CentsArithmetic(b: int, u: int, s: nat, state: string)
    requires state == "win" || state == "lose"
    requires s <= 2
    ensures var a := u * Pow10(2 - s);
      var r := CalculateNewBalance(Decimal(b, 2), Decimal(u, s), state);
      && (state == "win" ==> r == Success(Decimal(b + a, 2)))
      && (state == "lose" ==> r == if a <= b then Success(Decimal(b - a, 2)) else Failure(InsufficientBalance))
  {
    assert Pow10(0) == 1;
    assert Max(2, s) == 2;
  }

  /** A balance and an amount that are not negative never produce a negative balance. */
  lemma NewBalanceNotNegative(current: Decimal, amount: Decimal, state: string)
    requires current.units >= 0 && amount.units >= 0
    ensures var r := CalculateNewBalance(current, amount, state);
      r.Success? ==> r.value.units >= 0
  {
    var r := CalculateNewBalance(current, amount, state);
    SignOfValue(current);
    SignOfValue(amount);
    if r.Success? {
      SignOfValue(r.value);
    }
  }
}
