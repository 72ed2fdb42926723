/**
 * The amounts strconv.ParseFloat reads beyond plain decimals: "NaN" and the
 * infinities. validateAmount (internal/handler/user.go:167-186) and the
 * service's parseAmount/calculateNewBalance/formatAmount
 * (internal/service/user.go:132-153) pass them on as written; this module
 * models that path and shows what it does to a balance. The rest of the
 * model reads amounts with Amounts.ParseAmount, which refuses these
 * spellings, and Handler.ValidateAmount, which therefore refuses them too.
 */
module SpecialValues {
  import opened Wrappers
  import opened Numerals
  import opened Amounts
  import opened Handler

  /** A float64 as far as these paths can tell: a decimal, NaN, or an infinity. */
  datatype Float = Finite(d: Decimal) | NaN | Infinity(negative: bool)

  function LowerAscii(c: char): (l: char)
    ensures 'A' <= c <= 'Z' ==> 'a' <= l <= 'z'
    ensures !('A' <= c <= 'Z') ==> l == c
  {
    if 'A' <= c <= 'Z' then (c as int + 32) as char else c
  }

  function Lower(s: string): (l: string)
    ensures |l| == |s|
  {
    if s == [] then [] else [LowerAscii(s[0])] + Lower(s[1..])
  }

  /**
   * strconv.ParseFloat restricted to what the model reads: the plain decimals
   * Amounts.ParseAmount reads, "nan" in any case and without a sign, and "inf"
   * or "infinity" in any case with an optional sign. No spelling is in two of
   * these groups, so the order of the tests does not matter.
   */
  function ParseFloatAsWritten(s: string): (r: Option<Float>)
    ensures r.Some? && r.value.Finite? <==> ParseAmount(s).Some?
    ensures r.Some? && r.value.Finite? ==> r.value.d == ParseAmount(s).value
    ensures r == Some(NaN) <==> ParseAmount(s).None? && Lower(s) == "nan"
  {
    match ParseAmount(s)
    case Some(d) => Some(Finite(d))
    case None =>
      var word := Lower(Unsigned(s));
      if Lower(s) == "nan" then Some(NaN)
      else if word == "inf" || word == "infinity" then Some(Infinity(HasMinus(s)))
      else None
  }

  /** value <= 0 on a float64: false for NaN, true only for the negative infinity. */
  predicate AtMostZero(v: Float) {
    match v
    case Finite(d) => d.units <= 0
    case NaN => false
    case Infinity(negative) => negative
  }

  /** validateAmount as written: a NaN or an infinity is "positive" and has no '.' to count. */
  function ValidateAmountAsWritten(s: string): (r: Option<AmountError>)
    ensures ParseAmount(s).Some? ==> r == ValidateAmount(s)
  {
    if s == "" then Some(AmountRequired)
    else
      match ParseFloatAsWritten(s)
      case None => Some(InvalidAmountFormat)
      case Some(v) =>
        if AtMostZero(v) then Some(AmountNotPositive)
        else if TooPrecise(s) then Some(TooManyDecimals)
        else None
  }

  /**
   * calculateNewBalance as written, for a decimal balance and any float amount:
   * NaN spreads through both sums, and NaN < 0 is false, so a "lose" of NaN
   * is not refused.
   */
  function CalculateAsWritten(current: Decimal, amount: Float, state: string): (r: Result<Float, BalanceError>)
    ensures amount.Finite? ==> r == (match CalculateNewBalance(current, amount.d, state)
                                     case Success(b) => Success(Finite(b))
                                     case Failure(e) => Failure(e))
    ensures amount.NaN? && (state == "win" || state == "lose") ==> r == Success(NaN)
  {
    match amount
    case Finite(d) =>
      (match CalculateNewBalance(current, d, state)
       case Success(b) => Success(Finite(b))
       case Failure(e) => Failure(e))
    case NaN => if state == "win" || state == "lose" then Success(NaN) else Failure(InvalidTransactionState)
    case Infinity(negative) =>
      if state == "win" then Success(Infinity(negative))
      else if state == "lose" then (if negative then Success(Infinity(false)) else Failure(InsufficientBalance))
      else Failure(InvalidTransactionState)
  }

  /** formatAmount as written: "%.2f" prints NaN as "NaN" and the infinities with their sign. */
  function FormatAsWritten(v: Float): (t: string)
    ensures v.Finite? ==> t == FormatAmount(v.d)
    ensures v.NaN? ==> !HasTwoFractionDigits(t) && ParseAmount(t).None?
  {
    match v
    case Finite(d) => FormatAmount(d)
    case NaN => "NaN"
    case Infinity(negative) => if negative then "-Inf" else "+Inf"
  }

  /**
   * The discrepancy: the amount "NaN" passes validation as written, and the
   * unit of work then stores "NaN" as the balance, for a win and for a lose
   * alike. The balance is no longer an amount with two decimals. The
   * corrected validation refuses the text as not a number.
   */
  lemma NaNAmountPoisonsBalance(current: Decimal, state: string)
    requires state == "win" || state == "lose"
    ensures ValidateAmountAsWritten("NaN") == None
    ensures ParseFloatAsWritten("NaN") == Some(NaN)
    ensures var stored := CalculateAsWritten(current, NaN, state);
      stored == Success(NaN) && !HasTwoFractionDigits(FormatAsWritten(stored.value))
    ensures ValidateAmount("NaN") == Some(InvalidAmountFormat)
  {
    assert Lower("NaN") == "nan" by {
      assert LowerAscii('N') == 'n';
      assert Lower("NaN") == [LowerAscii('N')] + Lower("aN");
      assert Lower("aN") == [LowerAscii('a')] + Lower("N");
      assert Lower("N") == [LowerAscii('N')] + Lower("");
    }
    assert ParseAmount("NaN").None? by {
      assert !IsDigit("NaN"[0]);
      ParseAmountAccepts("NaN");
    }
    assert !TooPrecise("NaN") by {
      NoDotSplit("NaN");
    }
  }

  /** "Infinity" passes validation as written and a win stores an infinite balance. */
  lemma InfinityAmountAccepted(current: Decimal)
    ensures ValidateAmountAsWritten("Infinity") == None
    ensures CalculateAsWritten(current, Infinity(false), "win") == Success(Infinity(false))
    ensures FormatAsWritten(Infinity(false)) == "+Inf"
    ensures ValidateAmount("Infinity") == Some(InvalidAmountFormat)
  {
    InfinitySpelling();
    assert !TooPrecise("Infinity") by {
      NoDotSplit("Infinity");
    }
  }

  /** "Infinity" is not a plain decimal, but it is the word infinity in some case. */
  lemma InfinitySpelling()
    ensures ParseAmount("Infinity").None?
    ensures Unsigned("Infinity") == "Infinity" && !HasMinus("Infinity")
    ensures Lower("Infinity") == "infinity"
  {
    var s := "Infinity";
    assert !IsDigit(s[0]);
    ParseAmountAccepts(s);
    InfinityLower();
  }

  lemma InfinityLower()
    ensures Lower("Infinity") == "infinity"
  {
    assert Lower("Infinity") == [LowerAscii('I')] + Lower("nfinity");
    assert LowerAscii('I') == 'i';
    NoUpper("nfinity");
  }

  /** Lower-case letters are left alone. */
  lemma {:induction false} NoUpper(s: string)
    requires forall i :: 0 <= i < |s| ==> 'a' <= s[i] <= 'z'
    ensures Lower(s) == s
  {
    if s != [] {
      assert forall i :: 0 <= i < |s[1..]| ==> s[1..][i] == s[i + 1];
      NoUpper(s[1..]);
      assert [s[0]] + s[1..] == s;
    }
  }

  /** A string without '.' is one piece, so the precision check does not fire. */
  lemma NoDotSplit(s: string)
    requires forall i :: 0 <= i < |s| ==> s[i] != '.'
    ensures !TooPrecise(s)
  {
    SplitDotNone(s);
  }
}
