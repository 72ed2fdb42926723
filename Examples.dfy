/**
 * Concrete cases worked through the model: the inputs the repository's own
 * unit tests use for parseAmount, formatAmount and validateAmount
 * (internal/service/user_test.go, internal/handler/user_test.go).
 */
module Examples {
  import opened Wrappers
  import opened Numerals
  import opened Amounts
  import opened Handler

  // parseAmount

  lemma ParseTenFifty()
    ensures ParseAmount("10.50") == Some(Decimal(1050, 2))
  {
    SplitDotOne("10", "50");
    assert "10" + "." + "50" == "10.50";
    assert DigitsValue("10") == 10 by { assert "10"[..1] == "1" && "1"[..0] == []; }
    assert DigitsValue("50") == 50 by { assert "50"[..1] == "5" && "5"[..0] == []; }
    assert Pow10(2) == 100;
  }

  lemma ParseHundred()
    ensures ParseAmount("100") == Some(Decimal(100, 0))
  {
    SplitDotNone("100");
    assert "100"[..2] == "10" && "10"[..1] == "1" && "1"[..0] == [];
  }

  lemma ParseOneCent()
    ensures ParseAmount("0.01") == Some(Decimal(1, 2))
  {
    SplitDotOne("0", "01");
    assert "0" + "." + "01" == "0.01";
    assert DigitsValue("0") == 0 by { assert "0"[..0] == []; }
    assert DigitsValue("01") == 1 by { assert "01"[..1] == "0" && "0"[..0] == []; }
    assert Pow10(2) == 100;
  }

  lemma ParseZero()
    ensures ParseAmount("0") == Some(Decimal(0, 0))
    ensures ParseAmount("0.00") == Some(Decimal(0, 2))
  {
    SplitDotNone("0");
    SplitDotOne("0", "00");
    assert "0" + "." + "00" == "0.00";
    assert "00"[..1] == "0" && "0"[..0] == [];
  }

  lemma ParseRejects()
    ensures ParseAmount("").None?
    ensures ParseAmount("abc").None?
    ensures ParseAmount("10.50abc").None?
  {
    assert SplitDot("") == [""];
    SplitDotNone("abc");
    assert !IsDigit("abc"[0]);
    SplitDotOne("10", "50abc");
    assert "10" + "." + "50abc" == "10.50abc";
    assert !IsDigit("50abc"[2]);
  }

  // formatAmount

  lemma FormatTenFifty()
    ensures FormatAmount(Decimal(105, 1)) == "10.50"
  {
    assert RoundedCents(Decimal(105, 1)) == 1050 by { assert Pow10(1) == 10; }
    assert DigitChar(0) == '0' && DigitChar(1) == '1' && DigitChar(5) == '5';
    assert NatToDecimal(10) == "10";
    assert TwoDigits(50) == "50";
  }

  lemma FormatZero()
    ensures FormatAmount(Decimal(0, 0)) == "0.00"
  {
    assert RoundedCents(Decimal(0, 0)) == 0;
    assert DigitChar(0) == '0';
    assert NatToDecimal(0) == "0";
    assert TwoDigits(0) == "00";
  }

  /** A third decimal of 9 rounds up. */
  lemma FormatRoundsUp()
    ensures FormatAmount(Decimal(10999, 3)) == "11.00"
  {
    assert RoundedCents(Decimal(10999, 3)) == 1100 by { assert Pow10(1) == 10; }
    assert DigitChar(0) == '0' && DigitChar(1) == '1';
    assert NatToDecimal(11) == "11";
    assert TwoDigits(0) == "00";
  }

  /** Less than half a cent rounds down. */
  lemma FormatRoundsDown()
    ensures FormatAmount(Decimal(10994, 3)) == "10.99"
  {
    assert RoundedCents(Decimal(10994, 3)) == 1099 by { assert Pow10(1) == 10; }
    assert DigitChar(0) == '0' && DigitChar(1) == '1' && DigitChar(9) == '9';
    assert NatToDecimal(10) == "10";
    assert TwoDigits(99) == "99";
  }

  // validateAmount

  lemma ValidateAmountExamples()
    ensures ValidateAmount("") == Some(AmountRequired)
    ensures ValidateAmount("abc") == Some(InvalidAmountFormat)
    ensures ValidateAmount("0") == Some(AmountNotPositive)
    ensures ValidateAmount("10.50") == None
  {
    ParseRejects();
    ParseZero();
    ParseTenFifty();
  }

  lemma TooManyDecimalsExample()
    ensures ValidateAmount("10.123") == Some(TooManyDecimals)
  {
    SplitDotOne("10", "123");
    assert "10" + "." + "123" == "10.123";
    assert "123"[..2] == "12" && "12"[..1] == "1" && "10"[..1] == "1" && "1"[..0] == [];
  }
}
