/**
 * The unit macros `wei!`, `mwei!`, `btc!`, `gwei!`, `ether!` and `amount!`:
 * each forwards `[$crate] [d]` and its own tokens to `try_expand`, with d
 * the number of decimals of its unit.  `UnitCallExpands` reduces a call to
 * the evaluation of its request; the other lemmas evaluate the requests of
 * the amounts the crate's documentation and tests write out.
 */
module Units {
  import opened Wrappers
  import opened Uint
  import opened Digits
  import opened Tokens
  import opened Expand

  /** The `$crate` path every unit macro passes first. */
  const CratePath: seq<Token> := [Ident("$crate")]

  /** The tokens a unit macro with decimals literal `d` hands to `try_expand`. */
  function UnitCall(d: string, args: seq<Token>): seq<Token>
  {
    [Group(Bracket, CratePath), Group(Bracket, [Literal(d)])] + args
  }

  /** The request of a unit macro at d decimals. */
  function UnitRequest(d: usize, sign: Option<Sign>, literal: string): Request
  {
    Request(CratePath, d, sign, literal)
  }

  /**
   * A unit macro applied to an optional sign and a literal is the evaluation
   * of its request, emitted under `$crate`, or the error of that evaluation.
   */
  lemma UnitCallExpands(d: string, sign: Option<Sign>, literal: string)
    requires ParseUsize(d).Some?
    ensures ExpandTokens(UnitCall(d, SignTokens(sign) + [Literal(literal)])) ==
      match Evaluate(UnitRequest(ParseUsize(d).value, sign, literal))
      case Err(e) => Err(e)
      case Ok(a) => Ok(Emit(CratePath, a))
  {
    var req := UnitRequest(ParseUsize(d).value, sign, literal);
    var decimals := Group(Bracket, [Literal(d)]);
    ParseRequestAccepts(Bracket, decimals, req);
    assert Layout(Bracket, decimals, req) == UnitCall(d, SignTokens(sign) + [Literal(literal)]);
  }

  /** The decimals literals of `wei!`, `mwei!`, `btc!`, `gwei!` and `ether!`. */
  lemma UnitDecimals()
    ensures ParseUsize("0") == Some(0)
    ensures ParseUsize("6") == Some(6)
    ensures ParseUsize("8") == Some(8)
    ensures ParseUsize("9") == Some(9)
    ensures ParseUsize("18") == Some(18)
  {
    assert "18"[..1] == "1";
  }

  lemma PowTenValues()
    ensures Pow(10, 3) == 1_000
    ensures Pow(10, 6) == 1_000_000
    ensures Pow(10, 9) == 1_000_000_000
    ensures Pow(10, 15) == 1_000_000_000_000_000
    ensures Pow(10, 18) == 1_000_000_000_000_000_000
  {
    assert Pow(10, 3) == 1_000;
    PowAdd(10, 3, 3);
    assert Pow(10, 6) == 1_000_000;
    PowAdd(10, 6, 3);
    assert Pow(10, 9) == 1_000_000_000;
    PowAdd(10, 9, 6);
    PowAdd(10, 9, 9);
  }

  lemma DigitString1()
    ensures ParseU256("1") == Some(1)
  {
    UnseparatedDigitsOnly("1");
    assert "1"[..0] == "";
  }

  lemma DigitString678()
    ensures ParseU256("678") == Some(678) && |Unseparated("678")| == 3
  {
    UnseparatedDigitsOnly("678");
    assert "678"[..2] == "67" && "67"[..1] == "6";
  }

  /** `150_000` reads as 150000: the separator is skipped. */
  lemma SeparatedString150000()
    ensures ParseU256("150_000") == Some(150_000)
  {
    assert "150_000" == "150" + "_" + "000";
    assert "150" + "000" == "150000";
    SeparatorIgnored("150", "000");
    DigitString150000();
    UnseparatedDigitsOnly("150000");
  }

  lemma DigitString150000()
    ensures AllDigits("150000") && DigitsValue("150000") == 150_000
  {
    var s := "150000";
    assert s[..1] == "1" && DigitsValue(s[..1]) == 1;
    assert s[..2] == "15" && s[..2][..1] == s[..1] && DigitsValue(s[..2]) == 15;
    assert s[..3] == "150" && s[..3][..2] == s[..2] && DigitsValue(s[..3]) == 150;
    assert s[..4] == "1500" && s[..4][..3] == s[..3] && DigitsValue(s[..4]) == 1500;
    assert s[..5] == "15000" && s[..5][..4] == s[..4] && DigitsValue(s[..5]) == 15000;
    assert s[..5] == s[..|s| - 1];
  }

  /** `ether!(150_000)` is 150000 * 10^18. */
  lemma EtherWhole()
    ensures Evaluate(UnitRequest(18, None, "150_000")) == Ok(Unsigned(150_000 * 1_000_000_000_000_000_000))
  {
    PowTenValues();
    SeparatedString150000();
    WholeLiteral(UnitRequest(18, None, "150_000"));
  }

  /**
   * The literal 1.678 at d decimals: 1678 * 10^(d - 3) for `ether!` (18),
   * `gwei!` (9) and `mwei!` (6); `wei!` (0) rejects it, as three decimals
   * too many, rather than rounding it.
   */
  lemma OnePointSixSevenEight(d: usize)
    requires d == 18 || d == 9 || d == 6 || d == 0
    ensures d == 0 ==> Evaluate(UnitRequest(d, None, "1.678")) == Err(Precision)
    ensures d >= 3 ==>
      var r := Evaluate(UnitRequest(d, None, "1.678"));
      r.Ok? && r.value.Unsigned? && r.value.u == 1678 * Pow(10, d - 3)
  {
    DigitString1();
    DigitString678();
    PowTenValues();
    assert "1.678" == "1" + "." + "678";
    FractionalLiteral(UnitRequest(d, None, "1.678"), "1", "678");
    if d >= 3 {
      PowAdd(10, 3, d - 3);
    }
  }

  /** `ether!(1.678)` is 1678 * 10^15 and `gwei!(1.678)` is 1678 * 10^6. */
  lemma EtherAndGweiFraction()
    ensures Evaluate(UnitRequest(18, None, "1.678")) == Ok(Unsigned(1_678_000_000_000_000_000))
    ensures Evaluate(UnitRequest(9, None, "1.678")) == Ok(Unsigned(1_678_000_000))
  {
    PowTenValues();
    OnePointSixSevenEight(18);
    OnePointSixSevenEight(9);
  }

  /** `mwei!(-1.678)` is the signed -1678000. */
  lemma MweiNegativeFraction()
    ensures Evaluate(UnitRequest(6, Some(Minus), "1.678")) == Ok(Signed(-1_678_000))
  {
    PowTenValues();
    OnePointSixSevenEight(6);
    SignedFromUnsigned(UnitRequest(6, Some(Minus), "1.678"));
  }

  /** `wei!(+1)` is the signed 1. */
  lemma WeiPlusOne()
    ensures Evaluate(UnitRequest(0, Some(Plus), "1")) == Ok(Signed(1))
  {
    DigitString1();
    WholeLiteral(UnitRequest(0, None, "1"));
    SignedFromUnsigned(UnitRequest(0, Some(Plus), "1"));
  }

  /** `ether!(1)` is 10^18 and `ether!(-1)` is -10^18. */
  lemma EtherOne()
    ensures Evaluate(UnitRequest(18, None, "1")) == Ok(Unsigned(1_000_000_000_000_000_000))
    ensures Evaluate(UnitRequest(18, Some(Minus), "1")) == Ok(Signed(-1_000_000_000_000_000_000))
  {
    DigitString1();
    PowTenValues();
    WholeLiteral(UnitRequest(18, None, "1"));
    SignedFromUnsigned(UnitRequest(18, Some(Minus), "1"));
  }

  /**
   * `amount!(256, 1)`: 10^256 does not fit in 256 bits, so the value
   * overflows, where the wrapping power of the source gives zero.
   */
  lemma AmountTwoFiftySix()
    ensures Evaluate(UnitRequest(256, None, "1")) == Err(Overflow)
    ensures ScaleAsWritten(1, 0, 0, 256) == Ok(0)
  {
    DigitString1();
    WholeLiteral(UnitRequest(256, None, "1"));
    PowTenFits(256);
    ScaleAsWrittenVanishes(1, 0, 0, 256);
  }
}
