/**
 * `try_expand`, the procedural macro behind `ether!`, `gwei!`, `amount!` and
 * the other unit macros.  From the token stream `[path] [decimals] [+|-] literal`
 * it computes the exact 256-bit integer the literal stands for at that many
 * decimal places and returns the constructor call that rebuilds it from four
 * 64-bit limbs, or the first error the checks meet.
 */
module Expand {
  import opened Wrappers
  import opened Uint
  import opened Digits
  import opened Tokens

  /** Which shape check rejected the input. */
  datatype Shape =
    | PathExpected      // no first token, or it is not a group
    | DecimalsExpected  // no second token
    | DecimalsNotGroup  // the second token is not a group
    | ContentEmpty      // nothing after the decimals
    | MissingLiteral    // a punctuation mark with nothing after it
    | NotASign          // a punctuation mark other than '+' or '-'
    | NotALiteral       // the amount is not a literal token
    | UnexpectedItem    // a token after the literal
    | SecondPoint       // a second '.' in the literal

  datatype Error =
    | Structural(shape: Shape)
    | Parse      // the decimals or a digit string does not parse
    | Precision  // more fractional digits than decimals ("too many decimals")
    | Overflow   // a step leaves the 256-bit range, or the signed range

  datatype Sign = Plus | Minus

  /** The parts of a well-shaped input. */
  datatype Request = Request(path: seq<Token>, decimals: usize, sign: Option<Sign>, literal: string)

  /** A literal read as integer part, fractional part and fractional digit count. */
  datatype Decimal = Decimal(upper: u256, lower: u256, shift: nat)

  /** The value of an expansion: a `U256` without a sign, an `I256` with one. */
  datatype Amount = Unsigned(u: u256) | Signed(i: i256)

  /** The generated expression `#path::...::U256::from_limbs([a, b, c, d])`, or its `I256` twin. */
  datatype Expansion =
    | U256FromLimbs(path: seq<Token>, limbs: Limbs)
    | I256FromLimbs(path: seq<Token>, limbs: Limbs)

  // ---- token extraction ------------------------------------------------------

  function SignOf(c: char): Option<Sign>
  {
    if c == '+' then Some(Plus) else if c == '-' then Some(Minus) else None
  }

  function SignTokens(sign: Option<Sign>): seq<Token>
  {
    match sign
    case None => []
    case Some(Plus) => [Punct('+')]
    case Some(Minus) => [Punct('-')]
  }

  /** The decimals group `[lit]`, with lit read by `usize::from_str`; `None` is a parse error. */
  function DecimalsOf(g: Token): Option<usize>
  {
    if g.Group? && g.delimiter == Bracket && |g.stream| == 1 && g.stream[0].Literal?
    then ParseUsize(g.stream[0].text)
    else None
  }

  /** The token stream of a request, given the path group's delimiter and the decimals group. */
  function Layout(pathDelimiter: Delimiter, decimals: Token, req: Request): seq<Token>
  {
    [Group(pathDelimiter, req.path), decimals] + SignTokens(req.sign) + [Literal(req.literal)]
  }

  /**
   * The shape checks, in the order the token iterator meets them.  Whatever
   * is accepted is exactly the layout of the request it yields.
   */
  function ParseRequest(input: seq<Token>): (r: Result<Request, Error>)
    ensures r.Ok? ==> |input| >= 3 && input[0].Group? && DecimalsOf(input[1]) == Some(r.value.decimals)
    ensures r.Ok? ==> input == Layout(input[0].delimiter, input[1], r.value)
  {
    if |input| == 0 || !input[0].Group? then Err(Structural(PathExpected))
    else if |input| == 1 then Err(Structural(DecimalsExpected))
    else if !input[1].Group? then Err(Structural(DecimalsNotGroup))
    else if DecimalsOf(input[1]).None? then Err(Parse)
    else if |input| == 2 then Err(Structural(ContentEmpty))
    else
      var signed := input[2].Punct?;
      var at := if signed then 3 else 2;
      if signed && |input| == 3 then Err(Structural(MissingLiteral))
      else if signed && SignOf(input[2].ch).None? then Err(Structural(NotASign))
      else if !input[at].Literal? then Err(Structural(NotALiteral))
      else if |input| > at + 1 then Err(Structural(UnexpectedItem))
      else
        var sign := if signed then SignOf(input[2].ch) else None;
        var req := Request(input[0].stream, DecimalsOf(input[1]).value, sign, input[at].text);
        assert input == Layout(input[0].delimiter, input[1], req);
        Ok(req)
  }

  /** Every request, laid out as tokens, is read back unchanged. */
  lemma ParseRequestAccepts(pathDelimiter: Delimiter, decimals: Token, req: Request)
    requires DecimalsOf(decimals) == Some(req.decimals)
    ensures ParseRequest(Layout(pathDelimiter, decimals, req)) == Ok(req)
  {
  }

  // ---- the literal -------------------------------------------------------------

  /**
   * Split the literal on '.', read the integer part, then the fractional part
   * and its digit count; a third piece is an error.
   */
  function SplitLiteral(text: string): Result<Decimal, Error>
  {
    var pieces := Split(text, '.');
    match ParseU256(pieces[0])
    case None => Err(Parse)
    case Some(upper) =>
      if |pieces| == 1 then Ok(Decimal(upper, 0, 0))
      else
        var shift := CountNumeric(pieces[1]);
        match ParseU256(pieces[1])
        case None => Err(Parse)
        case Some(lower) =>
          if |pieces| > 2 then Err(Structural(SecondPoint)) else Ok(Decimal(upper, lower, shift))
  }

  /** A literal without a point is all integer part. */
  lemma SplitLiteralWhole(text: string)
    requires '.' !in text
    ensures SplitLiteral(text) == match ParseU256(text)
      case None => Err(Parse)
      case Some(n) => Ok(Decimal(n, 0, 0))
  {
    SplitWithout(text, '.');
  }

  /** A literal i.f: both parts are read, and the fractional digits are counted without '_'. */
  lemma SplitLiteralFraction(i: string, f: string)
    requires '.' !in i && '.' !in f
    ensures SplitLiteral(i + "." + f) ==
      if ParseU256(i).None? || ParseU256(f).None? then Err(Parse)
      else Ok(Decimal(ParseU256(i).value, ParseU256(f).value, |Unseparated(f)|))
  {
    SplitAtFirst(i, f, '.');
    SplitWithout(f, '.');
  }

  /** A second '.' is rejected once the first two pieces have been read. */
  lemma SplitLiteralSecondPoint(a: string, b: string, c: string)
    requires '.' !in a && '.' !in b
    ensures SplitLiteral(a + "." + b + "." + c) ==
      if ParseU256(a).None? || ParseU256(b).None? then Err(Parse) else Err(Structural(SecondPoint))
  {
    assert a + "." + b + "." + c == a + ['.'] + (b + ['.'] + c);
    SplitAtFirst(a, b + ['.'] + c, '.');
    SplitAtFirst(b, c, '.');
  }

  // ---- scaling ---------------------------------------------------------------

  /**
   * The scaled integer upper * 10^d + lower * 10^(d - shift), exactly, with
   * each product and the sum checked against 2^256, and the precision check
   * between the first product and the second.
   */
  function Scale(upper: u256, lower: u256, shift: nat, d: nat): (r: Result<u256, Error>)
    ensures r.Ok? <==> shift <= d && upper * Pow(10, d) + lower * Pow(10, d - shift) < TWO_256
    ensures r.Ok? ==> r.value == upper * Pow(10, d) + lower * Pow(10, d - shift)
    ensures r == Err(Precision) <==> shift > d && upper * Pow(10, d) < TWO_256
    ensures r.Err? ==> r.error == Precision || r.error == Overflow
  {
    match CheckedMul(upper, Pow(10, d))
    case None => Err(Overflow)
    case Some(high) =>
      if shift > d then Err(Precision)
      else
        match CheckedMul(lower, Pow(10, d - shift))
        case None => Err(Overflow)
        case Some(low) =>
          match CheckedAdd(high, low)
          case None => Err(Overflow)
          case Some(sum) => Ok(sum)
  }

  /**
   * The same steps as written in the source: `U256::from(10).pow(..)` is
   * ruint's unchecked power, which wraps modulo 2^256 before the checked
   * multiplications see it.
   */
  function ScaleAsWritten(upper: u256, lower: u256, shift: nat, d: nat): Result<u256, Error>
  {
    match CheckedMul(upper, WrappingPow(10, d))
    case None => Err(Overflow)
    case Some(high) =>
      if shift > d then Err(Precision)
      else
        match CheckedMul(lower, WrappingPow(10, d - shift))
        case None => Err(Overflow)
        case Some(low) =>
          match CheckedAdd(high, low)
          case None => Err(Overflow)
          case Some(sum) => Ok(sum)
  }

  /** Up to 77 decimals the wrapped power is the true power, and both scalings agree. */
  lemma ScaleAsWrittenAgrees(upper: u256, lower: u256, shift: nat, d: nat)
    requires d <= 77
    ensures ScaleAsWritten(upper, lower, shift, d) == Scale(upper, lower, shift, d)
  {
    PowTenFits(d);
    if shift <= d {
      PowTenFits(d - shift);
    }
  }

  /**
   * From 256 decimals on (with at least 256 left for the fractional part),
   * the wrapped powers are zero: the source yields 0 where the exact value
   * overflows, e.g. `amount!(256, 1)`.
   */
  lemma ScaleAsWrittenVanishes(upper: u256, lower: u256, shift: nat, d: nat)
    requires d >= shift + 256
    ensures ScaleAsWritten(upper, lower, shift, d) == Ok(0)
    ensures upper > 0 || lower > 0 ==> Scale(upper, lower, shift, d) == Err(Overflow)
  {
    PowTenWrapsToZero(d);
    PowTenWrapsToZero(d - shift);
    PowTenFits(d);
    PowTenFits(d - shift);
    if upper > 0 {
      assert upper * Pow(10, d) >= Pow(10, d);
    }
    if lower > 0 {
      assert lower * Pow(10, d - shift) >= Pow(10, d - shift);
    }
  }

  /**
   * From 78 decimals on, 10^d no longer fits: the literal 1 is accepted as
   * written with the wrapped power 10^d mod 2^256 as its value, where the
   * exact scaling overflows, e.g. `amount!(78, 1)`.
   */
  lemma ScaleAsWrittenDiverges(d: nat)
    requires d >= 78
    ensures ScaleAsWritten(1, 0, 0, d) == Ok(Pow(10, d) % TWO_256)
    ensures Scale(1, 0, 0, d) == Err(Overflow)
  {
    PowTenFits(d);
  }

  /**
   * The scaled integer is the literal with its point removed, times
   * 10^(d - k) for k fractional digits: nothing is rounded.
   */
  lemma PointRemoved(i: string, f: string, d: nat)
    requires AllDigits(i) && AllDigits(f) && |f| <= d
    ensures DigitsValue(i) * Pow(10, d) + DigitsValue(f) * Pow(10, d - |f|)
            == DigitsValue(i + f) * Pow(10, d - |f|)
  {
    DigitsValueConcat(i, f);
    PowAdd(10, |f|, d - |f|);
    ShiftedSum(DigitsValue(i), Pow(10, |f|), DigitsValue(f), Pow(10, d - |f|));
  }

  lemma ShiftedSum(a: nat, p: nat, b: nat, q: nat)
    ensures (a * p + b) * q == a * (p * q) + b * q
  {
    MulAssociates(a, p, q);
  }

  // ---- the sign ----------------------------------------------------------------

  /**
   * No sign: the magnitude as `U256`.  A sign: the magnitude as `I256`, which
   * fails from 2^255 on, negated by a checked `0 - value` for '-'.
   */
  function ApplySign(magnitude: u256, sign: Option<Sign>): (r: Result<Amount, Error>)
    ensures sign.None? ==> r == Ok(Unsigned(magnitude))
    ensures sign == Some(Plus) ==> r == if magnitude < TWO_255 then Ok(Signed(magnitude)) else Err(Overflow)
    ensures sign == Some(Minus) ==> r == if magnitude < TWO_255 then Ok(Signed(-(magnitude as int))) else Err(Overflow)
    ensures r.Ok? && r.value.Signed? ==> -TWO_255 < r.value.i
  {
    match sign
    case None => Ok(Unsigned(magnitude))
    case Some(s) =>
      match I256TryFrom(magnitude)
      case None => Err(Overflow)
      case Some(v) =>
        if s == Plus then Ok(Signed(v))
        else
          match I256CheckedSub(0, v)
          case None => Err(Overflow)
          case Some(negated) => Ok(Signed(negated))
  }

  // ---- output ------------------------------------------------------------------

  /** The value the generated constructor call builds. */
  function Denotation(e: Expansion): Amount
  {
    match e
    case U256FromLimbs(_, ls) => Unsigned(FromLimbs(ls))
    case I256FromLimbs(_, ls) => Signed(FromTwos(FromLimbs(ls)))
  }

  /** The constructor call for an amount: the `U256` limbs, or the `I256` two's-complement limbs. */
  function Emit(path: seq<Token>, a: Amount): (e: Expansion)
    ensures e.path == path
    ensures e.U256FromLimbs? <==> a.Unsigned?
    ensures Denotation(e) == a
  {
    match a
    case Unsigned(u) =>
      LimbsRoundTrip(u);
      U256FromLimbs(path, AsLimbs(u))
    case Signed(i) =>
      LimbsRoundTrip(ToTwos(i));
      TwosRoundTrip(i);
      I256FromLimbs(path, AsLimbs(ToTwos(i)))
  }

  // ---- the whole expansion -------------------------------------------------------

  /** The literal read, scaled and signed. */
  function Evaluate(req: Request): Result<Amount, Error>
  {
    match SplitLiteral(req.literal)
    case Err(e) => Err(e)
    case Ok(dec) => ScaledAmount(dec, req.decimals, req.sign)
  }

  /** A literal's parts scaled to d decimals and signed. */
  function ScaledAmount(dec: Decimal, d: nat, sign: Option<Sign>): Result<Amount, Error>
  {
    match Scale(dec.upper, dec.lower, dec.shift, d)
    case Err(e) => Err(e)
    case Ok(magnitude) => ApplySign(magnitude, sign)
  }

  /** `try_expand` as a function of its input tokens. */
  function ExpandTokens(input: seq<Token>): Result<Expansion, Error>
  {
    match ParseRequest(input)
    case Err(e) => Err(e)
    case Ok(req) =>
      match Evaluate(req)
      case Err(e) => Err(e)
      case Ok(a) => Ok(Emit(req.path, a))
  }

  /**
   * `try_expand` step by step: a cursor over the tokens, a second one over the
   * pieces of the literal, the item re-read after a sign, and the signed value
   * reassigned when it is negated.
   */
  method TryExpand(input: seq<Token>) returns (r: Result<Expansion, Error>)
    ensures r == ExpandTokens(input)
  {
    var next := 0;
    if next == |input| || !input[next].Group? {
      return Err(Structural(PathExpected));
    }
    var path := input[next].stream;
    next := next + 1;

    if next == |input| {
      return Err(Structural(DecimalsExpected));
    }
    if !input[next].Group? {
      return Err(Structural(DecimalsNotGroup));
    }
    var decimals := DecimalsOf(input[next]);
    next := next + 1;
    if decimals.None? {
      return Err(Parse);
    }

    if next == |input| {
      return Err(Structural(ContentEmpty));
    }
    var item := input[next];
    next := next + 1;
    var sign: Option<Sign> := None;
    if item.Punct? {
      var punct := item.ch;
      if next == |input| {
        return Err(Structural(MissingLiteral));
      }
      item := input[next];
      next := next + 1;
      sign := SignOf(punct);
      if sign.None? {
        return Err(Structural(NotASign));
      }
    }
    if !item.Literal? {
      return Err(Structural(NotALiteral));
    }
    if next < |input| {
      return Err(Structural(UnexpectedItem));
    }

    var pieces := Split(item.text, '.');
    var piece := 0;
    var upper := ParseU256(pieces[piece]);
    piece := piece + 1;
    if upper.None? {
      return Err(Parse);
    }
    var lower: u256, shift: nat := 0, 0;
    if piece < |pieces| {
      shift := CountNumeric(pieces[piece]);
      var parsed := ParseU256(pieces[piece]);
      piece := piece + 1;
      if parsed.None? {
        return Err(Parse);
      }
      if piece < |pieces| {
        return Err(Structural(SecondPoint));
      }
      lower := parsed.value;
    }

    var magnitude := Scale(upper.value, lower, shift, decimals.value);
    if magnitude.Err? {
      return Err(magnitude.error);
    }

    if sign.None? {
      return Ok(U256FromLimbs(path, AsLimbs(magnitude.value)));
    }
    var converted := I256TryFrom(magnitude.value);
    if converted.None? {
      return Err(Overflow);
    }
    var res := converted.value;
    if sign == Some(Minus) {
      var negated := I256CheckedSub(0, res);
      if negated.None? {
        return Err(Overflow);
      }
      res := negated.value;
    }
    return Ok(I256FromLimbs(path, AsLimbs(ToTwos(res))));
  }

  // ---- properties of the whole expansion -----------------------------------------

  /** The shape errors after a path group and a well-formed decimals group. */
  lemma ShapeErrors(path: Token, decimals: Token, rest: seq<Token>)
    requires path.Group? && DecimalsOf(decimals).Some?
    ensures var input := [path, decimals] + rest;
      && (rest == [] ==> ExpandTokens(input) == Err(Structural(ContentEmpty)))
      && (|rest| == 1 && rest[0].Punct? ==> ExpandTokens(input) == Err(Structural(MissingLiteral)))
      && (|rest| >= 2 && rest[0].Punct? && SignOf(rest[0].ch).None? ==> ExpandTokens(input) == Err(Structural(NotASign)))
      && (|rest| >= 1 && !rest[0].Punct? && !rest[0].Literal? ==> ExpandTokens(input) == Err(Structural(NotALiteral)))
      && (|rest| >= 2 && rest[0].Punct? && SignOf(rest[0].ch).Some? && !rest[1].Literal? ==>
            ExpandTokens(input) == Err(Structural(NotALiteral)))
      && (|rest| >= 2 && rest[0].Literal? ==> ExpandTokens(input) == Err(Structural(UnexpectedItem)))
      && (|rest| >= 3 && rest[0].Punct? && SignOf(rest[0].ch).Some? && rest[1].Literal? ==>
            ExpandTokens(input) == Err(Structural(UnexpectedItem)))
  {
  }

  /** The errors before the amount: a missing or wrong path, a missing or wrong decimals group. */
  lemma LeadingErrors(input: seq<Token>)
    ensures |input| == 0 || !input[0].Group? ==> ExpandTokens(input) == Err(Structural(PathExpected))
    ensures |input| == 1 && input[0].Group? ==> ExpandTokens(input) == Err(Structural(DecimalsExpected))
    ensures |input| >= 2 && input[0].Group? && !input[1].Group? ==> ExpandTokens(input) == Err(Structural(DecimalsNotGroup))
    ensures |input| >= 2 && input[0].Group? && input[1].Group? && DecimalsOf(input[1]).None? ==>
      ExpandTokens(input) == Err(Parse)
  {
  }

  /** A literal without a point and without a sign is its integer value times 10^d. */
  lemma WholeLiteral(req: Request)
    requires '.' !in req.literal && req.sign.None?
    ensures Evaluate(req) == match ParseU256(req.literal)
      case None => Err(Parse)
      case Some(n) =>
        if n * Pow(10, req.decimals) < TWO_256 then Ok(Unsigned(n * Pow(10, req.decimals))) else Err(Overflow)
  {
    SplitLiteralWhole(req.literal);
  }

  /**
   * `amount!(d, n)` for a natural number n written out in decimal: exactly
   * n * 10^d as a `U256`, or an overflow error.
   */
  lemma WholeNumber(pathDelimiter: Delimiter, path: seq<Token>, decimals: Token, n: nat)
    requires DecimalsOf(decimals).Some?
    ensures var d := DecimalsOf(decimals).value;
      ExpandTokens([Group(pathDelimiter, path), decimals, Literal(DecimalString(n))]) ==
        if n < TWO_256 && n * Pow(10, d) < TWO_256 then Ok(Emit(path, Unsigned(n * Pow(10, d))))
        else if n < TWO_256 then Err(Overflow)
        else Err(Parse)
  {
    var req := Request(path, DecimalsOf(decimals).value, None, DecimalString(n));
    ParseRequestAccepts(pathDelimiter, decimals, req);
    assert Layout(pathDelimiter, decimals, req) == [Group(pathDelimiter, path), decimals, Literal(DecimalString(n))];
    DecimalStringValue(n);
    UnseparatedDigitsOnly(DecimalString(n));
    WholeLiteral(req);
  }

  /** Without a sign, evaluation is the scaling of the parts the literal splits into. */
  lemma UnsignedIsScaled(req: Request, dec: Decimal)
    requires req.sign.None? && SplitLiteral(req.literal) == Ok(dec)
    ensures Evaluate(req) == match Scale(dec.upper, dec.lower, dec.shift, req.decimals)
      case Err(e) => Err(e)
      case Ok(m) => Ok(Unsigned(m))
  {
  }

  /**
   * A literal i.f without a sign: a parse error unless both parts parse, and
   * otherwise the scaling of the integer part, the fractional part and the
   * number k of digits in the fractional part (so, by `Scale`, exactly
   * i * 10^d + f * 10^(d - k) when k <= d and that is below 2^256).
   */
  lemma FractionalLiteral(req: Request, i: string, f: string)
    requires req.literal == i + "." + f && '.' !in i && '.' !in f && req.sign.None?
    ensures ParseU256(i).None? || ParseU256(f).None? ==> Evaluate(req) == Err(Parse)
    ensures ParseU256(i).Some? && ParseU256(f).Some? ==>
      Evaluate(req) == match Scale(ParseU256(i).value, ParseU256(f).value, |Unseparated(f)|, req.decimals)
        case Err(e) => Err(e)
        case Ok(m) => Ok(Unsigned(m))
  {
    SplitLiteralFraction(i, f);
    if ParseU256(i).Some? && ParseU256(f).Some? {
      UnsignedIsScaled(req, Decimal(ParseU256(i).value, ParseU256(f).value, |Unseparated(f)|));
    }
  }

  /** Accepted without a sign: the exact scaled value as `U256`. */
  lemma UnsignedValue(dec: Decimal, d: nat)
    requires ScaledAmount(dec, d, None).Ok?
    ensures dec.shift <= d
    ensures ScaledAmount(dec, d, None) == Ok(Unsigned(dec.upper * Pow(10, d) + dec.lower * Pow(10, d - dec.shift)))
  {
  }

  /** `PointRemoved` for the values radix-10 parsing reads from i and f. */
  lemma ParsedPointRemoved(i: string, f: string, d: nat)
    requires ParseU256(i).Some? && ParseU256(f).Some? && |Unseparated(f)| <= d
    ensures ParseU256(i).value * Pow(10, d) + ParseU256(f).value * Pow(10, d - |Unseparated(f)|)
      == DigitsValue(Unseparated(i) + Unseparated(f)) * Pow(10, d - |Unseparated(f)|)
  {
    PointRemoved(Unseparated(i), Unseparated(f), d);
  }

  /** A '_' in a literal without a point is ignored: `150_000` is `150000`. */
  lemma SeparatorInLiteral(req: Request, a: string, b: string)
    requires '.' !in a && '.' !in b
    ensures Evaluate(req.(literal := a + "_" + b)) == Evaluate(req.(literal := a + b))
  {
    assert '.' !in a + "_" + b;
    assert '.' !in a + b;
    SplitLiteralWhole(a + "_" + b);
    SplitLiteralWhole(a + b);
    SeparatorIgnored(a, b);
  }

  /**
   * More fractional digits than decimals is never rounded away: it is the
   * precision error, or the overflow error when the integer part already
   * overflowed at line 100.
   */
  lemma TooManyDecimals(req: Request, i: string, f: string)
    requires req.literal == i + "." + f && '.' !in i && '.' !in f
    requires ParseU256(i).Some? && ParseU256(f).Some?
    requires |Unseparated(f)| > req.decimals
    ensures Evaluate(req) ==
      if ParseU256(i).value * Pow(10, req.decimals) < TWO_256 then Err(Precision) else Err(Overflow)
  {
    SplitLiteralFraction(i, f);
  }

  /** A literal with a second point is rejected, as a parse error if an earlier piece is not a number. */
  lemma SecondPointRejected(req: Request, a: string, b: string, c: string)
    requires req.literal == a + "." + b + "." + c && '.' !in a && '.' !in b
    ensures Evaluate(req) ==
      if ParseU256(a).None? || ParseU256(b).None? then Err(Parse) else Err(Structural(SecondPoint))
  {
    SplitLiteralSecondPoint(a, b, c);
  }

  /**
   * With a sign the magnitude is the unsigned result, which must stay below
   * 2^255: '+' keeps it, '-' negates it; every error of the unsigned
   * evaluation is kept.
   */
  lemma SignedFromUnsigned(req: Request)
    requires req.sign.Some?
    ensures Evaluate(req) == match Evaluate(req.(sign := None))
      case Err(e) => Err(e)
      case Ok(a) =>
        if a.u >= TWO_255 then Err(Overflow)
        else if req.sign == Some(Plus) then Ok(Signed(a.u))
        else Ok(Signed(-(a.u as int)))
  {
    var unsigned := req.(sign := None);
    assert SplitLiteral(unsigned.literal) == SplitLiteral(req.literal);
  }

  /** A negative amount lies in [-(2^255 - 1), 0]: `I256::MIN` is never produced. */
  lemma NegativeRange(req: Request)
    requires req.sign == Some(Minus) && Evaluate(req).Ok?
    ensures Evaluate(req).value.Signed?
    ensures -(TWO_255 - 1) <= Evaluate(req).value.i <= 0
  {
    SignedFromUnsigned(req);
  }

  /** No input expands to `I256::MIN`. */
  lemma NeverSignedMinimum(input: seq<Token>)
    requires ExpandTokens(input).Ok?
    ensures Denotation(ExpandTokens(input).value) != Signed(-TWO_255)
  {
  }
}
