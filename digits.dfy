/**
 * The text operations the macro borrows from Rust's standard library and
 * from ruint: `str::split`, counting the numeric characters of a string,
 * `usize::from_str`, and `U256::from_str_radix(_, 10)`.  Digits are the
 * ASCII digits '0'..'9'.
 */
module Digits {
  import opened Wrappers
  import opened Uint

  predicate IsDigit(c: char)
  {
    '0' <= c <= '9'
  }

  function DigitValue(c: char): nat
    requires IsDigit(c)
  {
    c as int - '0' as int
  }

  function DigitChar(n: nat): (c: char)
    requires n < 10
    ensures IsDigit(c) && DigitValue(c) == n
  {
    ('0' as int + n) as char
  }

  predicate AllDigits(s: string)
  {
    forall i :: 0 <= i < |s| ==> IsDigit(s[i])
  }

  /** The number a string of ASCII digits spells, most significant digit first. */
  function DigitsValue(ds: string): nat
    requires AllDigits(ds)
  {
    if ds == [] then 0 else DigitsValue(ds[..|ds| - 1]) * 10 + DigitValue(ds[|ds| - 1])
  }

  /** Writing b after a shifts a left by |b| decimal places. */
  lemma {:induction false} DigitsValueConcat(a: string, b: string)
    requires AllDigits(a) && AllDigits(b)
    ensures AllDigits(a + b)
    ensures DigitsValue(a + b) == DigitsValue(a) * Pow(10, |b|) + DigitsValue(b)
  {
    if b == [] {
      assert a + b == a;
    } else {
      var b' := b[..|b| - 1];
      assert (a + b)[..|a + b| - 1] == a + b';
      DigitsValueConcat(a, b');
      calc {
        DigitsValue(a + b);
        DigitsValue(a + b') * 10 + DigitValue(b[|b| - 1]);
        (DigitsValue(a) * Pow(10, |b'|) + DigitsValue(b')) * 10 + DigitValue(b[|b| - 1]);
        { MulAssociates(DigitsValue(a), Pow(10, |b'|), 10); }
        DigitsValue(a) * (Pow(10, |b'|) * 10) + (DigitsValue(b') * 10 + DigitValue(b[|b| - 1]));
        { assert Pow(10, |b|) == 10 * Pow(10, |b'|); }
        DigitsValue(a) * Pow(10, |b|) + DigitsValue(b);
      }
    }
  }

  /** The canonical decimal rendering of n: no sign, no separator, no leading zero. */
  function DecimalString(n: nat): (s: string)
    ensures |s| >= 1 && AllDigits(s)
    ensures |s| > 1 ==> s[0] != '0'
  {
    if n < 10 then [DigitChar(n)] else DecimalString(n / 10) + [DigitChar(n % 10)]
  }

  /** Reading back the rendering of n gives n. */
  lemma {:induction false} DecimalStringValue(n: nat)
    ensures DigitsValue(DecimalString(n)) == n
  {
    if n >= 10 {
      var s := DecimalString(n);
      assert s[..|s| - 1] == DecimalString(n / 10);
      DecimalStringValue(n / 10);
    }
  }

  // ---- `U256::from_str_radix(s, 10)` ---------------------------------------

  /** The characters radix-10 parsing accepts: digits and the '_' separator. */
  predicate IsRadix10(s: string)
  {
    forall i :: 0 <= i < |s| ==> IsDigit(s[i]) || s[i] == '_'
  }

  /** s without its '_' separators. */
  function Unseparated(s: string): (r: string)
    ensures |r| <= |s|
    ensures IsRadix10(s) ==> AllDigits(r)
  {
    if s == [] then []
    else if s[0] == '_' then Unseparated(s[1..])
    else [s[0]] + Unseparated(s[1..])
  }

  /** A string of digits only has nothing to drop. */
  lemma {:induction false} UnseparatedDigitsOnly(s: string)
    requires AllDigits(s)
    ensures IsRadix10(s) && Unseparated(s) == s
  {
    if s != [] {
      assert AllDigits(s[1..]) by {
        assert forall i :: 1 <= i < |s| ==> s[1..][i - 1] == s[i];
      }
      UnseparatedDigitsOnly(s[1..]);
      assert [s[0]] + s[1..] == s;
    }
  }

  /** The characters of a + b are accepted exactly when those of a and of b are. */
  lemma Radix10Concat(a: string, b: string)
    ensures IsRadix10(a + b) <==> IsRadix10(a) && IsRadix10(b)
  {
    if IsRadix10(a) && IsRadix10(b) {
      forall i | 0 <= i < |a + b|
        ensures IsDigit((a + b)[i]) || (a + b)[i] == '_'
      {
        if i < |a| {
          assert (a + b)[i] == a[i];
        } else {
          assert (a + b)[i] == b[i - |a|];
        }
      }
    }
    if IsRadix10(a + b) {
      assert forall i :: 0 <= i < |a| ==> (a + b)[i] == a[i];
      assert forall i :: 0 <= i < |b| ==> (a + b)[|a| + i] == b[i];
    }
  }

  /** Dropping separators works piece by piece. */
  lemma {:induction false} UnseparatedConcat(a: string, b: string)
    ensures Unseparated(a + b) == Unseparated(a) + Unseparated(b)
  {
    if a == [] {
      assert a + b == b;
    } else {
      assert (a + b)[1..] == a[1..] + b;
      UnseparatedConcat(a[1..], b);
    }
  }

  /** A '_' between two strings changes nothing radix-10 parsing sees. */
  lemma SeparatorIgnored(a: string, b: string)
    ensures ParseU256(a + "_" + b) == ParseU256(a + b)
  {
    assert a + "_" + b == a + ("_" + b);
    Radix10Concat(a, "_" + b);
    Radix10Concat("_", b);
    Radix10Concat(a, b);
    UnseparatedConcat(a, "_" + b);
    UnseparatedConcat("_", b);
    UnseparatedConcat(a, b);
    assert ("_" + b)[1..] == b;
  }

  /**
   * ruint's digit loop: skip '_', fold each digit into the accumulator with a
   * checked multiply-add, fail on any other character or on overflow.
   */
  function Accumulate(acc: u256, s: string): (r: Option<u256>)
    decreases |s|
    ensures r.Some? <==> IsRadix10(s) && acc * Pow(10, |Unseparated(s)|) + DigitsValue(Unseparated(s)) < TWO_256
    ensures r.Some? ==> r.value == acc * Pow(10, |Unseparated(s)|) + DigitsValue(Unseparated(s))
  {
    if s == [] then Some(acc)
    else if s[0] == '_' then
      assert forall i :: 1 <= i < |s| ==> s[1..][i - 1] == s[i];
      Accumulate(acc, s[1..])
    else if IsDigit(s[0]) then
      var next := acc * 10 + DigitValue(s[0]);
      AccumulateStep(acc, s);
      if next < TWO_256 then Accumulate(next, s[1..]) else None
    else None
  }

  /** One digit step of `Accumulate`: the remaining digits scale the new accumulator. */
  lemma AccumulateStep(acc: nat, s: string)
    requires s != [] && IsDigit(s[0])
    ensures IsRadix10(s) <==> IsRadix10(s[1..])
    ensures IsRadix10(s) ==>
      var rest := Unseparated(s[1..]);
      var next := acc * 10 + DigitValue(s[0]);
      && acc * Pow(10, |Unseparated(s)|) + DigitsValue(Unseparated(s))
         == next * Pow(10, |rest|) + DigitsValue(rest)
      && next <= next * Pow(10, |rest|) + DigitsValue(rest)
  {
    Radix10Tail(s);
    if IsRadix10(s) {
      var rest := Unseparated(s[1..]);
      assert Unseparated(s) == [s[0]] + rest;
      LeadingDigit(s[0], rest);
      PowPositive(10, |rest|);
      ShiftDigit(acc, DigitValue(s[0]), Pow(10, |rest|), DigitsValue(rest));
    }
  }

  lemma Radix10Tail(s: string)
    requires s != [] && IsDigit(s[0])
    ensures IsRadix10(s) <==> IsRadix10(s[1..])
  {
    assert forall i :: 1 <= i < |s| ==> s[1..][i - 1] == s[i];
  }

  lemma LeadingDigit(c: char, rest: string)
    requires IsDigit(c) && AllDigits(rest)
    ensures AllDigits([c] + rest)
    ensures DigitsValue([c] + rest) == DigitValue(c) * Pow(10, |rest|) + DigitsValue(rest)
    ensures Pow(10, |[c] + rest|) == Pow(10, |rest|) * 10
  {
    DigitsValueConcat([c], rest);
    assert [c][..0] == [];
    PowAdd(10, |rest|, 1);
  }

  lemma ShiftDigit(acc: nat, d: nat, p: nat, r: nat)
    requires p >= 1
    ensures acc * (p * 10) + (d * p + r) == (acc * 10 + d) * p + r
    ensures acc * 10 + d <= (acc * 10 + d) * p + r
  {
    MulAssociates(acc, 10, p);
  }

  /**
   * `U256::from_str_radix(s, 10)`: the value of the digits of s once its '_'
   * separators are dropped, or `None` for any other character or a value of
   * 2^256 or more.  The empty string reads as zero.
   */
  function ParseU256(s: string): (r: Option<u256>)
    ensures r.Some? <==> IsRadix10(s) && DigitsValue(Unseparated(s)) < TWO_256
    ensures r.Some? ==> r.value == DigitsValue(Unseparated(s))
  {
    Accumulate(0, s)
  }

  /**
   * `chars().filter(is_numeric).count()`, the numeric characters being the
   * ASCII digits: in a string radix-10 parsing accepts, the number of digits
   * left once '_' is dropped.
   */
  function CountNumeric(s: string): (n: nat)
    ensures n <= |s|
    ensures IsRadix10(s) ==> n == |Unseparated(s)|
  {
    if s == [] then 0
    else
      assert IsRadix10(s) ==> IsRadix10(s[1..]) by {
        assert forall i :: 1 <= i < |s| ==> s[1..][i - 1] == s[i];
      }
      (if IsDigit(s[0]) then 1 else 0) + CountNumeric(s[1..])
  }

  // ---- `usize::from_str` ---------------------------------------------------

  /** The digits `usize::from_str` reads: s without one leading '+'. */
  function UnsignedDigits(s: string): string
  {
    if |s| > 0 && s[0] == '+' then s[1..] else s
  }

  /**
   * `str::parse::<usize>()`: an optional leading '+', then at least one ASCII
   * digit and nothing else ('_' is not accepted), with a value below 2^64.
   */
  function ParseUsize(s: string): (r: Option<usize>)
  {
    var ds := UnsignedDigits(s);
    if ds == [] || !AllDigits(ds) then None
    else if DigitsValue(ds) < TWO_64 then Some(DigitsValue(ds))
    else None
  }

  /** Every `usize` written in decimal parses back to itself. */
  lemma ParseUsizeRendering(n: usize)
    ensures ParseUsize(DecimalString(n)) == Some(n)
  {
    DecimalStringValue(n);
  }

  /** A '_' anywhere makes `usize::from_str` fail. */
  lemma ParseUsizeRejectsSeparator(s: string, i: nat)
    requires i < |s| && s[i] == '_'
    ensures ParseUsize(s) == None
  {
    if |s| > 0 && s[0] == '+' {
      assert UnsignedDigits(s)[i - 1] == '_';
    } else {
      assert UnsignedDigits(s)[i] == '_';
    }
  }

  // ---- `str::split` --------------------------------------------------------

  /** `s.split(sep)`: the pieces between occurrences of sep; there is always at least one. */
  function Split(s: string, sep: char): (pieces: seq<string>)
    ensures |pieces| >= 1
    ensures forall i :: 0 <= i < |pieces| ==> sep !in pieces[i]
  {
    if s == [] then [[]]
    else
      var rest := Split(s[1..], sep);
      if s[0] == sep then [[]] + rest
      else [[s[0]] + rest[0]] + rest[1..]
  }

  /** The pieces put back together with sep between them. */
  function Join(pieces: seq<string>, sep: char): string
    requires |pieces| >= 1
  {
    if |pieces| == 1 then pieces[0] else pieces[0] + [sep] + Join(pieces[1..], sep)
  }

  /** Splitting loses nothing: joining the pieces gives the string back. */
  lemma {:induction false} SplitJoin(s: string, sep: char)
    ensures Join(Split(s, sep), sep) == s
  {
    if s != [] {
      var rest := Split(s[1..], sep);
      SplitJoin(s[1..], sep);
      if s[0] == sep {
        assert Split(s, sep)[1..] == rest;
      } else {
        var pieces := Split(s, sep);
        if |rest| > 1 {
          assert pieces[1..] == rest[1..];
        }
      }
    }
  }

  /** A string without the separator is a single piece. */
  lemma {:induction false} SplitWithout(a: string, sep: char)
    requires sep !in a
    ensures Split(a, sep) == [a]
  {
    if a != [] {
      SplitWithout(a[1..], sep);
      assert [a[0]] + a[1..] == a;
    }
  }

  /** The first separator ends the first piece. */
  lemma {:induction false} SplitAtFirst(a: string, b: string, sep: char)
    requires sep !in a
    ensures Split(a + [sep] + b, sep) == [a] + Split(b, sep)
  {
    if a == [] {
      assert a + [sep] + b == [sep] + b;
      assert ([sep] + b)[1..] == b;
    } else {
      var s := a + [sep] + b;
      assert s[1..] == a[1..] + [sep] + b;
      SplitAtFirst(a[1..], b, sep);
      assert [a[0]] + a[1..] == a;
    }
  }
}
