# alloy-unit-macros: `try_expand` in Dafny

The crate's unit macros are `ether!`, `gwei!`, `btc!`, `mwei!`, `wei!`, `u256!` and `amount!`.
Each one forwards `[$crate] [d]` and its own tokens to the procedural macro `amount_impl`.
That macro calls `try_expand`, which turns a literal such as `1.678`, `150_000` or `-1` into an exact 256-bit integer.
The integer is the literal scaled by 10^d.
It comes out as a `U256` when there is no sign and as an `I256` when there is one.
The generated code rebuilds it from four little-endian 64-bit limbs.

This project models `try_expand` (impl/src/lib.rs:21-137) and proves what it computes:

- `Tokens`: the token trees the macro receives.
- `Uint`: the fixed-width integers the macro calls.
  - `U256` is a `nat` below 2^256.
  - `I256` is an `int` in [-2^255, 2^255).
  - The model covers `checked_mul`, `checked_add`, ruint's wrapping `pow`, `I256::try_from` and `I256::checked_sub`.
  - It also covers two's-complement storage and the limbs of `as_limbs`/`from_limbs`.
- `Digits`: the string functions the macro calls.
  - `U256::from_str_radix(_, 10)` skips `_`, and reads the empty string as 0.
  - `str::parse::<usize>` is modelled as well.
  - So are `chars().filter(is_numeric).count()` and `str::split`.
- `Expand`: the macro itself.
  - `ParseRequest` holds the shape checks of lines 22-80, in source order.
  - `SplitLiteral` models lines 82-98.
  - `Scale` models the checked arithmetic of lines 100-112 as it is evidently meant to work, with exact powers of ten. `ScaleAsWritten` models the same lines as written, with ruint's wrapping power (see Findings).
  - `ApplySign` models lines 114-121.
  - `Emit` models the limb output of lines 123-133.
  - `ExpandTokens` composes them.
  - `TryExpand` is the imperative version. It walks the tokens with a cursor, re-reads `item` after a sign and reassigns `res` when it negates. Its contract is that it equals `ExpandTokens`.
- `Units`: the `macro_rules!` wrappers of src/lib.rs and the values that the doc tests and tests/test.rs write out.

Errors are modelled by kind: `Structural(shape)` with one shape per message of the token checks, then `Parse`, `Precision` ("too many decimals") and `Overflow`.

A punctuation mark with nothing after it is "missing literal", even if it is not a sign. The source checks for the next token before it checks the sign (impl/src/lib.rs:60-69), and the model does the same.

The model departs from the code in one place. `U256::from(10).pow(..)` wraps modulo 2^256 (impl/src/lib.rs:101, 107). The whole expansion uses the corrected, exact scaling; the code as written is modelled beside it (see Findings).

## Model

| member | source | states |
|---|---|---|
| Uint.CheckedMul | impl/src/lib.rs:100-108 | the product is returned exactly when it is below 2^256, otherwise nothing |
| Uint.CheckedAdd | impl/src/lib.rs:110-112 | the sum is returned exactly when it is below 2^256, otherwise nothing |
| Uint.WrappingPow | impl/src/lib.rs:101 | ruint's `pow` equals the true power whenever that power fits in 256 bits |
| Uint.PowTenFits | impl/src/lib.rs:101 | 10^e fits in 256 bits if and only if e <= 77 |
| Uint.PowTenWrapsToZero | impl/src/lib.rs:101 | for e >= 256, 10^e is a multiple of 2^256, so the wrapped power is 0 |
| Uint.I256TryFrom | impl/src/lib.rs:115-116 | the conversion succeeds if and only if the magnitude is below 2^255, and keeps its value |
| Uint.I256CheckedSub | impl/src/lib.rs:117-120 | the difference is returned exactly when it lies in [-2^255, 2^255) |
| Uint.TwosRoundTrip | impl/src/lib.rs:123-127 | decoding the two's-complement pattern of a signed value gives the value back |
| Uint.TwosPatternRoundTrip | impl/src/lib.rs:123-127 | encoding the signed value of a 256-bit pattern gives the pattern back |
| Uint.ToTwos | impl/src/lib.rs:123 | the stored pattern is below 2^255 if and only if the value is not negative |
| Uint.AsLimbs | impl/src/lib.rs:123-129 | the four little-endian 64-bit limbs add up, by weight, to the value |
| Uint.FromLimbs | impl/src/lib.rs:125-133 | `from_limbs` inverts `as_limbs`: the limbs of its result are its input |
| Uint.LimbsRoundTrip | impl/src/lib.rs:123-133 | rebuilding a value from its limbs gives the value back |
| Uint.LimbsUnique | impl/src/lib.rs:123-133 | every limb sequence is the decomposition of its own value |
| Uint.LimbWeights | impl/src/lib.rs:123-133 | value = a + b*2^64 + c*2^128 + d*2^192 for limbs [a, b, c, d] |
| Digits.ParseU256 | impl/src/lib.rs:85-91 | radix-10 parsing succeeds if and only if every character is a digit or '_' and the digits' value is below 2^256; the result is that value |
| Digits.SeparatorIgnored | impl/src/lib.rs:85-91 | a '_' inside a digit string does not change what it parses to |
| Digits.CountNumeric | impl/src/lib.rs:89-90 | in a string that radix-10 parsing accepts, `shift` is the number of digits once '_' is dropped; it never exceeds the length |
| Digits.ParseUsizeRendering | impl/src/lib.rs:41-43 | every `usize` written in decimal parses back to itself as the decimals |
| Digits.ParseUsizeRejectsSeparator | impl/src/lib.rs:41-43 | a '_' anywhere in the decimals literal is a parse error |
| Digits.Split | impl/src/lib.rs:83 | `split` gives at least one piece, and no piece contains the separator |
| Digits.SplitJoin | impl/src/lib.rs:83 | joining the pieces with the separator gives the literal back |
| Digits.SplitWithout | impl/src/lib.rs:83-98 | a literal without '.' is a single piece |
| Digits.SplitAtFirst | impl/src/lib.rs:83-94 | the first '.' ends the first piece, and the rest is split the same way |
| Expand.ParseRequest | impl/src/lib.rs:22-80 | an accepted stream is exactly path group, decimals group, optional sign and one literal, laid out from the request it yields |
| Expand.ParseRequestAccepts | impl/src/lib.rs:22-80 | every such layout is accepted and gives back its request (the inverse of the above) |
| Expand.LeadingErrors | impl/src/lib.rs:24-53 | a missing or non-group path, a missing decimals token, a non-group decimals token and an unparsable decimals group each give their own error |
| Expand.ShapeErrors | impl/src/lib.rs:55-80 | no content, a mark with nothing after it, a mark other than '+'/'-', a non-literal amount and an extra token each give their own error |
| Expand.SplitLiteralWhole | impl/src/lib.rs:83-98 | a literal without '.' is its parsed value with lower 0 and shift 0, or a parse error |
| Expand.SplitLiteralFraction | impl/src/lib.rs:83-98 | a literal i.f gives both parsed parts and the count of digits in f, or a parse error |
| Expand.SplitLiteralSecondPoint | impl/src/lib.rs:85-94 | a second '.' is rejected, after both earlier pieces have been parsed |
| Expand.Scale | impl/src/lib.rs:100-112 | the result is exactly upper*10^d + lower*10^(d-shift), if and only if shift <= d and that is below 2^256; precision error exactly when shift > d and upper*10^d fits; otherwise overflow |
| Expand.ScaleAsWrittenAgrees | impl/src/lib.rs:100-108 | for d <= 77, the source's wrapping power gives the same result as the exact scaling |
| Expand.ScaleAsWrittenDiverges | impl/src/lib.rs:100-112 | for every d >= 78, the source as written accepts the literal 1 with the wrapped value 10^d mod 2^256, while the exact scaling overflows |
| Expand.ScaleAsWrittenVanishes | impl/src/lib.rs:100-108 | for d >= shift + 256, the source as written yields 0 while the exact scaling of a non-zero literal overflows |
| Expand.PointRemoved | impl/src/lib.rs:88-112 | i*10^d + f*10^(d-k) is the digits of i and f run together, times 10^(d-k): nothing is rounded |
| Expand.ParsedPointRemoved | impl/src/lib.rs:88-112 | the same for the values that radix-10 parsing reads from i and f |
| Expand.ApplySign | impl/src/lib.rs:114-121 | no sign gives the `U256` magnitude; '+' gives the magnitude and '-' its negation, both only below 2^255; a signed result is never -2^255 |
| Expand.Emit | impl/src/lib.rs:114-134 | `U256::from_limbs` is used without a sign and `I256::from_limbs` with one, under the given path, and the call rebuilds the amount |
| Expand.TryExpand | impl/src/lib.rs:21-137 | the step-by-step walk returns what `ExpandTokens` specifies on every input |
| Expand.WholeLiteral | impl/src/lib.rs:96-112 | a literal without a point and without a sign is n*10^d if that fits, otherwise overflow, or a parse error |
| Expand.WholeNumber | impl/src/lib.rs:21-137 | `[path] [d] n` expands to the limbs of n*10^d; overflow when that does not fit; a parse error when n does not fit |
| Expand.UnsignedIsScaled | impl/src/lib.rs:100-112 | without a sign, the result is the scaling of the literal's parts |
| Expand.FractionalLiteral | impl/src/lib.rs:83-112 | i.f without a sign is a parse error unless both parts parse; otherwise it is `Scale` of the parsed parts with shift equal to the digit count of f |
| Expand.UnsignedValue | impl/src/lib.rs:100-112 | an accepted unsigned result has shift <= d and is exactly upper*10^d + lower*10^(d-shift) |
| Expand.SeparatorInLiteral | impl/src/lib.rs:85 | a '_' in a literal without a point does not change the result |
| Expand.TooManyDecimals | impl/src/lib.rs:100-105 | more fractional digits than decimals is the precision error, or overflow if upper*10^d already overflowed; never a truncated value |
| Expand.SecondPointRejected | impl/src/lib.rs:85-94 | a literal with a second '.' is rejected, as a parse error if an earlier piece does not parse |
| Expand.SignedFromUnsigned | impl/src/lib.rs:114-121 | with a sign, the result is the unsigned result's magnitude or its negation, with overflow from 2^255 on; unsigned errors are kept |
| Expand.NegativeRange | impl/src/lib.rs:117-120 | a negative amount lies in [-(2^255-1), 0] |
| Expand.NeverSignedMinimum | impl/src/lib.rs:114-133 | no input expands to `I256::MIN` |
| Units.UnitCallExpands | src/lib.rs:121-125 | `amount_impl!([$crate] [d] sign literal)` is the evaluation of that request, emitted under `$crate` |
| Units.UnitDecimals | src/lib.rs:15-91 | the decimals literals 18, 9, 8, 6 and 0 of the unit macros parse to those numbers |
| Units.EtherWhole | tests/test.rs:6-9 | `ether!(150_000)` is 150000 * 10^18 |
| Units.OnePointSixSevenEight | tests/test.rs:11-17 | 1.678 is 1678*10^(d-3) at 18, 9 and 6 decimals, and a precision error at 0 |
| Units.EtherAndGweiFraction | tests/test.rs:11-14 | `ether!(1.678)` is 1678*10^15 and `gwei!(1.678)` is 1678*10^6 |
| Units.MweiNegativeFraction | tests/test.rs:17 | `mwei!(-1.678)` is the signed -1678000 |
| Units.WeiPlusOne | tests/test.rs:20 | `wei!(+1)` is the signed 1 |
| Units.EtherOne | src/lib.rs:12-13 | `ether!(1)` is 10^18 and `ether!(-1)` is -10^18 |
| Units.AmountTwoFiftySix | src/lib.rs:121-125 | `amount!(256, 1)` overflows in the corrected model and is 0 as written |

## Left out

- `amount_impl` (impl/src/lib.rs:7-19) is not modelled. It turns an error into `compile_error!`, which is compiler plumbing. The model returns the error kind instead.
- Error message texts and spans are not modelled. Each message is one `Error` value; `Structural` carries the shape check that failed.
- The `quote!` output is not modelled as tokens. `Expansion` keeps the path tokens, the choice of `U256` or `I256` and the four limbs. The `::__private::alloy_primitives` suffix is fixed text and is dropped.
- syn's `bracketed!` parser is not modelled in detail. A decimals group is accepted only when it is a bracket group holding exactly one literal; anything else is the parse error.
- `Literal::to_string` is modelled by the text a `Literal` token carries. Token kinds other than group, identifier, punctuation and literal do not occur.
- The `amount!` macro forwards its decimals as a `$d:literal` fragment. The model treats that fragment as a plain literal token.
- `is_numeric` is counted on ASCII digits only. On every string that radix-10 parsing accepts, the two counts are the same (`Digits.CountNumeric`). A literal with non-ASCII numerals fails to parse either way.
- The expansion-level members (`Expand.ExpandTokens`, `Expand.TryExpand`, `Expand.WholeLiteral`, `Expand.WholeNumber`, `Expand.FractionalLiteral`, `Expand.UnsignedValue`, `Expand.TooManyDecimals`, `Expand.SignedFromUnsigned` and the `Units` lemmas) describe the corrected scaling. The code departs from them from 78 decimals on, where its power of ten wraps (`Expand.ScaleAsWrittenDiverges`).
- `usize` is taken to be 64 bits wide.
- The doc tests of src/lib.rs compare against `U256::pow` and `I256` negation. Their values are stated as literal numbers in `Units.EtherOne`, and the other units' doc tests are left out.
- The `amount!(d, 100) == unit!(100)` doc tests at src/lib.rs:114-118 are left out. Both sides pass the same tokens to `try_expand`, so they are equal by construction.
- The `println!` calls in tests/test.rs are left out.
- The following members carry no contract of their own. The lemmas named with each state their behaviour:
  - Digits.ParseUsize: Digits.ParseUsizeRendering and Digits.ParseUsizeRejectsSeparator.
  - Expand.DecimalsOf (the `bracketed!` and `parse::<usize>` step, impl/src/lib.rs:36-46): Expand.ParseRequest, Expand.ParseRequestAccepts and Expand.LeadingErrors.
  - Expand.SplitLiteral: Expand.SplitLiteralWhole, Expand.SplitLiteralFraction and Expand.SplitLiteralSecondPoint.
  - Expand.ScaleAsWritten (impl/src/lib.rs:100-112 as written): Expand.ScaleAsWrittenAgrees, Expand.ScaleAsWrittenDiverges and Expand.ScaleAsWrittenVanishes.
  - Expand.ScaledAmount (impl/src/lib.rs:100-121 composed): Expand.UnsignedValue and Expand.SignedFromUnsigned.
  - Expand.Evaluate: Expand.WholeLiteral, Expand.FractionalLiteral, Expand.TooManyDecimals, Expand.SecondPointRejected and Expand.SignedFromUnsigned.
  - Expand.Denotation (the value `from_limbs` builds, impl/src/lib.rs:126 and 132): Expand.Emit.
  - Expand.ExpandTokens: Expand.TryExpand, Expand.LeadingErrors, Expand.ShapeErrors, Expand.WholeNumber and Expand.NeverSignedMinimum.
- Expand.TryExpand calls the corrected `Scale`, not `ScaleAsWritten` (see Findings).

## Findings

| source | as written | input that shows it | evidently intended | confidence | as-written member | corrected member |
|---|---|---|---|---|---|---|
| impl/src/lib.rs:101 | `U256::from(10).pow(U256::from(decimals))` is ruint's unchecked `pow`, which wraps modulo 2^256, and only the following `checked_mul` is checked | `amount!(256, 1)`: 10^256 is a multiple of 2^256, so the power wraps to 0 and the macro yields 0. From 78 decimals on, every result is computed with a wrapped power: `amount!(78, 1)` yields 10^78 mod 2^256 | an overflow error whenever literal * 10^d does not fit in 256 bits | not executed | Expand.ScaleAsWrittenDiverges | Expand.Scale |
