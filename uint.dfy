/**
 * The fixed-width integers the macro computes with, over Dafny's unbounded
 * integers: ruint's 256-bit unsigned `U256`, alloy-primitives' 256-bit
 * two's-complement `I256`, their 64-bit limbs, and the host's `usize`
 * (a 64-bit target is assumed).  Only the operations the macro calls are
 * modelled, each by what it computes, not by how ruint computes it.
 */
module Uint {
  import opened Wrappers

  const TWO_64: int := 0x1_0000_0000_0000_0000
  const TWO_128: int := 0x1_0000_0000_0000_0000_0000_0000_0000_0000
  const TWO_192: int := 0x1_0000_0000_0000_0000_0000_0000_0000_0000_0000_0000_0000_0000
  const TWO_255: int := 0x8000_0000_0000_0000_0000_0000_0000_0000_0000_0000_0000_0000_0000_0000_0000_0000
  const TWO_256: int := 0x1_0000_0000_0000_0000_0000_0000_0000_0000_0000_0000_0000_0000_0000_0000_0000_0000

  type u64 = n: nat | n < TWO_64
  type usize = n: nat | n < TWO_64
  type u256 = n: nat | n < TWO_256
  type i256 = i: int | -TWO_255 <= i < TWO_255

  /** The four little-endian 64-bit limbs of a 256-bit word (`[u64; 4]`). */
  type Limbs = ls: seq<u64> | |ls| == 4 witness [0, 0, 0, 0]

  function Pow(b: nat, e: nat): nat
  {
    if e == 0 then 1 else b * Pow(b, e - 1)
  }

  lemma {:induction false} PowAdd(b: nat, m: nat, n: nat)
    ensures Pow(b, m + n) == Pow(b, m) * Pow(b, n)
  {
    if m > 0 {
      PowAdd(b, m - 1, n);
      assert Pow(b, m + n) == b * Pow(b, m - 1 + n);
    }
  }

  lemma {:induction false} PowPositive(b: nat, e: nat)
    requires b >= 1
    ensures Pow(b, e) >= 1
  {
    if e > 0 {
      PowPositive(b, e - 1);
    }
  }

  lemma {:induction false} PowMonotone(b: nat, m: nat, n: nat)
    requires b >= 1 && m <= n
    ensures Pow(b, m) <= Pow(b, n)
  {
    if m < n {
      PowMonotone(b, m, n - 1);
      PowPositive(b, n - 1);
    }
  }

  /** 10^77 is the largest power of ten below 2^256. */
  lemma PowTenBounds()
    ensures Pow(10, 77) < TWO_256 <= Pow(10, 78)
  {
    assert Pow(10, 4) == 1_0000;
    PowAdd(10, 4, 4);
    assert Pow(10, 8) == 1_0000_0000;
    PowAdd(10, 8, 8);
    assert Pow(10, 16) == 1_0000_0000_0000_0000;
    PowAdd(10, 16, 16);
    assert Pow(10, 32) == 1_0000_0000_0000_0000_0000_0000_0000_0000;
    PowAdd(10, 32, 32);
    assert Pow(10, 64) == 1_0000_0000_0000_0000_0000_0000_0000_0000_0000_0000_0000_0000_0000_0000_0000_0000;
    PowAdd(10, 64, 8);
    assert Pow(10, 72) == 1_0000_0000_0000_0000_0000_0000_0000_0000_0000_0000_0000_0000_0000_0000_0000_0000_0000_0000;
    PowAdd(10, 72, 4);
    assert Pow(10, 76) == 1_0000_0000_0000_0000_0000_0000_0000_0000_0000_0000_0000_0000_0000_0000_0000_0000_0000_0000_0000;
    assert Pow(10, 77) == 10 * Pow(10, 76);
    assert Pow(10, 78) == 10 * Pow(10, 77);
  }

  /** 10^e fits in 256 bits exactly when e is at most 77. */
  lemma PowTenFits(e: nat)
    ensures Pow(10, e) < TWO_256 <==> e <= 77
  {
    PowTenBounds();
    if e <= 77 {
      PowMonotone(10, e, 77);
    } else {
      PowMonotone(10, 78, e);
    }
  }

  lemma PowTwo256()
    ensures Pow(2, 256) == TWO_256
  {
    assert Pow(2, 4) == 16;
    PowAdd(2, 4, 4);
    assert Pow(2, 8) == 0x100;
    PowAdd(2, 8, 8);
    assert Pow(2, 16) == 0x1_0000;
    PowAdd(2, 16, 16);
    assert Pow(2, 32) == 0x1_0000_0000;
    PowAdd(2, 32, 32);
    assert Pow(2, 64) == TWO_64;
    PowAdd(2, 64, 64);
    assert Pow(2, 128) == TWO_128;
    PowAdd(2, 128, 128);
  }

  lemma {:induction false} PowTenFactors(e: nat)
    ensures Pow(10, e) == Pow(2, e) * Pow(5, e)
  {
    if e > 0 {
      PowTenFactors(e - 1);
      calc {
        Pow(10, e);
        10 * (Pow(2, e - 1) * Pow(5, e - 1));
        (2 * Pow(2, e - 1)) * (5 * Pow(5, e - 1));
      }
    }
  }

  /** From e = 256 on, 10^e is a multiple of 2^256, so it wraps to zero. */
  lemma PowTenWrapsToZero(e: nat)
    requires e >= 256
    ensures Pow(10, e) % TWO_256 == 0
  {
    var k := Pow(2, e - 256) * Pow(5, e);
    assert Pow(10, e) == TWO_256 * k by {
      PowTenFactors(e);
      PowAdd(2, 256, e - 256);
      PowTwo256();
      MulAssociates(Pow(2, 256), Pow(2, e - 256), Pow(5, e));
    }
    MultipleMod(Pow(10, e), TWO_256, k);
  }

  /** A multiple of m leaves no remainder. */
  lemma MultipleMod(n: int, m: int, k: int)
    requires m > 0 && n == m * k
    ensures n % m == 0
  {
    var t := k - n / m;
    assert m * t == n % m;
    MulSignBounds(m, t);
  }

  lemma MulSignBounds(m: int, t: int)
    requires m > 0
    ensures t >= 1 ==> m * t >= m
    ensures t <= -1 ==> m * t <= -m
  {
  }

  lemma MulAssociates(a: int, b: int, c: int)
    ensures (a * b) * c == a * (b * c)
  {
  }

  lemma PowLimbBase()
    ensures Pow(TWO_64, 4) == TWO_256
  {
  }

  // ---- U256 (ruint) -------------------------------------------------------

  /** `checked_mul`: the exact product when it is below 2^256, `None` otherwise. */
  function CheckedMul(a: nat, b: nat): (r: Option<u256>)
    ensures r.Some? <==> a * b < TWO_256
    ensures r.Some? ==> r.value == a * b
  {
    if a * b < TWO_256 then Some(a * b) else None
  }

  /** `checked_add`: the exact sum when it is below 2^256, `None` otherwise. */
  function CheckedAdd(a: u256, b: u256): (r: Option<u256>)
    ensures r.Some? <==> a + b < TWO_256
    ensures r.Some? ==> r.value == a + b
  {
    if a + b < TWO_256 then Some(a + b) else None
  }

  /** ruint's `pow`, which is not checked: the power reduced modulo 2^256. */
  function WrappingPow(b: u256, e: nat): (r: u256)
    ensures Pow(b, e) < TWO_256 ==> r == Pow(b, e)
  {
    Pow(b, e) % TWO_256
  }

  // ---- I256 (alloy-primitives) --------------------------------------------

  /** `I256::try_from(U256)`: succeeds exactly for magnitudes below 2^255. */
  function I256TryFrom(u: u256): (r: Option<i256>)
    ensures r.Some? <==> u < TWO_255
    ensures r.Some? ==> r.value == u
  {
    if u < TWO_255 then Some(u as i256) else None
  }

  /** `I256::checked_sub`: the exact difference when it lies in the signed range. */
  function I256CheckedSub(a: i256, b: i256): (r: Option<i256>)
    ensures r.Some? <==> -TWO_255 <= a - b < TWO_255
    ensures r.Some? ==> r.value == a - b
  {
    if -TWO_255 <= a - b < TWO_255 then Some(a - b) else None
  }

  /** The 256-bit two's-complement pattern that stores a signed value. */
  function ToTwos(i: i256): (u: u256)
    ensures (u < TWO_255) == (i >= 0)
  {
    if i >= 0 then i else i + TWO_256
  }

  /** The signed value a 256-bit two's-complement pattern stands for. */
  function FromTwos(u: u256): (i: i256)
    ensures (i >= 0) == (u < TWO_255)
  {
    if u < TWO_255 then u else u - TWO_256
  }

  lemma TwosRoundTrip(i: i256)
    ensures FromTwos(ToTwos(i)) == i
  {
  }

  lemma TwosPatternRoundTrip(u: u256)
    ensures ToTwos(FromTwos(u)) == u
  {
  }

  // ---- limbs ---------------------------------------------------------------

  /** The number a little-endian sequence of 64-bit limbs stands for. */
  function LimbsValue(ls: seq<u64>): (v: nat)
    ensures v < Pow(TWO_64, |ls|)
  {
    if ls == [] then 0 else ls[0] + TWO_64 * LimbsValue(ls[1..])
  }

  /** The n lowest little-endian 64-bit limbs of v. */
  function ToLimbs(v: nat, n: nat): (ls: seq<u64>)
    ensures |ls| == n
    ensures v < Pow(TWO_64, n) ==> LimbsValue(ls) == v
  {
    if n == 0 then [] else [v % TWO_64] + ToLimbs(v / TWO_64, n - 1)
  }

  /** Every limb sequence is the limb decomposition of its own value. */
  lemma {:induction false} LimbsUnique(ls: seq<u64>)
    ensures ToLimbs(LimbsValue(ls), |ls|) == ls
  {
    if ls != [] {
      var rest := LimbsValue(ls[1..]);
      assert LimbsValue(ls) % TWO_64 == ls[0];
      assert LimbsValue(ls) / TWO_64 == rest;
      LimbsUnique(ls[1..]);
    }
  }

  /** `as_limbs` of a `U256`. */
  function AsLimbs(v: u256): (ls: Limbs)
    ensures LimbsValue(ls) == v
  {
    PowLimbBase();
    ToLimbs(v, 4)
  }

  /** `from_limbs` of a `U256`: the inverse of `AsLimbs`. */
  function FromLimbs(ls: Limbs): (v: u256)
    ensures AsLimbs(v) == ls
  {
    PowLimbBase();
    LimbsUnique(ls);
    LimbsValue(ls)
  }

  /** Reading back the limbs of v gives v. */
  lemma LimbsRoundTrip(v: u256)
    ensures FromLimbs(AsLimbs(v)) == v
  {
    var w := FromLimbs(AsLimbs(v));
    assert LimbsValue(AsLimbs(w)) == w;
  }

  /** Limb i carries weight 2^(64 i). */
  lemma LimbWeights(ls: Limbs)
    ensures LimbsValue(ls) == ls[0] + ls[1] * TWO_64 + ls[2] * TWO_128 + ls[3] * TWO_192
  {
    assert ls[1..][1..] == ls[2..];
    assert ls[2..][1..] == ls[3..];
    assert ls[3..][1..] == [];
    assert LimbsValue(ls[3..]) == ls[3];
    assert LimbsValue(ls[2..]) == ls[2] + TWO_64 * ls[3];
    assert LimbsValue(ls[1..]) == ls[1] + TWO_64 * (ls[2] + TWO_64 * ls[3]);
  }
}
