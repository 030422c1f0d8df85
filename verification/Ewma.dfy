/**
 * The fixed-point exponentially weighted moving average of util/average.c,
 * on 64-bit unsigned long, and ilog2 of util/util.c.
 */
module Ewma {
  const ULONG_MAX := 0xFFFF_FFFF_FFFF_FFFF

  type u64 = x: int | 0 <= x < 0x1_0000_0000_0000_0000

  /** Truncation to unsigned long. */
  function Word(x: int): u64 {
    x % 0x1_0000_0000_0000_0000
  }

  function Pow2(n: nat): (p: nat)
    ensures p >= 1
  {
    if n == 0 then 1 else 2 * Pow2(n - 1)
  }

  // ----- shifts, before truncation to a word -----

  /** x << n */
  function Shl(x: nat, n: nat): (r: nat)
    ensures r >= x
    decreases n
  {
    if n == 0 then x else Shl(2 * x, n - 1)
  }

  /** x >> n */
  function Shr(x: nat, n: nat): (r: nat)
    ensures r <= x
  {
    if n == 0 then x else Shr(x, n - 1) / 2
  }

  lemma {:induction false} ShlAdd(a: nat, b: nat, n: nat)
    ensures Shl(a + b, n) == Shl(a, n) + Shl(b, n)
    decreases n
  {
    if n > 0 {
      ShlAdd(2 * a, 2 * b, n - 1);
    }
  }

  /** Shifting stretches distances, so x << n minus x never decreases in x. */
  lemma ShlGrows(a: nat, b: nat, n: nat)
    requires a <= b
    ensures Shl(a, n) - a <= Shl(b, n) - b
  {
    ShlAdd(a, b - a, n);
  }

  /** x >> n is the floor of the quotient by 2^n. */
  lemma {:induction false} ShrFloor(x: nat, n: nat)
    ensures Shl(Shr(x, n), n) <= x < Shl(Shr(x, n) + 1, n)
  {
    if n > 0 {
      var y := Shr(x, n - 1);
      ShrFloor(x, n - 1);
      ShlGrows(2 * (y / 2), y, n - 1);
      ShlGrows(y + 1, 2 * (y / 2 + 1), n - 1);
    }
  }

  lemma {:induction false} ShlIsTimes(x: nat, n: nat)
    ensures Shl(x, n) == x * Pow2(n)
    decreases n
  {
    if n > 0 {
      ShlIsTimes(2 * x, n - 1);
      Regroup(x, Pow2(n - 1));
    }
  }

  lemma Regroup(x: nat, y: nat)
    ensures 2 * x * y == x * (2 * y)
  {
  }

  // ----- ilog2 -----

  /** The arithmetic shift x >> n of a signed int. */
  function Halved(x: int, n: nat): int {
    if n == 0 then x else Halved(x, n - 1) / 2
  }

  /** ilog2 counts the trailing zero bits of x; zero has none to stop at, so the source loops on it forever. */
  method Ilog2(x: int) returns (n: nat)
    requires x != 0
    ensures Halved(x, n) % 2 == 1
    ensures forall k: nat :: k < n ==> Halved(x, k) % 2 == 0
  {
    var y := x;
    n := 0;
    while y % 2 == 0
      invariant y != 0 && y == Halved(x, n)
      invariant forall k: nat :: k < n ==> Halved(x, k) % 2 == 0
      decreases if y < 0 then -y else y
    {
      y := y / 2;
      n := n + 1;
    }
  }

  /** Conversion of an unsigned long to a signed int: the low 32 bits, with the top one as sign. */
  function ToInt(x: u64): int {
    var low := x % 0x1_0000_0000;
    if low < 0x8000_0000 then low else low - 0x1_0000_0000
  }

  /** A power of two, or its negative. */
  function SignedPow2(k: nat, negative: bool): int {
    var p: int := Pow2(k);
    if negative then -p else p
  }

  lemma {:induction false} HalvedPow2(k: nat, negative: bool, n: nat)
    requires n <= k
    ensures Halved(SignedPow2(k, negative), n) == SignedPow2(k - n, negative)
  {
    if n > 0 {
      HalvedPow2(k, negative, n - 1);
    }
  }

  lemma {:induction false} Pow2Grows(a: nat, b: nat)
    requires a <= b
    ensures Pow2(a) <= Pow2(b)
  {
    if a < b {
      Pow2Grows(a, b - 1);
    }
  }

  lemma {:induction false} Pow2Whole(k: nat)
    requires k >= 32
    ensures Pow2(k) == 0x1_0000_0000 * Pow2(k - 32)
  {
    if k > 32 {
      Pow2Whole(k - 1);
    } else {
      Pow2Of31();
    }
  }

  lemma IntOfWhole(x: u64, q: nat)
    requires x == 0x1_0000_0000 * q
    ensures ToInt(x) == 0
  {
  }

  lemma Pow2Of31()
    ensures Pow2(31) == 0x8000_0000
  {
    assert Pow2(8) == 0x100;
    assert Pow2(16) == 0x1_0000;
    assert Pow2(24) == 0x100_0000;
  }

  lemma Pow2Fits(k: nat)
    requires k < 31
    ensures Pow2(k) < 0x8000_0000
  {
    Pow2Of31();
    Pow2Grows(k + 1, 31);
  }

  /** The powers of two that are nonzero as a signed int: 2^31 becomes negative. */
  lemma IntOfPow2(k: nat)
    requires Pow2(k) <= ULONG_MAX && ToInt(Pow2(k)) != 0
    ensures k <= 31 && ToInt(Pow2(k)) == SignedPow2(k, k == 31)
  {
    if k >= 32 {
      Pow2Whole(k);
      IntOfWhole(Pow2(k), Pow2(k - 32));
    } else if k == 31 {
      Pow2Of31();
    } else {
      Pow2Fits(k);
    }
  }

  /** On a power of two, whichever sign it has as a signed int, the number of trailing zeros is the exponent. */
  lemma TrailingZeros(k: nat, n: nat)
    requires Pow2(k) <= ULONG_MAX && ToInt(Pow2(k)) != 0
    requires Halved(ToInt(Pow2(k)), n) % 2 == 1
    requires forall j: nat :: j < n ==> Halved(ToInt(Pow2(k)), j) % 2 == 0
    ensures n == k
  {
    IntOfPow2(k);
    HalvedPow2(k, k == 31, if n < k then n else k);
  }

  // ----- struct ewma -----

  /** ewma_add on machine words: every operator wraps at 64 bits. */
  function AddWord(internal: u64, factor: nat, weight: nat, val: u64): u64 {
    var scaled := Word(Shl(val, factor));
    if internal != 0 then
      Shr(Word(Word(Word(Shl(internal, weight)) - internal) + scaled), weight)
    else
      scaled
  }

  class Ewma {
    var internal: u64
    var factor: nat
    var weight: nat
    /** The object this is part of, if any. */
    ghost var owner: object?

    /**
     * ewma_init.  A parameter that is no power of two is only logged; its trailing zeros are used. On a parameter whose low
     * 32 bits are all zero, ilog2 does not return.
     */
    constructor (factor: u64, weight: u64)
      requires ToInt(factor) != 0 && ToInt(weight) != 0
      ensures internal == 0 && owner == null
      ensures Halved(ToInt(factor), this.factor) % 2 == 1 && Halved(ToInt(weight), this.weight) % 2 == 1
      ensures forall k: nat :: Pow2(k) == factor ==> this.factor == k
      ensures forall k: nat :: Pow2(k) == weight ==> this.weight == k
    {
      var w := Ilog2(ToInt(weight));
      var f := Ilog2(ToInt(factor));
      this.weight := w;
      this.factor := f;
      this.internal := 0;
      this.owner := null;
      new;
      forall k: nat | Pow2(k) == factor
        ensures f == k
      {
        TrailingZeros(k, f);
      }
      forall k: nat | Pow2(k) == weight
        ensures w == k
      {
        TrailingZeros(k, w);
      }
    }

    method Add(val: u64)
      modifies `internal
      ensures internal == AddWord(old(internal), factor, weight, val)
    {
      if internal != 0 {
        var up := Word(Shl(internal, weight));
        var sum := Word(Word(up - internal) + Word(Shl(val, factor)));
        internal := Shr(sum, weight);
      } else {
        internal := Word(Shl(val, factor));
      }
    }
  }

  /** ewma_read */
  function ReadOf(internal: nat, factor: nat): nat {
    Shr(internal, factor)
  }

  // ----- the documented limit rules out wrap-around -----

  /** ewma_add on unbounded integers. */
  function AddNat(internal: nat, factor: nat, weight: nat, val: nat): nat {
    if internal != 0 then Shr(Shl(internal, weight) - internal + Shl(val, factor), weight) else Shl(val, factor)
  }

  function FoldWord(vals: seq<u64>, factor: nat, weight: nat): u64 {
    if vals == [] then 0
    else AddWord(FoldWord(vals[..|vals| - 1], factor, weight), factor, weight, vals[|vals| - 1])
  }

  function FoldNat(vals: seq<nat>, factor: nat, weight: nat): nat {
    if vals == [] then 0
    else AddNat(FoldNat(vals[..|vals| - 1], factor, weight), factor, weight, vals[|vals| - 1])
  }

  ghost predicate Between(lo: nat, vals: seq<nat>, hi: nat) {
    forall i :: 0 <= i < |vals| ==> lo <= vals[i] <= hi
  }

  /** One weighted step never leaves an interval that holds both the old value and the sample. */
  lemma StepStays(internal: nat, x: nat, w: nat, lo: nat, hi: nat)
    requires lo <= internal <= hi && lo <= x <= hi
    ensures lo <= Shr(Shl(internal, w) - internal + x, w) <= hi
  {
    var q := Shr(Shl(internal, w) - internal + x, w);
    ShrFloor(Shl(internal, w) - internal + x, w);
    ShlGrows(lo, internal, w);
    ShlGrows(internal, hi, w);
    if q < lo {
      ShlGrows(q + 1, lo, w);
    }
    if hi < q {
      ShlGrows(hi, q, w);
    }
  }

  /** The scaled value stays between the least and the greatest scaled sample, restarts at zero included. */
  lemma {:induction false} FoldBetween(vals: seq<nat>, factor: nat, weight: nat, lo: nat, hi: nat)
    requires vals != [] && Between(lo, vals, hi)
    ensures Shl(lo, factor) <= FoldNat(vals, factor, weight) <= Shl(hi, factor)
  {
    var pre, v := vals[..|vals| - 1], vals[|vals| - 1];
    ShlGrows(lo, v, factor);
    ShlGrows(v, hi, factor);
    if pre != [] {
      FoldBetween(pre, factor, weight, lo, hi);
      StepStays(FoldNat(pre, factor, weight), Shl(v, factor), weight, Shl(lo, factor), Shl(hi, factor));
    }
  }

  /** ewma_read never leaves the range of the samples. */
  lemma ReadBetween(vals: seq<nat>, factor: nat, weight: nat, lo: nat, hi: nat)
    requires vals != [] && Between(lo, vals, hi)
    ensures lo <= ReadOf(FoldNat(vals, factor, weight), factor) <= hi
  {
    FoldBetween(vals, factor, weight, lo, hi);
    var q := ReadOf(FoldNat(vals, factor, weight), factor);
    ShrFloor(FoldNat(vals, factor, weight), factor);
    if q < lo {
      ShlGrows(q + 1, lo, factor);
    }
    if hi < q {
      ShlGrows(hi, q, factor);
    }
  }

  /** hi * factor * weight fits a word. */
  ghost predicate WithinLimit(hi: nat, factor: nat, weight: nat) {
    Shl(Shl(hi, factor), weight) <= ULONG_MAX
  }

  /** WithinLimit is the limit ewma_init documents: hi is at most ULONG_MAX/(factor*weight). */
  lemma LimitIsDocumented(hi: nat, factor: nat, weight: nat)
    ensures WithinLimit(hi, factor, weight) <==> hi * Pow2(factor) * Pow2(weight) <= ULONG_MAX
  {
    ShlIsTimes(hi, factor);
    ShlIsTimes(Shl(hi, factor), weight);
  }

  /** Within the limit, no operation of ewma_add wraps. */
  lemma {:induction false} NoWrap(vals: seq<u64>, factor: nat, weight: nat, hi: nat)
    requires Between(0, vals, hi) && WithinLimit(hi, factor, weight)
    ensures FoldWord(vals, factor, weight) == FoldNat(vals, factor, weight)
  {
    if vals != [] {
      var pre, v := vals[..|vals| - 1], vals[|vals| - 1];
      NoWrap(pre, factor, weight, hi);
      if pre != [] {
        FoldBetween(pre, factor, weight, 0, hi);
      }
      AddNoWrap(FoldWord(pre, factor, weight), factor, weight, v, hi);
    }
  }

  lemma AddNoWrap(internal: u64, factor: nat, weight: nat, val: u64, hi: nat)
    requires val <= hi && internal <= Shl(hi, factor) && WithinLimit(hi, factor, weight)
    ensures AddWord(internal, factor, weight, val) == AddNat(internal, factor, weight, val)
  {
    ShlGrows(val, hi, factor);
    ShlGrows(internal, Shl(hi, factor), weight);
    WordKeeps(Shl(val, factor));
    WordKeeps(Shl(internal, weight));
    WordKeeps(Shl(internal, weight) - internal);
    WordKeeps(Shl(internal, weight) - internal + Shl(val, factor));
  }

  lemma WordKeeps(x: int)
    requires 0 <= x <= ULONG_MAX
    ensures Word(x) == x
  {
  }

  // ----- the fixed point refines the exact average -----

  /** Multiplication of a real by 2^n. */
  ghost function Up(x: real, n: nat): (r: real)
    ensures x >= 0.0 ==> r >= x
    decreases n
  {
    if n == 0 then x else Up(2.0 * x, n - 1)
  }

  /** Division of a real by 2^n: a right shift that truncates nothing. */
  ghost function Down(x: real, n: nat): real
    decreases n
  {
    if n == 0 then x else Down(x, n - 1) / 2.0
  }

  lemma {:induction false} UpAdd(a: real, b: real, n: nat)
    ensures Up(a + b, n) == Up(a, n) + Up(b, n)
    decreases n
  {
    if n > 0 {
      UpAdd(2.0 * a, 2.0 * b, n - 1);
    }
  }

  lemma UpGrows(a: real, b: real, n: nat)
    requires a <= b
    ensures Up(a, n) - a <= Up(b, n) - b
  {
    UpAdd(a, b - a, n);
  }

  lemma {:induction false} UpDown(x: real, n: nat)
    ensures Up(Down(x, n), n) == x
  {
    if n > 0 {
      UpDown(x, n - 1);
    }
  }

  lemma {:induction false} UpIsShl(x: nat, n: nat)
    ensures Up(x as real, n) == Shl(x, n) as real
    decreases n
  {
    if n > 0 {
      UpIsShl(2 * x, n - 1);
      assert 2.0 * x as real == (2 * x) as real;
    }
  }

  /** The exact rational average, scaled by 2^factor: e becomes (e * (2^weight - 1) + sample) / 2^weight. */
  ghost function Exact(vals: seq<nat>, factor: nat, weight: nat): real {
    if |vals| == 0 then 0.0
    else if |vals| == 1 then Shl(vals[0], factor) as real
    else ExactStep(Exact(vals[..|vals| - 1], factor, weight), Shl(vals[|vals| - 1], factor), weight)
  }

  ghost function ExactStep(e: real, x: nat, weight: nat): real {
    Down(Up(e, weight) - e + x as real, weight)
  }

  lemma {:induction false} UpIsTimes(x: real, n: nat)
    ensures Up(x, n) == x * Pow2(n) as real
    decreases n
  {
    if n > 0 {
      UpIsTimes(2.0 * x, n - 1);
      assert 2.0 * x * Pow2(n - 1) as real == x * (2.0 * Pow2(n - 1) as real);
    }
  }

  /** An exact step is the weighted mean of the old value and the sample. */
  lemma ExactStepIsMean(e: real, x: nat, weight: nat)
    ensures var W := Pow2(weight) as real; ExactStep(e, x, weight) * W == e * W - e + x as real
  {
    UpDown(Up(e, weight) - e + x as real, weight);
    UpIsTimes(e, weight);
    UpIsTimes(ExactStep(e, x, weight), weight);
  }

  /** The truncation loses at most 2^weight - 1 in all, however long the sequence. */
  lemma {:induction false} ErrorBound(vals: seq<nat>, factor: nat, weight: nat)
    requires vals != [] && forall i :: 0 <= i < |vals| ==> vals[i] >= 1
    ensures FoldNat(vals, factor, weight) >= 1
    ensures 0.0 <= Exact(vals, factor, weight) - FoldNat(vals, factor, weight) as real <= (Pow2(weight) - 1) as real
  {
    var pre, v := vals[..|vals| - 1], vals[|vals| - 1];
    if pre != [] {
      ErrorBound(pre, factor, weight);
      var I, x := FoldNat(pre, factor, weight), Shl(v, factor);
      StepStays(I, x, weight, 1, I + x);
      ErrorStep(Exact(pre, factor, weight), I, x, weight);
    }
  }

  lemma ErrorStep(e: real, internal: nat, x: nat, weight: nat)
    requires 0.0 <= e - internal as real <= (Pow2(weight) - 1) as real
    ensures var q := Shr(Shl(internal, weight) - internal + x, weight);
      0.0 <= ExactStep(e, x, weight) - q as real <= (Pow2(weight) - 1) as real
  {
    var q, e' := Shr(Shl(internal, weight) - internal + x, weight), ExactStep(e, x, weight);
    var r := Truncated(internal, x, weight);
    UpDown(Up(e, weight) - e + x as real, weight);
    UpAdd(e' - q as real, q as real, weight);
    UpAdd(e - internal as real, internal as real, weight);
    ErrorShrinks(e' - q as real, e - internal as real, r as real, (Pow2(weight) - 1) as real, weight);
  }

  /** A shifted step loses a remainder r below 2^weight. */
  lemma Truncated(internal: nat, x: nat, weight: nat) returns (r: nat)
    ensures r <= Pow2(weight) - 1
    ensures var q := Shr(Shl(internal, weight) - internal + x, weight);
      Up(q as real, weight) == Up(internal as real, weight) - internal as real + x as real - r as real
  {
    var a := Shl(internal, weight) - internal + x;
    var q := Shr(a, weight);
    ShrFloor(a, weight);
    ShlAdd(q, 1, weight);
    ShlOne(weight);
    UpIsShl(q, weight);
    UpIsShl(internal, weight);
    r := a - Shl(q, weight);
  }

  /** 2^n times the new error u is (2^n - 1) times the old error d plus a remainder. */
  lemma ErrorShrinks(u: real, d: real, r: real, top: real, n: nat)
    requires Up(u, n) == Up(d, n) - d + r && 0.0 <= d <= top && 0.0 <= r <= top
    ensures 0.0 <= u <= top
  {
    UpGrows(0.0, d, n);
    UpGrows(d, top, n);
    UpAdd(0.0, 0.0, n);
    if u < 0.0 {
      UpGrows(u, 0.0, n);
    }
    if top < u {
      UpGrows(top, u, n);
    }
  }

  lemma ShlOne(n: nat)
    ensures Shl(1, n) == Pow2(n)
  {
    ShlIsTimes(1, n);
  }

  /** With weight <= factor, ewma_read is the floor of the exact average or one less. */
  lemma ReadIsFloorOrOneLess(vals: seq<nat>, factor: nat, weight: nat)
    requires weight <= factor && vals != [] && forall i :: 0 <= i < |vals| ==> vals[i] >= 1
    ensures var read, exact := ReadOf(FoldNat(vals, factor, weight), factor), Down(Exact(vals, factor, weight), factor).Floor;
      read == exact || read == exact - 1
  {
    ErrorBound(vals, factor, weight);
    Pow2Grows(weight, factor);
    var I, e := FoldNat(vals, factor, weight), Exact(vals, factor, weight);
    var q, x := ReadOf(I, factor), Down(e, factor);
    ShrFloor(I, factor);
    ShlAdd(q, 1, factor);
    ShlAdd(q + 1, 1, factor);
    ShlOne(factor);
    UpIsShl(q, factor);
    UpIsShl(q + 2, factor);
    UpDown(e, factor);
    if x < q as real {
      UpGrows(x, q as real, factor);
    }
    if (q + 2) as real <= x {
      UpGrows((q + 2) as real, x, factor);
    }
  }

  // ----- a constant signal -----

  /** n further samples c. */
  function Feed(internal: nat, factor: nat, weight: nat, c: nat, n: nat): nat {
    if n == 0 then internal else AddNat(Feed(internal, factor, weight, c, n - 1), factor, weight, c)
  }

  /** From above, a constant is reached exactly, by at least one unit a step, and then kept. */
  lemma {:induction false} SettlesFromAbove(internal: nat, factor: nat, weight: nat, c: nat, n: nat)
    requires c >= 1 && internal >= Shl(c, factor)
    ensures Shl(c, factor) <= Feed(internal, factor, weight, c, n) <= internal
    ensures Feed(internal, factor, weight, c, n) == Shl(c, factor) || Feed(internal, factor, weight, c, n) <= internal - n
  {
    if n > 0 {
      SettlesFromAbove(internal, factor, weight, c, n - 1);
      var I, x := Feed(internal, factor, weight, c, n - 1), Shl(c, factor);
      StepStays(I, x, weight, x, I);
      ShrFloor(Shl(I, weight) - I + x, weight);
    }
  }

  /** From below, it gains at least one unit a step until it is less than 2^weight short of the constant. */
  lemma {:induction false} SettlesFromBelow(internal: nat, factor: nat, weight: nat, c: nat, n: nat)
    requires 1 <= internal <= Shl(c, factor)
    ensures internal <= Feed(internal, factor, weight, c, n) <= Shl(c, factor)
    ensures Shl(c, factor) - Feed(internal, factor, weight, c, n) < Pow2(weight)
         || Feed(internal, factor, weight, c, n) >= internal + n
  {
    if n > 0 {
      SettlesFromBelow(internal, factor, weight, c, n - 1);
      var I, x := Feed(internal, factor, weight, c, n - 1), Shl(c, factor);
      StepStays(I, x, weight, I, x);
      ShrFloor(Shl(I, weight) - I + x, weight);
      ShlAdd(I, 1, weight);
      ShlOne(weight);
    }
  }
}
