/**
  The numbers that double patterns stand for (IEEE 754 binary64), as whole
  multiples of 2^-1074; rounding an integer to the nearest double; and the values
  of the shorter formats.
 */
module Doubles {
  import opened JsonValue
  import opened Binary

  // ---------- powers of two ----------

  lemma {:induction false} Pow2Add(a: nat, b: nat)
    ensures Pow2(a + b) == Pow2(a) * Pow2(b)
    decreases a
  {
    if a > 0 {
      Pow2Add(a - 1, b);
      Doubled(Pow2(a - 1), Pow2(b));
    }
  }

  lemma Doubled(p: nat, q: nat)
    ensures (2 * p) * q == 2 * (p * q)
  {
  }

  lemma {:induction false} Pow2Mono(a: nat, b: nat)
    requires a <= b
    ensures Pow2(a) <= Pow2(b)
    decreases b - a
  {
    if a < b {
      Pow2Mono(a, b - 1);
    }
  }

  lemma MulMono(a: nat, b: nat, p: nat)
    requires a <= b
    ensures a * p <= b * p && (a < b && p > 0 ==> a * p < b * p)
  {
    assert b * p == a * p + (b - a) * p;
    if a < b && p > 0 {
      assert (b - a) * p >= 1 * p by { MulAtLeast(b - a, p); }
    }
  }

  lemma {:induction false} MulAtLeast(k: nat, p: nat)
    requires k > 0
    ensures k * p >= p
    decreases k
  {
    if k > 1 {
      MulAtLeast(k - 1, p);
      assert k * p == (k - 1) * p + p;
    }
  }

  // ---------- values ----------

  const TOP: nat := 0x7FF0_0000_0000_0000

  predicate Finite(bits: uint64) {
    bits % SIGN64 < TOP
  }

  /** The absolute value of the pattern without its sign bit, in units of 2^-1074. */
  function Magnitude(x: nat): nat {
    var e, m := x / TWO52, x % TWO52;
    if e == 0 then m else (TWO52 + m) * Pow2(e - 1)
  }

  /** The number a finite pattern stands for, in units of 2^-1074. */
  function Value(bits: uint64): int {
    if bits >= SIGN64 then 0 - Magnitude(bits - SIGN64) else Magnitude(bits)
  }

  lemma Split(e: nat, m: nat)
    requires m < TWO52
    ensures (e * TWO52 + m) / TWO52 == e && (e * TWO52 + m) % TWO52 == m
  {
  }

  lemma MagnitudeAt(e: nat, m: nat)
    requires m < TWO52
    ensures Magnitude(e * TWO52 + m) == if e == 0 then m else (TWO52 + m) * Pow2(e - 1)
  {
    Split(e, m);
  }

  lemma MagnitudeRange(e: nat, m: nat)
    requires m < TWO52
    ensures Magnitude(e * TWO52 + m) < TWO52 * Pow2(e)
    ensures e > 0 ==> TWO52 * Pow2(e - 1) <= Magnitude(e * TWO52 + m)
  {
    MagnitudeAt(e, m);
    if e > 0 {
      var p := Pow2(e - 1);
      MulMono(TWO52, TWO52 + m, p);
      MulMono(TWO52 + m, TWO52 + TWO52, p);
      assert (TWO52 + TWO52) * p == TWO52 * (2 * p);
    }
  }

  /** Larger patterns are larger numbers. */
  lemma MagnitudeMono(x: nat, y: nat)
    requires x < y
    ensures Magnitude(x) < Magnitude(y)
  {
    var e, m := x / TWO52, x % TWO52;
    var f, n := y / TWO52, y % TWO52;
    assert x == e * TWO52 + m && y == f * TWO52 + n;
    if e == f {
      assert m < n;
      MagnitudeAt(e, m);
      MagnitudeAt(f, n);
      if e > 0 {
        MulMono(TWO52 + m, TWO52 + n, Pow2(e - 1));
      }
    } else {
      assert e < f;
      MagnitudeRange(e, m);
      MagnitudeRange(f, n);
      Pow2Mono(e, f - 1);
      Scale(Pow2(e), Pow2(f - 1));
    }
  }

  lemma Scale(p: nat, q: nat)
    requires p <= q
    ensures TWO52 * p <= TWO52 * q
  {
  }

  lemma MagnitudeZero(x: nat)
    ensures Magnitude(x) == 0 <==> x == 0
  {
    if x > 0 {
      MagnitudeMono(0, x);
    }
  }

  lemma MagnitudeInjective(x: nat, y: nat)
    ensures Magnitude(x) == Magnitude(y) <==> x == y
  {
    if x < y {
      MagnitudeMono(x, y);
    } else if y < x {
      MagnitudeMono(y, x);
    }
  }

  /** Finite patterns of one value are one pattern, but for the two zeros. */
  lemma ValueInjective(x: uint64, y: uint64)
    ensures Value(x) == Value(y) <==> x == y || (IsZero(x) && IsZero(y))
  {
    hide Magnitude;
    var a, b := if x >= SIGN64 then x - SIGN64 else x, if y >= SIGN64 then y - SIGN64 else y;
    MagnitudeInjective(a, b);
    MagnitudeZero(a);
    MagnitudeZero(b);
  }

  /** Comparing doubles compares the numbers; an infinity equals itself; a NaN equals nothing. */
  lemma FloatEqMeaning(x: uint64, y: uint64)
    ensures FloatEq(x, y) <==>
              (Finite(x) && Finite(y) && Value(x) == Value(y)) || (x == y && x % SIGN64 == TOP)
  {
    hide Magnitude;
    ValueInjective(x, y);
  }

  // ---------- rounding integers ----------

  lemma {:induction false} Log2Bounds(m: nat)
    requires m > 0
    ensures Pow2(Log2(m)) <= m < 2 * Pow2(Log2(m))
  {
    if m > 1 {
      Log2Bounds(m / 2);
    }
  }

  lemma {:induction false} Log2Small(m: nat, k: nat)
    requires 0 < m < Pow2(k)
    ensures Log2(m) < k
  {
    Log2Bounds(m);
    if Log2(m) >= k {
      Pow2Mono(k, Log2(m));
    }
  }

  lemma SmallPowers()
    ensures Pow2(3) == 8 && Pow2(10) == 0x400 && Pow2(20) == 0x10_0000
  {
    assert Pow2(5) == 32 by {
      assert Pow2(3) == 8;
      assert Pow2(4) == 16;
    }
    Pow2Add(5, 5);
    Pow2Add(10, 10);
  }

  lemma Powers()
    ensures Pow2(23) == 0x80_0000 && Pow2(52) == TWO52 && Pow2(53) == 2 * TWO52
    ensures Pow2(64) == 0x1_0000_0000_0000_0000
  {
    SmallPowers();
    Pow2Add(20, 3);
    Pow2Add(20, 20);
    Pow2Add(40, 10);
    assert Pow2(52) == 4 * Pow2(50) by {
      assert Pow2(51) == 2 * Pow2(50);
    }
    Pow2Add(52, 10);
    assert Pow2(64) == 4 * Pow2(62) by {
      assert Pow2(63) == 2 * Pow2(62);
    }
  }

  /** Significand `q`, with its leading bit, at exponent `e`. */
  function Pattern(e: nat, q: nat): nat
    requires TWO52 <= q
  {
    (e + 1023) * TWO52 + (q - TWO52)
  }

  lemma PatternMagnitude(e: nat, q: nat)
    requires TWO52 <= q <= 2 * TWO52
    ensures Magnitude(Pattern(e, q)) == q * Pow2(e + 1022)
  {
    var p := Pow2(e + 1022);
    if q < 2 * TWO52 {
      MagnitudeAt(e + 1023, q - TWO52);
    } else {
      MagnitudeAt(e + 1024, 0);
      assert Pattern(e, q) == (e + 1024) * TWO52 + 0;
      assert Pow2(e + 1023) == 2 * p;
      assert TWO52 * (2 * p) == (2 * TWO52) * p;
    }
  }

  function Abs(x: int): nat {
    if x < 0 then 0 - x else x
  }

  /** The significand that `DoubleOf` picks for `m`, and what it leaves over. */
  function Significand(m: nat): nat
    requires m > 0
  {
    var e := Log2(m);
    if e <= 52 then m * Pow2(52 - e) else Rounded(m, Pow2(e - 52))
  }

  /** Division to the nearest, ties to even. */
  function Rounded(m: nat, unit: nat): nat
    requires unit > 0
  {
    var q := m / unit;
    var twice := 2 * (m % unit);
    if twice > unit || (twice == unit && q % 2 == 1) then q + 1 else q
  }

  lemma DoubleOfIs(n: int)
    requires n != 0
    ensures DoubleOf(n) == (if n < 0 then SIGN64 else 0) + (Log2(Abs(n)) + 1023) * TWO52 + (Significand(Abs(n)) - TWO52)
  {
    hide Log2;
    hide Pow2;
  }

  /** Small integers need no rounding. */
  lemma SmallSignificand(m: nat)
    requires m > 0 && Log2(m) <= 52
    ensures TWO52 <= Significand(m) < 2 * TWO52
    ensures Significand(m) * Pow2(Log2(m) + 1022) == m * Pow2(1074)
  {
    hide Log2;
    var e := Log2(m);
    var p := Pow2(52 - e);
    Log2Bounds(m);
    Powers();
    Pow2Add(e, 52 - e);
    MulMono(Pow2(e), m, p);
    Pow2Add(e + 1, 52 - e);
    MulMono(m, Pow2(e + 1), p);
    Pow2Add(52 - e, e + 1022);
    Reassociate(m, p, Pow2(e + 1022));
  }

  lemma Reassociate(a: nat, b: nat, c: nat)
    ensures (a * b) * c == a * (b * c)
  {
  }

  lemma DivBounds(m: nat, a: nat, unit: nat)
    requires unit > 0 && a * unit <= m < 2 * (a * unit)
    ensures a <= m / unit < 2 * a
    ensures m == (m / unit) * unit + m % unit && m % unit < unit
  {
    var q := m / unit;
    assert m == q * unit + m % unit;
    assert (q + 1) * unit == q * unit + unit;
    assert (2 * a) * unit == 2 * (a * unit);
    if q < a {
      MulMono(q + 1, a, unit);
    }
    if q >= 2 * a {
      MulMono(2 * a, q, unit);
    }
  }

  lemma RoundedIs(m: nat, unit: nat)
    requires unit > 0
    ensures var q := Rounded(m, unit);
            && m / unit <= q <= m / unit + 1
            && 2 * Abs(q * unit - m) <= unit && (2 * Abs(q * unit - m) == unit ==> q % 2 == 0)
  {
    var q, r := m / unit, m % unit;
    assert m == q * unit + r;
    assert (q + 1) * unit == q * unit + unit;
  }

  /** Large integers are rounded to a multiple of their unit, half a unit off at most, ties to even. */
  lemma LargeSignificand(m: nat)
    requires m > 0 && Log2(m) > 52
    ensures var q, unit := Significand(m), Pow2(Log2(m) - 52);
            && TWO52 <= q <= 2 * TWO52 && TWO52 * unit <= m < 2 * (TWO52 * unit)
            && 2 * Abs(q * unit - m) <= unit && (2 * Abs(q * unit - m) == unit ==> q % 2 == 0)
  {
    hide Log2;
    hide Pow2;
    hide Rounded;
    hide Abs;
    var e := Log2(m);
    var unit := Pow2(e - 52);
    Log2Bounds(m);
    Powers();
    Pow2Add(52, e - 52);
    DivBounds(m, TWO52, unit);
    RoundedIs(m, unit);
  }

  /** A positive integer in units of 2^-1074. */
  function Units(m: nat): nat {
    m * Pow2(1074)
  }

  /** `q` steps of size `u` are nearest to `target`, ties to even. */
  predicate NearestStep(q: nat, u: nat, target: nat) {
    2 * Abs(q * u - target) <= u && (2 * Abs(q * u - target) == u ==> q % 2 == 0)
  }

  lemma Above(a: nat, m: nat, p: nat)
    requires a >= m
    ensures a * p - m * p == (a - m) * p && Abs(a * p - m * p) == (a - m) * p && (a - m) * p >= 0
  {
    assert a * p == m * p + (a - m) * p;
  }

  lemma TwiceScaled(d: nat, unit: nat, p: nat)
    requires 2 * d <= unit && p > 0
    ensures 2 * (d * p) <= unit * p && (2 * (d * p) == unit * p ==> 2 * d == unit)
  {
    MulMono(2 * d, unit, p);
    Doubled(d, p);
  }

  lemma StepScaled(q: nat, unit: nat, m: nat, p: nat)
    requires NearestStep(q, unit, m) && p > 0
    ensures NearestStep(q, unit * p, m * p)
  {
    var a := q * unit;
    Reassociate(q, unit, p);
    if a >= m {
      Above(a, m, p);
      TwiceScaled(a - m, unit, p);
    } else {
      Above(m, a, p);
      TwiceScaled(m - a, unit, p);
    }
  }

  /** The pattern of a positive integer: its significand is the nearest step. */
  lemma RoundShape(m: nat) returns (e: nat, q: nat)
    requires 0 < m < 0x1_0000_0000_0000_0000
    ensures e <= 63 && TWO52 <= q <= 2 * TWO52 && DoubleOf(m) == Pattern(e, q) && DoubleOf(0 - m) == SIGN64 + Pattern(e, q)
    ensures NearestStep(q, Pow2(e + 1022), Units(m))
    ensures TWO52 * Pow2(e + 1022) <= Units(m) < 2 * (TWO52 * Pow2(e + 1022))
    ensures m < 2 * TWO52 ==> q < 2 * TWO52 && q * Pow2(e + 1022) == Units(m)
  {
    hide Log2;
    hide Pow2;
    hide Significand;
    e, q := Log2(m), Significand(m);
    DoubleOfIs(m);
    DoubleOfIs(0 - m);
    Powers();
    Log2Small(m, 64);
    if e <= 52 {
      SmallSignificand(m);
      SmallSteps(q, Pow2(e + 1022));
    } else {
      LargeSignificand(m);
      var unit := Pow2(e - 52);
      Pow2Add(e - 52, 1074);
      StepScaled(q, unit, m, Pow2(1074));
      LargeScaled(m, unit, Pow2(1074));
      LargeIsLarge(m);
    }
  }

  lemma SmallSteps(q: nat, u: nat)
    requires TWO52 <= q < 2 * TWO52 && u > 0
    ensures TWO52 * u <= q * u < 2 * (TWO52 * u) && NearestStep(q, u, q * u)
  {
    MulMono(TWO52, q, u);
    MulMono(q, 2 * TWO52, u);
    assert (2 * TWO52) * u == 2 * (TWO52 * u);
  }

  lemma LargeScaled(m: nat, unit: nat, p: nat)
    requires TWO52 * unit <= m < 2 * (TWO52 * unit) && p > 0
    ensures TWO52 * (unit * p) <= m * p < 2 * (TWO52 * (unit * p))
  {
    MulMono(TWO52 * unit, m, p);
    MulMono(m, 2 * (TWO52 * unit), p);
    Reassociate(TWO52, unit, p);
    assert (2 * (TWO52 * unit)) * p == 2 * ((TWO52 * unit) * p);
  }

  lemma LargeIsLarge(m: nat)
    requires m > 0 && Log2(m) > 52
    ensures m >= 2 * TWO52
  {
    hide Log2;
    Powers();
    if m < 2 * TWO52 {
      Log2Small(m, 53);
    }
  }

  /** No pattern is nearer to the target than the nearest step. */
  lemma NearestPattern(e: nat, q: nat, target: nat, w: nat)
    requires TWO52 <= q <= 2 * TWO52 && NearestStep(q, Pow2(e + 1022), target)
    requires TWO52 * Pow2(e + 1022) <= target < 2 * (TWO52 * Pow2(e + 1022))
    ensures Abs(Magnitude(w) - target) >= Abs(Magnitude(Pattern(e, q)) - target)
    ensures Abs(Magnitude(w) - target) == Abs(Magnitude(Pattern(e, q)) - target) && w != Pattern(e, q) ==> q % 2 == 0
  {
    hide Magnitude;
    hide Pow2;
    hide Pattern;
    var x, u := Pattern(e, q), Pow2(e + 1022);
    PatternMagnitude(e, q);
    if w < x {
      MagnitudeMono(w, x);
    }
    if w > x {
      MagnitudeMono(x, w);
    }
    if q * u <= target && w > x {
      StepsBelow(q, u, target);
      PatternMagnitude(e, q + 1);
      PatternNext(e, q);
      AtLeast(x + 1, w);
      assert (q + 1) * u == q * u + u;
    } else if q * u > target && w < x {
      StepsAbove(q, u, target);
      PatternMagnitude(e, q - 1);
      PatternNext(e, q - 1);
      AtLeast(w, x - 1);
      assert q * u == (q - 1) * u + u;
    }
  }

  lemma StepsBelow(q: nat, u: nat, target: nat)
    requires q * u <= target < 2 * (TWO52 * u)
    ensures q < 2 * TWO52
  {
    assert (2 * TWO52) * u == 2 * (TWO52 * u);
    if q >= 2 * TWO52 {
      MulMono(2 * TWO52, q, u);
    }
  }

  lemma StepsAbove(q: nat, u: nat, target: nat)
    requires q * u > target >= TWO52 * u
    ensures q > TWO52
  {
    if q <= TWO52 {
      MulMono(q, TWO52, u);
    }
  }

  lemma PatternNext(e: nat, q: nat)
    requires TWO52 <= q
    ensures Pattern(e, q + 1) == Pattern(e, q) + 1
  {
  }

  lemma AtLeast(x: nat, y: nat)
    requires x <= y
    ensures Magnitude(x) <= Magnitude(y)
  {
    if x < y {
      MagnitudeMono(x, y);
    }
  }

  // ---------- the nearest double ----------

  /** Distance of a pattern's number from an integer, in units of 2^-1074. */
  function Distance(bits: uint64, n: int): nat {
    Abs(Value(bits) - n * Pow2(1074))
  }

  /** No finite double is nearer to `n`, and if another one is as near, this one is even. */
  ghost predicate Nearest(y: uint64, n: int) {
    && Finite(y)
    && forall z: uint64 :: Finite(z) ==>
         Distance(y, n) <= Distance(z, n) && (Distance(y, n) == Distance(z, n) && Value(y) != Value(z) ==> y % 2 == 0)
  }

  /** A 64-bit integer, signed or not. */
  predicate Int64(n: int) {
    -0x8000_0000_0000_0000 <= n < 0x1_0000_0000_0000_0000
  }

  lemma PatternRange(e: nat, q: nat)
    requires e <= 63 && TWO52 <= q <= 2 * TWO52
    ensures 0 < Pattern(e, q) < TOP
    ensures Pattern(e, q) % SIGN64 < TOP && (SIGN64 + Pattern(e, q)) % SIGN64 < TOP
    ensures Pattern(e, q) < SIGN64 <= SIGN64 + Pattern(e, q) < 0x1_0000_0000_0000_0000
  {
  }

  lemma DoubleRange(n: int)
    requires Int64(n)
    ensures 0 <= DoubleOf(n) < 0x1_0000_0000_0000_0000 && DoubleOf(n) % SIGN64 < TOP
    ensures (DoubleOf(n) >= SIGN64) <==> n < 0
  {
    hide DoubleOf;
    hide Pattern;
    hide NearestStep;
    hide Pow2;
    if n == 0 {
      DoubleZero();
    } else {
      var e, q := RoundShape(Abs(n));
      PatternRange(e, q);
    }
  }

  lemma DoubleZero()
    ensures DoubleOf(0) == 0 && Magnitude(0) == 0
  {
  }

  /** The parts of a pattern's distance from an integer of the same sign or not. */
  lemma DistanceIs(z: uint64, n: int)
    ensures var w := if z >= SIGN64 then z - SIGN64 else z;
            var m := Units(Abs(n));
            Distance(z, n) == if (z >= SIGN64) == (n < 0) then Abs(Magnitude(w) - m) else Magnitude(w) + m
  {
    hide Magnitude;
    hide Pow2;
    var p := Pow2(1074);
    if n < 0 {
      assert n * p == 0 - (0 - n) * p;
    }
  }

  /** Converting a 64-bit integer to double gives the nearest double, ties to even. */
  lemma DoubleOfNearest(n: int)
    requires Int64(n)
    ensures 0 <= DoubleOf(n) < 0x1_0000_0000_0000_0000 && Nearest(DoubleOf(n), n)
  {
    hide DoubleOf;
    hide Distance;
    hide Value;
    DoubleRange(n);
    var y: uint64 := DoubleOf(n);
    forall z: uint64 | Finite(z)
      ensures Distance(y, n) <= Distance(z, n) && (Distance(y, n) == Distance(z, n) && Value(y) != Value(z) ==> y % 2 == 0)
    {
      NoneNearer(n, y, z);
    }
  }

  lemma NoneNearer(n: int, y: uint64, z: uint64)
    requires Int64(n) && y == DoubleOf(n)
    ensures Distance(y, n) <= Distance(z, n)
    ensures Distance(y, n) == Distance(z, n) && Value(y) != Value(z) ==> y % 2 == 0
  {
    hide DoubleOf;
    hide Distance;
    hide Magnitude;
    hide Pow2;
    hide Pattern;
    DoubleRange(n);
    DistanceIs(y, n);
    DistanceIs(z, n);
    if n == 0 {
      DoubleZero();
    } else {
      var m := Abs(n);
      var e, q := RoundShape(m);
      var w := if z >= SIGN64 then z - SIGN64 else z;
      NearestPattern(e, q, Units(m), w);
      NearestPattern(e, q, Units(m), 0);
      DoubleZero();
      PatternParity(e, q);
    }
  }

  lemma PatternParity(e: nat, q: nat)
    requires TWO52 <= q
    ensures Pattern(e, q) % 2 == q % 2 && (SIGN64 + Pattern(e, q)) % 2 == q % 2 && Pattern(e, q) > 0
  {
    var k := (e + 1023) * 0x8_0000_0000_0000;
    var x := Pattern(e, q);
    assert x == 2 * (k - 0x8_0000_0000_0000) + q;
    assert SIGN64 + x == 2 * (k - 0x8_0000_0000_0000 + 0x4000_0000_0000_0000) + q;
  }

  /** Integers up to 2^53 are converted exactly. */
  lemma SmallExact(n: int)
    requires Abs(n) < 0x20_0000_0000_0000
    ensures 0 <= DoubleOf(n) < 0x1_0000_0000_0000_0000 && Value(DoubleOf(n)) == n * Pow2(1074)
  {
    hide DoubleOf;
    hide Magnitude;
    hide Pow2;
    hide Pattern;
    DoubleRange(n);
    if n == 0 {
      DoubleZero();
    } else {
      var m := Abs(n);
      var e, q := RoundShape(m);
      PatternMagnitude(e, q);
      DistanceIs(DoubleOf(n), n);
      assert Distance(DoubleOf(n), n) == 0;
    }
  }

  // ---------- there is one nearest double ----------

  lemma NearestAtMost(y: uint64, n: int, z: uint64)
    requires Nearest(y, n) && Finite(z)
    ensures Distance(y, n) <= Distance(z, n)
  {
    hide Distance;
  }

  /** The nearest double is nearer to an integer other than zero than zero is. */
  lemma NearerThanZero(n: int)
    requires Int64(n) && n != 0
    ensures 0 <= DoubleOf(n) < 0x1_0000_0000_0000_0000 && Finite(DoubleOf(n))
    ensures Distance(DoubleOf(n), n) < Units(Abs(n))
  {
    hide Magnitude;
    hide DoubleOf;
    hide Distance;
    hide Pattern;
    hide NearestStep;
    hide Units;
    hide Pow2;
    DoubleRange(n);
    var e, q := RoundShape(Abs(n));
    PatternRange(e, q);
    CloserThanZero(e, q, Units(Abs(n)));
    DistanceIs(DoubleOf(n), n);
  }

  lemma NearestSign(y: uint64, n: int)
    requires Int64(n) && n != 0 && Nearest(y, n)
    ensures (y >= SIGN64) == (n < 0) && y % SIGN64 > 0
  {
    hide Magnitude;
    hide DoubleOf;
    hide Distance;
    hide Nearest;
    hide Finite;
    hide Units;
    hide Int64;
    NearerThanZero(n);
    NearestAtMost(y, n, DoubleOf(n));
    DistanceIs(y, n);
    MagnitudeZero(if y >= SIGN64 then y - SIGN64 else y);
  }

  lemma CloserThanZero(e: nat, q: nat, target: nat)
    requires TWO52 <= q <= 2 * TWO52 && NearestStep(q, Pow2(e + 1022), target)
    requires TWO52 * Pow2(e + 1022) <= target
    ensures target > 0 && Abs(Magnitude(Pattern(e, q)) - target) < target
  {
    hide Magnitude;
    hide Pattern;
    var u := Pow2(e + 1022);
    PatternMagnitude(e, q);
    assert TWO52 * u >= 2 * u;
  }

  lemma NearestUnique(y: uint64, z: uint64, n: int)
    requires Int64(n) && Nearest(y, n) && Nearest(z, n)
    ensures Value(y) == Value(z)
  {
    hide Magnitude;
    hide Distance;
    if n == 0 {
      DistanceZero(y, z);
    } else if Value(y) != Value(z) {
      NearestSign(y, n);
      NearestSign(z, n);
      assert Distance(y, n) <= Distance(z, n) && Distance(z, n) <= Distance(y, n);
      assert y % 2 == 0 && z % 2 == 0;
      var low, high := if y < z then y else z, if y < z then z else y;
      Between(low, low + 1, high, n);
      assert false;
    }
  }

  lemma DistanceZero(y: uint64, z: uint64)
    requires Nearest(y, 0) && Nearest(z, 0)
    ensures Value(y) == Value(z)
  {
    hide Magnitude;
    DoubleZero();
    assert Finite(0) && Distance(0, 0) == 0;
    assert Distance(y, 0) <= Distance(0, 0) && Distance(z, 0) <= Distance(0, 0);
  }

  lemma FiniteBelow(y: uint64, x: uint64, z: uint64)
    requires Finite(z) && y < x < z && (y >= SIGN64) == (z >= SIGN64)
    ensures Finite(x) && (x >= SIGN64) == (z >= SIGN64)
  {
    if z >= SIGN64 {
      assert z % SIGN64 == z - SIGN64 && x % SIGN64 == x - SIGN64;
    }
  }

  lemma Middle(a: nat, b: nat, c: nat, m: nat)
    requires a < b < c
    ensures Abs(b - m) < Abs(a - m) || Abs(b - m) < Abs(c - m)
  {
  }

  /** A pattern between two others of one sign is nearer than one of them. */
  lemma Between(y: uint64, x: uint64, z: uint64, n: int)
    requires Finite(z) && y < x < z
    requires (y >= SIGN64) == (n < 0) && (z >= SIGN64) == (n < 0)
    ensures Finite(x) && (Distance(x, n) < Distance(y, n) || Distance(x, n) < Distance(z, n))
  {
    hide *;
    FiniteBelow(y, x, z);
    DistanceIs(x, n);
    DistanceIs(y, n);
    DistanceIs(z, n);
    SignPositive();
    var s := if n < 0 then SIGN64 else 0;
    MagnitudeMono(y - s, x - s);
    MagnitudeMono(x - s, z - s);
    Middle(Magnitude(y - s), Magnitude(x - s), Magnitude(z - s), Units(Abs(n)));
  }

  lemma SignPositive()
    ensures SIGN64 > 0
  {
  }

  /** A double equals an integer exactly when it is the double nearest to it. */
  lemma FloatEqInteger(y: uint64, n: int)
    requires Int64(n)
    ensures FloatEq(y, DoubleOf(n)) <==> Nearest(y, n)
  {
    hide Magnitude;
    hide DoubleOf;
    hide Distance;
    DoubleOfNearest(n);
    DoubleRange(n);
    var d: uint64 := DoubleOf(n);
    FloatEqMeaning(y, d);
    if Nearest(y, n) {
      NearestUnique(y, d, n);
    }
    if Finite(y) && Value(y) == Value(d) {
      ValueInjective(y, d);
      SameNearest(y, d, n);
    }
  }

  lemma SameNearest(y: uint64, d: uint64, n: int)
    requires Nearest(d, n) && Finite(y) && Value(y) == Value(d) && y % 2 == d % 2
    ensures Nearest(y, n)
  {
    hide Magnitude;
    hide Value;
    assert Distance(y, n) == Distance(d, n);
  }

  // ---------- the shorter formats ----------

  lemma Cancel(p: nat, x: nat, y: nat)
    requires p > 0 && p * x == p * y
    ensures x == y
  {
    if x < y {
      MulMono(x, y, p);
    } else if y < x {
      MulMono(y, x, p);
    }
  }

  lemma CancelScaled(p: nat, q: nat, a: nat, m: nat, b: nat)
    requires p > 0 && q * (p * a) == m * (p * b)
    ensures q * a == m * b
  {
    Swap(q, p, a);
    Swap(m, p, b);
    Cancel(p, q * a, m * b);
  }

  lemma Swap(q: nat, p: nat, a: nat)
    ensures q * (p * a) == p * (q * a)
  {
  }

  lemma LoweredPattern(e: nat, q: nat, k: nat)
    requires TWO52 <= q < 2 * TWO52 && k <= 1000 && e <= 63
    ensures Pattern(e, q) - k * TWO52 == (e + 1023 - k) * TWO52 + (q - TWO52)
    ensures 0 <= Pattern(e, q) - k * TWO52 < TOP
  {
  }

  /** Lowering the exponent of a small integer's double divides its value by a power of two. */
  lemma Lowered(m: nat, k: nat)
    requires 0 < m < 2 * TWO52 && k <= 1000
    ensures 0 <= DoubleOf(m) - k * TWO52 < TOP && Magnitude(DoubleOf(m) - k * TWO52) == m * Pow2(1074 - k)
  {
    hide DoubleOf;
    hide Magnitude;
    hide Pow2;
    hide Pattern;
    hide NearestStep;
    var e, q := RoundShape(m);
    LoweredPattern(e, q, k);
    MagnitudeAt(e + 1023 - k, q - TWO52);
    Pow2Add(k, e + 1022 - k);
    Pow2Add(k, 1074 - k);
    CancelScaled(Pow2(k), q, Pow2(e + 1022 - k), m, Pow2(1074 - k));
  }

  /** The number of a half-precision magnitude, in units of 2^-1074. */
  function HalfMagnitude(h: nat): nat {
    var e, m := h / 0x400, h % 0x400;
    if e == 0 then m * Pow2(1050) else (0x400 + m) * Pow2(e + 1049)
  }

  /** The number of a single-precision magnitude, in units of 2^-1074. */
  function SingleMagnitude(f: nat): nat {
    var e, m := f / 0x80_0000, f % 0x80_0000;
    if e == 0 then m * Pow2(925) else (0x80_0000 + m) * Pow2(e + 924)
  }

  lemma Widened(lead: nat, m: nat, shift: nat, e: nat)
    requires lead * Pow2(shift) == TWO52 && m < lead && e > 0
    ensures m * Pow2(shift) < TWO52
    ensures Magnitude(e * TWO52 + m * Pow2(shift)) == (lead + m) * Pow2(shift + e - 1)
  {
    hide Magnitude;
    hide Pow2;
    var p, r := Pow2(shift), Pow2(e - 1);
    MulMono(m, lead, p);
    MagnitudeAt(e, m * p);
    Pow2Add(shift, e - 1);
    assert (lead + m) * p == lead * p + m * p;
    Reassociate(lead + m, p, r);
  }

  lemma Shifts()
    ensures 0x400 * Pow2(42) == TWO52 && 0x80_0000 * Pow2(29) == TWO52
    ensures Pow2(42) == 0x400_0000_0000 && Pow2(29) == 0x2000_0000
  {
    Powers();
    SmallPowers();
    Pow2Add(10, 42);
    Pow2Add(23, 29);
  }

  /** A pattern put together from its sign and the rest. */
  lemma WithSign(negative: nat, x: nat)
    requires negative <= 1 && x < SIGN64
    ensures var d := (negative * SIGN64 + x) % 0x1_0000_0000_0000_0000;
            (d >= SIGN64 <==> negative == 1) && d % SIGN64 == x && Abs(Value(d)) == Magnitude(x)
  {
    hide Magnitude;
  }

  lemma HalfWide(e: nat, m: nat)
    requires e < 32 && m < 0x400
    ensures var x := WidenHalf(e, m);
            && 0 <= x < SIGN64
            && (e < 31 ==> x < TOP && Magnitude(x) == if e == 0 then m * Pow2(1050) else (0x400 + m) * Pow2(e + 1049))
            && (e == 31 ==> if m == 0 then x == TOP else x > TOP)
  {
    hide Magnitude;
    hide DoubleOf;
    hide Pow2;
    Shifts();
    DoubleZero();
    if e == 0 && m > 0 {
      Lowered(m, 24);
    } else if 0 < e < 31 {
      Widened(0x400, m, 42, e + 1008);
    }
  }

  lemma SingleWide(e: nat, m: nat)
    requires e < 256 && m < 0x80_0000
    ensures var x := WidenSingle(e, m);
            && 0 <= x < SIGN64
            && (e < 255 ==> x < TOP && Magnitude(x) == if e == 0 then m * Pow2(925) else (0x80_0000 + m) * Pow2(e + 924))
            && (e == 255 ==> if m == 0 then x == TOP else x > TOP)
  {
    hide Magnitude;
    hide DoubleOf;
    hide Pow2;
    Shifts();
    DoubleZero();
    if e == 0 && m > 0 {
      Lowered(m, 149);
    } else if 0 < e < 255 {
      Widened(0x80_0000, m, 29, e + 896);
    }
  }

  lemma HalfParts(h: nat)
    requires h < 0x1_0000
    ensures var x := h % 0x8000;
            x / 0x400 == h / 0x400 % 0x20 && x % 0x400 == h % 0x400 && h / 0x8000 == if h >= 0x8000 then 1 else 0
    ensures h % 0x8000 == h / 0x400 % 0x20 * 0x400 + h % 0x400
  {
  }

  lemma SingleParts(f: nat)
    requires f < 0x1_0000_0000
    ensures var x := f % 0x8000_0000;
            x / 0x80_0000 == f / 0x80_0000 % 0x100 && x % 0x80_0000 == f % 0x80_0000
            && f / 0x8000_0000 == if f >= 0x8000_0000 then 1 else 0
    ensures f % 0x8000_0000 == f / 0x80_0000 % 0x100 * 0x80_0000 + f % 0x80_0000
  {
  }

  /** Half precision is widened without changing the number; infinities and NaN stay what they are. */
  lemma HalfValue(h: nat)
    requires h < 0x1_0000
    ensures var d, x := HalfToDouble(h), h % 0x8000;
            && (d >= SIGN64 <==> h >= 0x8000)
            && (x < 0x7C00 ==> Finite(d) && Abs(Value(d)) == HalfMagnitude(x))
            && (x == 0x7C00 ==> d % SIGN64 == TOP)
            && (x > 0x7C00 ==> IsNaN(d))
  {
    hide Magnitude;
    hide WidenHalf;
    hide Value;
    hide Pow2;
    var e, m := h / 0x400 % 0x20, h % 0x400;
    HalfParts(h);
    HalfWide(e, m);
    WithSign(h / 0x8000, WidenHalf(e, m));
  }

  /** Single precision is widened without changing the number; infinities and NaN stay what they are. */
  lemma SingleValue(f: nat)
    requires f < 0x1_0000_0000
    ensures var d, x := SingleToDouble(f), f % 0x8000_0000;
            && (d >= SIGN64 <==> f >= 0x8000_0000)
            && (x < 0x7F80_0000 ==> Finite(d) && Abs(Value(d)) == SingleMagnitude(x))
            && (x == 0x7F80_0000 ==> d % SIGN64 == TOP)
            && (x > 0x7F80_0000 ==> IsNaN(d))
  {
    hide Magnitude;
    hide WidenSingle;
    hide Value;
    hide Pow2;
    var e, m := f / 0x80_0000 % 0x100, f % 0x80_0000;
    SingleParts(f);
    SingleWide(e, m);
    WithSign(f / 0x8000_0000, WidenSingle(e, m));
  }
}
