/**
 Decimal numbers in the default context: every result is rounded half-even to 28 significant
 digits, and never to a place below 10^-1000026. Reading a text and comparing are exact.
 */
module Decimals {
  import opened Numerals

  const PRECISION := 28
  const ETINY := -1_000_026

  // The number c * 10^e.
  datatype Decimal = Decimal(c: int, e: int)

  function Abs(x: int): nat {
    if x < 0 then -x else x
  }

  function Min(a: int, b: int): int {
    if a < b then a else b
  }

  // The number in units of 10^f.
  function Lift(d: Decimal, f: int): int
    requires f <= d.e
  {
    d.c * Power10(d.e - f)
  }

  // Equal as numbers.
  predicate Same(a: Decimal, b: Decimal) {
    Lift(a, Min(a.e, b.e)) == Lift(b, Min(a.e, b.e))
  }

  // n / m to the nearest integer, ties to even.
  function Nearest(n: nat, m: nat): nat
    requires m > 0
  {
    var (q, r) := (n / m, n % m);
    if 2 * r > m || (2 * r == m && q % 2 == 1) then q + 1 else q
  }

  // The digits at the end that the context has no room for.
  function Excess(d: Decimal): int {
    var long, deep := Length(Abs(d.c)) - PRECISION, ETINY - d.e;
    if long > deep then long else deep
  }

  function Signed(c: int, n: int): int {
    if c < 0 then 0 - n else n
  }

  function Rounded(d: Decimal): Decimal {
    var drop := Excess(d);
    if drop <= 0 then d else Decimal(Signed(d.c, Nearest(Abs(d.c), Power10(drop))), d.e + drop)
  }

  // The unrounded product and sum.
  function ExactTimes(a: Decimal, b: Decimal): Decimal {
    Decimal(a.c * b.c, a.e + b.e)
  }

  function ExactPlus(a: Decimal, b: Decimal): Decimal {
    var f := Min(a.e, b.e);
    Decimal(Lift(a, f) + Lift(b, f), f)
  }

  function Times(a: Decimal, b: Decimal): Decimal {
    Rounded(ExactTimes(a, b))
  }

  function Plus(a: Decimal, b: Decimal): Decimal {
    Rounded(ExactPlus(a, b))
  }

  predicate Integral(d: Decimal) {
    d.e >= 0 || d.c % Power10(-d.e) == 0
  }

  function ToInt(d: Decimal): int {
    if d.e >= 0 then d.c * Power10(d.e) else d.c / Power10(-d.e)
  }

  // The number fits the context as it is.
  predicate Representable(d: Decimal) {
    d.c == 0 || (Significant(Abs(d.c)) <= PRECISION && d.e + Zeros(Abs(d.c)) >= ETINY)
  }

  // ----- equality -----

  lemma LiftFurther(d: Decimal, f: int, g: int)
    requires g <= f <= d.e
    ensures Lift(d, g) == Lift(d, f) * Power10(f - g)
  {
    PowerAdds(d.e - f, f - g);
    Associates(d.c, Power10(d.e - f), Power10(f - g));
  }

  lemma Associates(a: int, b: int, c: int)
    ensures a * (b * c) == (a * b) * c
  {
  }

  lemma CancelsFactor(a: int, b: int, p: nat)
    requires p > 0
    ensures a * p == b * p <==> a == b
  {
    if a * p == b * p {
      SameQuotient(p, a, 0, b, 0);
    }
  }

  lemma SameAt(a: Decimal, b: Decimal, f: int)
    requires f <= a.e && f <= b.e
    ensures Same(a, b) <==> Lift(a, f) == Lift(b, f)
  {
    var m := Min(a.e, b.e);
    LiftFurther(a, m, f);
    LiftFurther(b, m, f);
    CancelsFactor(Lift(a, m), Lift(b, m), Power10(m - f));
  }

  lemma SameTransitive(a: Decimal, b: Decimal, c: Decimal)
    requires Same(a, b) && Same(b, c)
    ensures Same(a, c)
  {
    var f := Min(a.e, Min(b.e, c.e));
    SameAt(a, b, f);
    SameAt(b, c, f);
    SameAt(a, c, f);
  }

  lemma SameSymmetric(a: Decimal, b: Decimal)
    requires Same(a, b)
    ensures Same(b, a)
  {
  }

  // ----- rounding -----

  lemma NearestExactIff(n: nat, m: nat)
    requires m > 0
    ensures Nearest(n, m) * m == n <==> n % m == 0
    ensures n % m == 0 ==> Nearest(n, m) == n / m
  {
    var q, r := n / m, n % m;
    assert n == q * m + r;
    assert (q + 1) * m == q * m + m;
  }

  lemma RoundedLift(d: Decimal)
    requires Excess(d) > 0
    ensures Same(Rounded(d), d) <==> Abs(d.c) % Power10(Excess(d)) == 0
  {
    var n, p := Abs(d.c), Power10(Excess(d));
    SameAt(Rounded(d), d, d.e);
    assert Lift(d, d.e) == d.c;
    assert Lift(Rounded(d), d.e) == Signed(d.c, Nearest(n, p)) * p;
    assert Signed(d.c, Nearest(n, p)) * p == Signed(d.c, Nearest(n, p) * p);
    NearestExactIff(n, p);
  }

  /** Rounding keeps a number exactly when it has at most 28 significant digits, none below the last place. */
  lemma RoundedExactIff(d: Decimal)
    ensures Same(Rounded(d), d) <==> Representable(d)
  {
    var n, drop := Abs(d.c), Excess(d);
    if drop > 0 {
      RoundedLift(d);
      if n == 0 {
        MultipleOf(0, Power10(drop));
      } else {
        ZerosDivide(n, drop);
      }
    } else if n > 0 {
      assert drop == Length(n) - PRECISION || drop == ETINY - d.e;
    }
  }

  lemma NearestKeepsMultiples(n: nat, j: nat, k: nat)
    requires n % Power10(j + k) == 0
    ensures Nearest(n, Power10(j)) % Power10(k) == 0
  {
    var p, q := Power10(j), Power10(k);
    PowerAdds(j, k);
    var m := n / (p * q);
    assert n == m * (p * q) == (m * q) * p;
    MultipleOf(m * q, p);
    NearestExactIff(n, p);
    MultipleOf(m, q);
  }

  lemma NegatedMultiple(n: int, p: nat)
    requires p > 0
    ensures n % p == 0 <==> (-n) % p == 0
  {
    if n % p == 0 {
      assert -n == (-(n / p)) * p;
      MultipleOf(-(n / p), p);
    }
    if (-n) % p == 0 {
      assert n == (-((-n) / p)) * p;
      MultipleOf(-((-n) / p), p);
    }
  }

  lemma RoundedKeepsIntegral(d: Decimal)
    requires Integral(d)
    ensures Integral(Rounded(d))
  {
    var drop := Excess(d);
    if drop > 0 && d.e + drop < 0 {
      var rest := -d.e - drop;
      NegatedMultiple(d.c, Power10(-d.e));
      assert -d.e == drop + rest;
      hide Power10, Nearest, Excess;
      NearestKeepsMultiples(Abs(d.c), drop, rest);
      NegatedMultiple(Nearest(Abs(d.c), Power10(drop)), Power10(rest));
    }
  }

  lemma RoundedSign(d: Decimal)
    ensures d.c <= 0 ==> Rounded(d).c <= 0
    ensures d.c >= 0 ==> Rounded(d).c >= 0
  {
  }

  // ----- numbers of ten-thousandths -----

  // The number is n / 10000.
  predicate Stands(d: Decimal, n: int) {
    Same(d, Decimal(n, -4))
  }

  lemma StandsAt(d: Decimal, n: int)
    ensures d.e >= -4 ==> (Stands(d, n) <==> d.c * Power10(d.e + 4) == n)
    ensures d.e <= -4 ==> (Stands(d, n) <==> d.c == n * Power10(-4 - d.e))
  {
  }

  lemma StandsSign(d: Decimal, n: int)
    requires Stands(d, n) && d.c > 0
    ensures n > 0
  {
    StandsAt(d, n);
  }

  lemma StandsUnique(d: Decimal, m: int, n: int)
    requires Stands(d, m) && Stands(d, n)
    ensures m == n
  {
    StandsAt(d, m);
    StandsAt(d, n);
    if d.e <= -4 {
      CancelsFactor(m, n, Power10(-4 - d.e));
    }
  }

  lemma ScaledAbs(k: int, p: nat)
    ensures Abs(k * p) == Abs(k) * p
  {
  }

  lemma FactorBelow(a: nat, p: nat)
    requires p > 0
    ensures a <= a * p
  {
  }

  lemma CoarseIsShort(d: Decimal, k: int)
    requires Stands(d, k) && Abs(k) < Power10(PRECISION) && d.e >= -4
    ensures Length(Abs(d.c)) <= PRECISION
  {
    StandsAt(d, k);
    hide Stands, Power10;
    ScaledAbs(d.c, Power10(d.e + 4));
    FactorBelow(Abs(d.c), Power10(d.e + 4));
    LengthAtMost(Abs(d.c), PRECISION);
  }

  lemma FineEndsInZeros(d: Decimal, k: int)
    requires Stands(d, k) && Abs(k) < Power10(PRECISION) && d.e < -4 && d.c != 0
    ensures Significant(Abs(d.c)) <= PRECISION && d.e + Zeros(Abs(d.c)) >= -4
  {
    StandsAt(d, k);
    assert k != 0;
    hide Stands, Power10;
    ScaledAbs(k, Power10(-4 - d.e));
    ShiftedNumber(Abs(k), -4 - d.e);
    LengthAtMost(Abs(k), PRECISION);
  }

  lemma SmallIsRepresentable(d: Decimal, k: int)
    requires Stands(d, k) && Abs(k) < Power10(PRECISION)
    ensures Representable(d)
  {
    hide Stands, Power10, Length, Zeros;
    if d.c != 0 {
      if d.e >= -4 {
        CoarseIsShort(d, k);
      } else {
        FineEndsInZeros(d, k);
      }
    }
  }

  /** A number of ten-thousandths with at most 28 digits is not rounded. */
  lemma SmallIsExact(d: Decimal, k: int)
    requires Stands(d, k) && Abs(k) < Power10(PRECISION)
    ensures Stands(Rounded(d), k)
  {
    SmallIsRepresentable(d, k);
    RoundedExactIff(d);
    SameTransitive(Rounded(d), d, Decimal(k, -4));
  }

  lemma StandsTimes(d: Decimal, n: int, q: int)
    requires Stands(d, n)
    ensures Stands(ExactTimes(d, Decimal(q, 0)), n * q)
  {
    StandsAt(d, n);
    StandsAt(ExactTimes(d, Decimal(q, 0)), n * q);
    if d.e >= -4 {
      Reorder(d.c, q, Power10(d.e + 4));
    } else {
      Reorder(n, q, Power10(-4 - d.e));
    }
  }

  lemma Reorder(a: int, b: int, c: int)
    ensures (a * b) * c == (a * c) * b
  {
  }

  lemma StandsPlus(a: Decimal, m: int, b: Decimal, n: int)
    requires Stands(a, m) && Stands(b, n)
    ensures Stands(ExactPlus(a, b), m + n)
  {
    var f, sum := Min(Min(a.e, b.e), -4), ExactPlus(a, b);
    SameAt(a, Decimal(m, -4), f);
    SameAt(b, Decimal(n, -4), f);
    SameAt(sum, Decimal(m + n, -4), f);
    LiftFurther(a, sum.e, f);
    LiftFurther(b, sum.e, f);
    Distributes(Lift(a, sum.e), Lift(b, sum.e), Power10(sum.e - f));
    Distributes(m, n, Power10(-4 - f));
  }

  lemma Distributes(a: int, b: int, p: int)
    ensures (a + b) * p == a * p + b * p
  {
  }

  // ----- rounding twice -----

  lemma NearestWithin(n: nat, m: nat, g: nat)
    requires m > 0
    ensures g * m <= n ==> g <= Nearest(n, m)
    ensures n <= g * m ==> Nearest(n, m) <= g
  {
    var q, r := n / m, n % m;
    assert n == q * m + r;
    if g * m <= n && q < g {
      QuotientsOrder(m, q, r, g, 0);
    }
    if n <= g * m && q >= g {
      FactorBelow(q - g, m);
      assert q * m == (q - g) * m + g * m;
    }
  }

  /** A rounded number has room for all its digits, so it is not rounded again. */
  lemma RoundedIsRepresentable(d: Decimal)
    ensures Representable(Rounded(d))
  {
    var n, drop := Abs(d.c), Excess(d);
    if drop > 0 {
      var p := Power10(drop);
      PowerAdds(PRECISION, drop);
      PowerGrows(Length(n), PRECISION + drop);
      LengthWithin(n);
      NearestWithin(n, p, Power10(PRECISION));
      ShortEnough(Nearest(n, p));
    } else {
      LengthAtMost(n, PRECISION);
      ShortEnough(n);
    }
  }

  lemma NearestIsNearest(n: nat, m: nat)
    requires m > 0
    ensures 2 * Abs(n - Nearest(n, m) * m) <= m
    ensures 2 * Abs(n - Nearest(n, m) * m) == m ==> Nearest(n, m) % 2 == 0
  {
    var q, r := n / m, n % m;
    assert n == q * m + r;
    assert (q + 1) * m == q * m + m;
  }

  lemma DropIsNeeded(d: Decimal)
    requires Excess(d) > 0 && d.e + Excess(d) > ETINY
    ensures Abs(d.c) >= 10_000_000_000_000_000_000_000_000_000 * (Power10(Excess(d)) / 10)
  {
    var drop := Excess(d);
    LengthAtMost(Abs(d.c), 27 + drop);
    PowerAdds(28, drop - 1);
    TwentyEightDigits();
    assert Power10(drop) == 10 * Power10(drop - 1);
    hide Power10;
  }

  lemma RoundedDistance(d: Decimal)
    requires Excess(d) > 0
    ensures Rounded(d).e == d.e + Excess(d)
    ensures var unit := Power10(Excess(d));
            && 2 * Abs(d.c - Rounded(d).c * unit) <= unit
            && (2 * Abs(d.c - Rounded(d).c * unit) == unit ==> Rounded(d).c % 2 == 0)
  {
    var n, unit := Abs(d.c), Power10(Excess(d));
    var q := Nearest(n, unit);
    hide Nearest, Power10, Excess;
    assert Rounded(d) == Decimal(Signed(d.c, q), d.e + Excess(d));
    NearestIsNearest(n, unit);
    SignedDistance(d.c, q, unit);
    hide Rounded;
    assert Signed(d.c, q) % 2 == q % 2;
  }

  lemma SignedDistance(c: int, q: nat, unit: nat)
    ensures Abs(c - Signed(c, q) * unit) == Abs(Abs(c) - q * unit)
  {
  }

  /** Rounding is half-even: it drops digits only when there are more than 28 of them or places
      below the last one, and no more than it must; what is left is the nearest number, and the
      even one of two that are equally near. */
  lemma RoundedIsHalfEven(d: Decimal)
    ensures
      var r := Rounded(d);
      && r.e >= d.e && (r.e == d.e ==> r == d)
      && (r.e > d.e ==>
           var unit := Power10(r.e - d.e);
           && (Abs(d.c) >= 10_000_000_000_000_000_000_000_000_000 * (unit / 10) || r.e == -1_000_026)
           && 2 * Abs(d.c - r.c * unit) <= unit
           && (2 * Abs(d.c - r.c * unit) == unit ==> r.c % 2 == 0))
  {
    var drop := Excess(d);
    if drop > 0 {
      RoundedDistance(d);
      hide Nearest, Power10, Excess, Signed;
      if d.e + drop > ETINY {
        DropIsNeeded(d);
      }
    }
  }

  lemma TwentyEightDigits()
    ensures Power10(28) == 10_000_000_000_000_000_000_000_000_000
  {
    PowerAdds(7, 7);
    PowerAdds(14, 14);
    assert Power10(3) == 1000;
    assert Power10(5) == 100_000;
    assert Power10(7) == 10_000_000;
  }

  lemma ShortEnough(n: nat)
    requires n <= Power10(PRECISION)
    ensures n == 0 || Significant(n) <= PRECISION
  {
    LengthAtMost(n, PRECISION);
    if n == Power10(PRECISION) {
      hide Power10;
      assert n == 1 * Power10(PRECISION);
      ShiftedNumber(1, PRECISION);
      assert Length(1) == 1;
    }
  }

  /** Adding nothing to a rounded number gives that number. */
  lemma NothingPlus(d: Decimal)
    requires Representable(d)
    ensures Same(Plus(Decimal(0, 0), d), d)
  {
    var f := Min(0, d.e);
    var sum := ExactPlus(Decimal(0, 0), d);
    assert sum == Decimal(Lift(d, f), f);
    SameAt(sum, d, f);
    assert Power10(0) == 1;
    if d.c != 0 {
      ScaledAbs(d.c, Power10(d.e - f));
      ShiftedNumber(Abs(d.c), d.e - f);
    }
    RoundedExactIff(sum);
    hide Same, Rounded, Representable;
    SameTransitive(Plus(Decimal(0, 0), d), sum, d);
  }

  // ----- order -----

  predicate Leq(a: Decimal, b: Decimal) {
    Lift(a, Min(a.e, b.e)) <= Lift(b, Min(a.e, b.e))
  }

  lemma OrderedFactor(a: int, b: int, p: nat)
    requires p > 0
    ensures a * p <= b * p <==> a <= b
  {
    if a <= b {
      FactorBelow(b - a, p);
    } else {
      FactorBelow(a - b, p);
    }
    assert (b - a) * p == b * p - a * p && (a - b) * p == a * p - b * p;
  }

  lemma LeqAt(a: Decimal, b: Decimal, f: int)
    requires f <= a.e && f <= b.e
    ensures Leq(a, b) <==> Lift(a, f) <= Lift(b, f)
  {
    var m := Min(a.e, b.e);
    LiftFurther(a, m, f);
    LiftFurther(b, m, f);
    OrderedFactor(Lift(a, m), Lift(b, m), Power10(m - f));
  }

  lemma LeqTransitive(a: Decimal, b: Decimal, c: Decimal)
    requires Leq(a, b) && Leq(b, c)
    ensures Leq(a, c)
  {
    var f := Min(a.e, Min(b.e, c.e));
    LeqAt(a, b, f);
    LeqAt(b, c, f);
    LeqAt(a, c, f);
  }

  lemma SameIsLeq(a: Decimal, b: Decimal)
    requires Same(a, b)
    ensures Leq(a, b) && Leq(b, a)
  {
  }

  // A bound the context has room for as it is written.
  predicate Bound(r: Decimal) {
    0 <= r.c < Power10(PRECISION) && r.e >= ETINY
  }

  // A bound finer than the last place that rounding keeps is far below the number.
  lemma FinerIsSmaller(d: Decimal, r: Decimal)
    requires d.c >= 0 && Excess(d) > 0 && Bound(r) && r.e < d.e + Excess(d)
    ensures !Leq(d, r) && Leq(r, Rounded(d))
  {
    var drop, n := Excess(d), d.c as nat;
    var p, g, kept := Power10(drop), d.e + drop, Nearest(n, Power10(drop));
    assert drop == Length(n) - PRECISION;
    LengthWithin(n);
    PowerAdds(PRECISION - 1, drop);
    assert Power10(PRECISION - 1) * p <= n;
    NearestWithin(n, p, Power10(PRECISION - 1));
    LeqAt(r, Rounded(d), r.e);
    FineBelow(r, Decimal(kept, g));
    var coarse := Decimal(Power10(PRECISION - 1), g);
    FineBelow(r, coarse);
    LeqAt(coarse, d, d.e);
    StrictlyBelow(r, coarse, d);
  }

  lemma FineBelow(r: Decimal, big: Decimal)
    requires Bound(r) && r.e < big.e && big.c >= Power10(PRECISION - 1)
    ensures Leq(r, big) && !Leq(big, r)
  {
    LeqAt(r, big, r.e);
    LeqAt(big, r, r.e);
    var k := big.e - r.e;
    PowerGrows(1, k);
    assert Power10(1) == 10 && Power10(0) == 1;
    assert Power10(PRECISION) == 10 * Power10(PRECISION - 1);
    hide Power10;
    assert big.c * Power10(k) >= Power10(PRECISION - 1) * 10 by {
      OrderedFactor(Power10(PRECISION - 1), big.c, Power10(k));
      OrderedFactor(10, Power10(k), Power10(PRECISION - 1));
    }
  }

  lemma StrictlyBelow(a: Decimal, b: Decimal, c: Decimal)
    requires !Leq(b, a) && Leq(b, c)
    ensures !Leq(c, a)
  {
    if Leq(c, a) {
      LeqTransitive(b, c, a);
    }
  }

  lemma CoarserBound(d: Decimal, r: Decimal)
    requires d.c >= 0 && Excess(d) > 0 && Bound(r) && r.e >= d.e + Excess(d)
    ensures Leq(r, d) ==> Leq(r, Rounded(d))
    ensures Leq(d, r) ==> Leq(Rounded(d), r)
  {
    var drop := Excess(d);
    var p, g := Power10(drop), d.e + drop;
    var m := Lift(r, g);
    LiftFurther(r, g, d.e);
    assert Lift(r, d.e) == m * p;
    assert Lift(d, d.e) == d.c;
    assert Lift(Rounded(d), d.e) == Nearest(d.c, p) * p;
    NearestWithin(d.c, p, m);
    LeqAt(r, d, d.e);
    LeqAt(d, r, d.e);
    LeqAt(r, Rounded(d), d.e);
    LeqAt(Rounded(d), r, d.e);
    OrderedFactor(m, Nearest(d.c, p), p);
    OrderedFactor(Nearest(d.c, p), m, p);
  }

  /** Rounding does not carry a number across one that the context has room for. */
  lemma RoundedKeepsBounds(d: Decimal, r: Decimal)
    requires d.c >= 0 && Bound(r)
    ensures Leq(r, d) ==> Leq(r, Rounded(d))
    ensures Leq(d, r) ==> Leq(Rounded(d), r)
  {
    if Excess(d) > 0 {
      if r.e < d.e + Excess(d) {
        FinerIsSmaller(d, r);
      } else {
        CoarserBound(d, r);
      }
    }
  }

  lemma PlusAtLeast(a: Decimal, b: Decimal, r: Decimal)
    requires a.c >= 0 && b.c >= 0 && Bound(r) && (Leq(r, a) || Leq(r, b))
    ensures Leq(r, Plus(a, b)) && Plus(a, b).c >= 0
  {
    var sum, f := ExactPlus(a, b), Min(a.e, b.e);
    LeqAt(a, sum, f);
    LeqAt(b, sum, f);
    assert Lift(sum, f) == sum.c by {
      assert Power10(0) == 1;
    }
    FactorBelow(a.c, Power10(a.e - f));
    FactorBelow(b.c, Power10(b.e - f));
    hide Leq;
    if Leq(r, a) {
      LeqTransitive(r, a, sum);
    } else {
      LeqTransitive(r, b, sum);
    }
    RoundedKeepsBounds(sum, r);
    RoundedSign(sum);
  }
}
