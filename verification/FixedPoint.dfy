/**
 Prices as decimals, as integers at scale 10000, and as the strings the profile prints.
 */
module FixedPoint {
  import opened Decimals
  import opened Numerals
  import opened Options

  const SCALE := 10000
  const INT64_MAX := 0x7FFF_FFFF_FFFF_FFFF
  const INT64_MIN := -0x8000_0000_0000_0000

  predicate Fits(x: int) {
    INT64_MIN <= x <= INT64_MAX
  }

  // Two's-complement int64 arithmetic of the column store.
  function Wrap(x: int): (w: int)
    ensures Fits(w) && (Fits(x) ==> w == x)
  {
    (x - INT64_MIN) % 0x1_0000_0000_0000_0000 + INT64_MIN
  }

  // series.astype("int64") on a column of integers. Without a negative value one up to 2^64 - 1
  // makes an unsigned column, which is then reinterpreted; any other misfit is an error.
  predicate CastPasses(us: seq<int>) {
    || (forall i :: 0 <= i < |us| ==> Fits(us[i]))
    || (forall i :: 0 <= i < |us| ==> 0 <= us[i] < 0x1_0000_0000_0000_0000)
  }

  function Stored(us: seq<int>): (ps: seq<int>)
    ensures |ps| == |us| && forall i :: 0 <= i < |ps| ==> Fits(ps[i])
  {
    seq(|us|, i requires 0 <= i < |us| => Wrap(us[i]))
  }

  /** The cast keeps a value if and only if it is at most 2^63 - 1, and makes any greater one negative. */
  lemma StoredIff(us: seq<int>, i: nat)
    requires CastPasses(us) && i < |us|
    ensures Stored(us)[i] == us[i] <==> us[i] <= INT64_MAX
    ensures us[i] > INT64_MAX ==> Stored(us)[i] == us[i] - 0x1_0000_0000_0000_0000 < 0
  {
  }

  // Series.abs(): the most negative value has no positive counterpart.
  function Abs64(x: int): int {
    Wrap(Abs(x))
  }

  // Decimal(str(value)) * SCALE, rounded as every product is, must be integral.
  function PriceUnits(price: Decimal): Option<int> {
    var scaled := Times(price, Decimal(SCALE, 0));
    if Integral(scaled) then Some(ToInt(scaled)) else None
  }

  // The price has at most 28 significant digits, none of them below 10^-1000030.
  predicate Short(price: Decimal) {
    price.c == 0 || (Significant(Abs(price.c)) <= PRECISION && price.e + 4 + Zeros(Abs(price.c)) >= ETINY)
  }

  lemma PowersOfScale(k: nat)
    ensures Power10(0) == 1 && Power10(4) == SCALE && Power10(k + 4) == SCALE * Power10(k)
  {
    PowerAdds(k, 4);
    assert Power10(1) == 10 && Power10(2) == 100 && Power10(3) == 1000;
  }

  lemma ScaledStands(price: Decimal, n: int)
    ensures Same(ExactTimes(price, Decimal(SCALE, 0)), Decimal(n, 0)) <==> Stands(price, n)
  {
    var scaled, f := ExactTimes(price, Decimal(SCALE, 0)), Min(price.e, -4);
    SameAt(price, Decimal(n, -4), f);
    SameAt(scaled, Decimal(n, 0), f);
    PowersOfScale(-4 - f);
    var p, r := Power10(price.e - f), Power10(-4 - f);
    assert Lift(scaled, f) == (price.c * p) * SCALE by {
      Reorder(price.c, SCALE, p);
    }
    assert Lift(Decimal(n, 0), f) == (n * r) * SCALE by {
      Reorder(n, r, SCALE);
      Associates(n, SCALE, r);
    }
    CancelsFactor(price.c * p, n * r, SCALE);
  }

  lemma ScaledRepresentable(price: Decimal)
    ensures Representable(ExactTimes(price, Decimal(SCALE, 0))) <==> Short(price)
  {
    PowersOfScale(0);
    ScaledAbs(price.c, SCALE);
    if price.c != 0 {
      ShiftedNumber(Abs(price.c), 4);
    }
  }

  lemma ToIntIs(d: Decimal, n: int)
    requires Integral(d)
    ensures ToInt(d) == n <==> Same(d, Decimal(n, 0))
  {
    PowersOfScale(0);
    if d.e < 0 {
      var p := Power10(-d.e);
      assert d.c == (d.c / p) * p;
      CancelsFactor(d.c / p, n, p);
    }
  }

  lemma WholeIsIntegral(d: Decimal, n: int)
    requires Same(d, Decimal(n, 0))
    ensures Integral(d)
  {
    PowersOfScale(0);
    if d.e < 0 {
      MultipleOf(n, Power10(-d.e));
    }
  }

  lemma UnitsOfPrice(price: Decimal, n: int)
    ensures PriceUnits(price) == Some(n) <==> Same(Times(price, Decimal(SCALE, 0)), Decimal(n, 0))
  {
    var scaled := Times(price, Decimal(SCALE, 0));
    hide Same, Times, Integral, ToInt;
    if Same(scaled, Decimal(n, 0)) {
      WholeIsIntegral(scaled, n);
    }
    if Integral(scaled) {
      ToIntIs(scaled, n);
    }
  }

  /** On a price with at most 28 significant digits the check is exact: it gives n units
      exactly when the price is n ten-thousandths. */
  lemma ShortPriceIsExact(price: Decimal, n: int)
    requires Short(price)
    ensures PriceUnits(price) == Some(n) <==> Stands(price, n)
  {
    var exact := ExactTimes(price, Decimal(SCALE, 0));
    UnitsOfPrice(price, n);
    ScaledStands(price, n);
    ScaledRepresentable(price);
    RoundedExactIff(exact);
    hide Same, Stands, Short, Representable, Rounded, ExactTimes, PriceUnits;
    if Same(exact, Decimal(n, 0)) {
      SameTransitive(Rounded(exact), exact, Decimal(n, 0));
    }
    if Same(Rounded(exact), Decimal(n, 0)) {
      SameSymmetric(Rounded(exact), exact);
      SameTransitive(exact, Rounded(exact), Decimal(n, 0));
    }
  }

  /** Any longer price is refused, or accepted with units that it does not have. */
  lemma LongPriceIsNotExact(price: Decimal, n: int)
    requires !Short(price)
    ensures PriceUnits(price) == Some(n) ==> !Stands(price, n)
    ensures PriceUnits(price).None? ==> !Stands(price, n)
  {
    var exact := ExactTimes(price, Decimal(SCALE, 0));
    UnitsOfPrice(price, n);
    ScaledStands(price, n);
    ScaledRepresentable(price);
    RoundedExactIff(exact);
    hide Same, Stands, Short, Representable, Rounded, ExactTimes;
    if Same(exact, Decimal(n, 0)) {
      WholeIsIntegral(exact, n);
      RoundedKeepsIntegral(exact);
      if Same(Rounded(exact), Decimal(n, 0)) {
        SameSymmetric(exact, Decimal(n, 0));
        SameTransitive(Rounded(exact), Decimal(n, 0), exact);
      }
    }
  }

  /** The units that the price check gives are the price's own if and only if the price has at
      most 28 significant digits, and a price that it refuses has none. */
  lemma PriceCheckIff(price: Decimal)
    ensures forall n: int :: PriceUnits(price) == Some(n) ==> (Stands(price, n) <==> Short(price))
    ensures PriceUnits(price).None? ==> forall n: int :: !Stands(price, n)
  {
    hide PriceUnits, Stands;
    forall n: int
      ensures PriceUnits(price) == Some(n) ==> (Stands(price, n) <==> Short(price))
      ensures PriceUnits(price).None? ==> !Stands(price, n)
    {
      if Short(price) {
        ShortPriceIsExact(price, n);
      } else {
        LongPriceIsNotExact(price, n);
      }
    }
  }

  lemma QuotientSign(c: int, p: nat)
    requires p > 0 && c <= 0
    ensures c / p <= 0 && c * p <= 0
  {
  }

  // A price that is not positive has no positive units.
  lemma UnitsSign(price: Decimal)
    requires PriceUnits(price).Some? && price.c <= 0
    ensures PriceUnits(price).value <= 0
  {
    var scaled := Times(price, Decimal(SCALE, 0));
    RoundedSign(ExactTimes(price, Decimal(SCALE, 0)));
    hide Rounded, Integral;
    QuotientSign(scaled.c, Power10(Abs(scaled.e)));
  }

  lemma SmallNumbers()
    ensures 10 * (INT64_MAX + 1) < Power10(PRECISION)
  {
    assert Power10(7) == 10_000_000;
    PowerAdds(7, 7);
    PowerAdds(14, 14);
  }

  // Half a unit below 2^63 units.
  const LIMIT := Decimal(10 * INT64_MAX + 5, -5)

  lemma LimitIsBound()
    ensures Bound(LIMIT) && Bound(Decimal(LIMIT.c, -1))
  {
    hide Power10;
    SmallNumbers();
  }

  lemma ScaledLimit(price: Decimal)
    ensures Leq(LIMIT, price) <==> Leq(Decimal(LIMIT.c, -1), ExactTimes(price, Decimal(SCALE, 0)))
  {
    var scaled, limit, f := ExactTimes(price, Decimal(SCALE, 0)), Decimal(LIMIT.c, -1), Min(price.e, -5);
    LeqAt(LIMIT, price, f);
    LeqAt(limit, scaled, f);
    PowersOfScale(-5 - f);
    var p, r := Power10(price.e - f), Power10(-5 - f);
    assert Lift(scaled, f) == (price.c * p) * SCALE by {
      Reorder(price.c, SCALE, p);
    }
    assert Lift(limit, f) == (LIMIT.c * r) * SCALE by {
      Reorder(LIMIT.c, r, SCALE);
      Associates(LIMIT.c, SCALE, r);
    }
    OrderedFactor(LIMIT.c * r, price.c * p, SCALE);
  }

  lemma UnitsAboveLimit(u: int)
    requires u > INT64_MAX
    ensures !Leq(Decimal(u, 0), Decimal(LIMIT.c, -1))
  {
    assert Power10(1) == 10 && Power10(0) == 1;
  }

  /** A price whose units do not fit is above every int64 amount by half a unit or more. */
  lemma LargePrice(price: Decimal)
    requires PriceUnits(price).Some? && PriceUnits(price).value > INT64_MAX
    ensures price.c > 0 && Leq(LIMIT, price)
  {
    var u := PriceUnits(price).value;
    if price.c <= 0 {
      UnitsSign(price);
    }
    var exact, limit := ExactTimes(price, Decimal(SCALE, 0)), Decimal(LIMIT.c, -1);
    LimitIsBound();
    ScaledLimit(price);
    UnitsOfPrice(price, u);
    UnitsAboveLimit(u);
    SameIsLeq(Rounded(exact), Decimal(u, 0));
    RoundedKeepsBounds(exact, limit);
    if Leq(exact, limit) {
      hide Leq, Rounded;
      LeqTransitive(Decimal(u, 0), Rounded(exact), limit);
    }
  }

  // ----- printing and reading amounts -----

  function Unsigned(n: nat): string {
    Digits(n / SCALE) + "." + Padded(n % SCALE, 4)
  }

  // Decimal(units) / SCALE, rounded as every quotient is, in ten-thousandths.
  function PrintedUnits(units: int): int {
    Lift(Rounded(Decimal(units, -4)), -4)
  }

  // format(Decimal(units) / SCALE, ".4f")
  function Amount(units: int): string {
    var n := PrintedUnits(units);
    (if n < 0 then "-" else "") + Unsigned(Abs(n))
  }

  // Decimal(text) for a text with four decimals.
  function ReadAmount(text: string): Decimal {
    Decimal(if |text| > 0 && text[0] == '-' then 0 - ReadUnsigned(text[1..]) else ReadUnsigned(text), -4)
  }

  function ReadUnsigned(text: string): int {
    if |text| < 5 then 0 else ReadNat(text[..|text| - 5]) * SCALE + ReadNat(text[|text| - 4..])
  }

  lemma UnsignedRoundTrip(n: nat)
    ensures ReadUnsigned(Unsigned(n)) == n && Unsigned(n)[0] != '-'
  {
    var whole, cents, body := Digits(n / SCALE), Padded(n % SCALE, 4), Unsigned(n);
    DigitsRead(n / SCALE);
    PowersOfScale(0);
    PaddedRead(n % SCALE, 4);
    assert body[..|body| - 5] == whole && body[|body| - 4..] == cents && body[0] == whole[0];
  }

  lemma PrintedReads(units: int)
    ensures ReadAmount(Amount(units)) == Decimal(PrintedUnits(units), -4)
  {
    var n := PrintedUnits(units);
    var body := Unsigned(Abs(n));
    UnsignedRoundTrip(Abs(n));
    hide Unsigned, ReadUnsigned, PrintedUnits;
    if n < 0 {
      assert ("-" + body)[1..] == body;
    } else {
      assert "" + body == body;
    }
  }

  /** Reading a printed amount gives back the units that were printed if and only if these have
      at most 28 significant digits. */
  lemma AmountRoundTripIff(units: int)
    ensures ReadAmount(Amount(units)) == Decimal(units, -4) <==> units == 0 || Significant(Abs(units)) <= PRECISION
  {
    PrintedReads(units);
    RoundedExactIff(Decimal(units, -4));
    SameAt(Rounded(Decimal(units, -4)), Decimal(units, -4), -4);
    PowersOfScale(0);
  }

  /** Every amount of the int64 column reads back exactly. */
  lemma AmountRoundTrip(units: int)
    requires Fits(units)
    ensures ReadAmount(Amount(units)) == Decimal(units, -4)
  {
    SmallNumbers();
    LengthAtMost(Abs(units), PRECISION);
    AmountRoundTripIff(units);
  }
}
