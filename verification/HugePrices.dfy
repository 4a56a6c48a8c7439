/**
 Prices whose units lie between 2^63 and 2^64: the cast stores them as negative numbers.
 */
module HugePrices {
  import opened Decimals
  import opened FixedPoint
  import opened Numerals
  import opened Options
  import opened Reconciliation
  import opened RetailColumns
  import opened RetailProfile

  const HUGE_PRICE := Decimal(1_000_000_000_000_000, 0)
  const HUGE_UNITS := 10_000_000_000_000_000_000
  const WRAPPED_UNITS := -8_446_744_073_709_551_616

  function HugeRow(invoice: string): RawRow {
    RawRow(invoice, 1, HUGE_PRICE, "2010-12", "France")
  }

  lemma HugePriceUnits()
    ensures PriceUnits(HUGE_PRICE) == Some(HUGE_UNITS) && Short(HUGE_PRICE)
  {
    assert Power10(4) == 10_000 && Power10(0) == 1;
    LengthAtMost(HUGE_PRICE.c, PRECISION);
    SmallNumbers();
    StandsAt(HUGE_PRICE, HUGE_UNITS);
    hide PriceUnits, Stands;
    ShortPriceIsExact(HUGE_PRICE, HUGE_UNITS);
  }

  lemma HugeTable(invoice: string)
    ensures Accepted([HugeRow(invoice)], [HUGE_UNITS]) && Stored([HUGE_UNITS]) == [WRAPPED_UNITS]
    ensures Amounts([HugeRow(invoice)], [WRAPPED_UNITS]) == [WRAPPED_UNITS]
  {
    HugePriceUnits();
    hide PriceUnits, AbsWhere;
    OneOnly(1);
    OneOnly(WRAPPED_UNITS);
    assert Quantities([HugeRow(invoice)]) == [1] && Stored([HUGE_UNITS]) == [WRAPPED_UNITS];
    assert Products([1], [WRAPPED_UNITS]) == [WRAPPED_UNITS];
  }

  lemma OneSum(x: int)
    ensures SumWhere([x], All(1)) == x
  {
    assert [x][..0] == [] && All(1)[..0] == [];
  }

  lemma HugeIsTrue(r: RawRow)
    requires r.price == HUGE_PRICE && r.quantity == 1
    ensures !Same(TrueSum([r], All(1)), Decimal(WRAPPED_UNITS, -4)) && ShortWhere([r], All(1))
  {
    HugePriceUnits();
    hide PriceUnits, Stands, ExactAmount, ExactPlus, Short, TrueSum;
    ExactRow(r, HUGE_UNITS);
    assert r.quantity * HUGE_UNITS == HUGE_UNITS;
    OneSum(HUGE_UNITS);
    TrueSumStands([r], [HUGE_UNITS], All(1));
    StandsIsSame(TrueSum([r], All(1)), WRAPPED_UNITS);
    if Stands(TrueSum([r], All(1)), WRAPPED_UNITS) {
      StandsUnique(TrueSum([r], All(1)), WRAPPED_UNITS, HUGE_UNITS);
    }
  }

  lemma CancelledReconciles()
    ensures Reconciles([HugeRow("C536365")], [HUGE_UNITS])
  {
    HugeTable("C536365");
    NothingStands();
    assert Cancelled("C536365");
    hide Accepted, Stands, Reconciles;
    OneRowReconcilesIff(HugeRow("C536365"), HUGE_UNITS);
  }

  lemma RawAmountOfOne(r: RawRow)
    requires Guarded([r], [WRAPPED_UNITS]) && Amounts([r], [WRAPPED_UNITS]) == [WRAPPED_UNITS]
    ensures ReadAmount(ReportOf([r], [WRAPPED_UNITS]).rawAmount) == Decimal(WRAPPED_UNITS, -4)
  {
    hide Guarded, ReadAmount, Amount, Amounts;
    OneSum(WRAPPED_UNITS);
    SelectionExact([r], [WRAPPED_UNITS], All(1));
  }

  /** A cancelled row of price 10^15 is accepted and reconciles, and the raw amount is printed as
      -844674407370955.1616. */
  lemma CancelledHugePriceWraps()
    ensures
      var raw, report := [HugeRow("C536365")], ReportOf([HugeRow("C536365")], Stored([HUGE_UNITS]));
      && Accepted(raw, [HUGE_UNITS]) && Reconciles(raw, [HUGE_UNITS])
      && ReadAmount(report.rawAmount) == Decimal(WRAPPED_UNITS, -4)
      && !Tells(raw, All(1), report.rawAmount)
  {
    HugeTable("C536365");
    hide Guarded, Reconciles, ReadAmount, ReportOf, PriceUnits, CastPasses, Stored, Amounts, Same, ShortWhere;
    CancelledReconciles();
    RawAmountOfOne(HugeRow("C536365"));
    HugeIsTrue(HugeRow("C536365"));
  }

  /** Uncancelled, the same row is accepted and makes the reconciliation raise. */
  lemma HugePriceFailsReconciliation()
    ensures Accepted([HugeRow("536365")], [HUGE_UNITS]) && CountedShort([HugeRow("536365")])
    ensures !Reconciles([HugeRow("536365")], [HUGE_UNITS])
  {
    HugeTable("536365");
    HugePriceUnits();
    hide Accepted, Reconciles, PriceUnits, Short;
    assert Counted([HugeRow("536365")][0]);
    MisfitRaises([HugeRow("536365")], [HUGE_UNITS]);
  }
}
