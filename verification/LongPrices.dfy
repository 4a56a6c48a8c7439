/**
 Prices with more digits than the decimal context has room for: the check accepts one it does
 not represent, and the reconciliation may raise.
 */
module LongPrices {
  import opened Decimals
  import opened FixedPoint
  import opened Numerals
  import opened Options
  import opened Reconciliation
  import opened RetailColumns

  // The text 1.0000000000000000000000000004
  const LONG_PRICE := Decimal(10_000_000_000_000_000_000_000_000_004, -28)

  function LongRow(quantity: int): RawRow {
    RawRow("536365", quantity, LONG_PRICE, "2010-12", "France")
  }

  lemma LengthIs(n: nat, k: nat)
    requires k > 0 && Power10(k - 1) <= n < Power10(k)
    ensures Length(n) == k
  {
    LengthAtMost(n, k);
    LengthAtMost(n, k - 1);
  }

  lemma Powers()
    ensures Power10(1) == 10 && Power10(5) == 100_000
    ensures Power10(27) == 1_000_000_000_000_000_000_000_000_000
    ensures Power10(28) == 10 * Power10(27) && Power10(29) == 100 * Power10(27)
    ensures Power10(32) == 100_000 * Power10(27) && Power10(33) == 10 * Power10(32)
    ensures Power10(0) == 1 && Power10(4) == 10_000 && Power10(23) == 100_000_000_000_000_000_000_000
  {
    assert Power10(4) == 10_000 && Power10(5) == 100_000;
    PowerAdds(4, 5);
    PowerAdds(9, 9);
    PowerAdds(18, 9);
    PowerAdds(18, 5);
    PowerAdds(5, 27);
  }

  lemma LongPriceUnits()
    ensures PriceUnits(LONG_PRICE) == Some(10_000)
  {
    Powers();
    var c := 100_000_000_000_000_000_000_000_000_040_000;
    var scaled := ExactTimes(LONG_PRICE, Decimal(SCALE, 0));
    assert scaled == Decimal(c, -28);
    LengthIs(c, 33);
    assert Rounded(scaled) == Decimal(1_000_000_000_000_000_000_000_000_000, -23) by {
      hide Power10;
    }
  }

  lemma LongTable(quantity: int)
    requires 1 <= quantity <= 9
    ensures Accepted([LongRow(quantity)], [10_000]) && ColumnTerm(LongRow(quantity), 10_000) == quantity * 10_000
  {
    var raw := [LongRow(quantity)];
    hide PriceUnits, AbsWhere, SumWhere;
    LongPriceUnits();
    OneOnly(quantity * 10_000);
    OneOnly(quantity);
    OneOnly(10_000);
    assert Quantities(raw) == [quantity] && Stored([10_000]) == [10_000];
    assert Products([quantity], [10_000]) == [quantity * 10_000];
  }

  // One digit too many, and how it rounds away.
  lemma OneDigitOver(c: nat, q: nat)
    requires Power10(28) <= c < Power10(29) && q == Nearest(c, 10)
    ensures Rounded(Decimal(c, -28)) == Decimal(q, -27)
  {
    hide Length, Nearest;
    LengthIs(c, 29);
    assert Power10(1) == 10;
    hide Power10;
    assert Excess(Decimal(c, -28)) == 1;
  }

  lemma LongProduct(quantity: int)
    requires quantity == 1 || quantity == 3
    ensures Times(LONG_PRICE, Decimal(quantity, 0)) ==
            Decimal(if quantity == 1 then 1_000_000_000_000_000_000_000_000_000
                    else 3_000_000_000_000_000_000_000_000_001, -27)
  {
    Powers();
    if quantity == 1 {
      OneDigitOver(10_000_000_000_000_000_000_000_000_004, 1_000_000_000_000_000_000_000_000_000);
    } else {
      OneDigitOver(30_000_000_000_000_000_000_000_000_012, 3_000_000_000_000_000_000_000_000_001);
    }
  }

  lemma LongPriceIsLong()
    ensures !Short(LONG_PRICE) && !Stands(LONG_PRICE, 10_000)
  {
    Powers();
    LengthIs(LONG_PRICE.c, 29);
    LongPriceUnits();
    hide Stands, PriceUnits;
    PriceCheckIff(LONG_PRICE);
  }

  /** A price of 29 digits passes the check with units it does not have, and three of it do not
      reconcile: the loop's total is 3.000000000000000000000000001, the printed one 3.0000. */
  lemma LongPriceFailsReconciliation()
    ensures Accepted([LongRow(3)], [10_000])
    ensures !Short(LONG_PRICE) && !Stands(LONG_PRICE, 10_000)
    ensures !Reconciles([LongRow(3)], [10_000])
  {
    hide Accepted, Short, Reconciles, ColumnTerm, Times, Stands;
    LongTable(3);
    LongProduct(3);
    LongPriceIsLong();
    OneRowReconcilesIff(LongRow(3), 10_000);
    StandsAt(LoopTerm(LongRow(3)), 30_000);
    Powers();
  }

  /** One of it does reconcile: a long price need not show. */
  lemma LongPriceMayReconcile()
    ensures Accepted([LongRow(1)], [10_000]) && Reconciles([LongRow(1)], [10_000])
  {
    hide Accepted, Reconciles, ColumnTerm, Times, Stands;
    LongTable(1);
    LongProduct(1);
    OneRowReconcilesIff(LongRow(1), 10_000);
    StandsAt(LoopTerm(LongRow(1)), 10_000);
    Powers();
  }

  // ----- an error that a later sum absorbs -----

  const LARGE_PRICE := Decimal(10_000_000_000_000, 0)
  const LARGE_UNITS := 100_000_000_000_000_000

  function LargeRow(): RawRow {
    RawRow("536366", 1, LARGE_PRICE, "2010-12", "France")
  }

  lemma LargePriceUnits()
    ensures PriceUnits(LARGE_PRICE) == Some(LARGE_UNITS) && Stands(LARGE_PRICE, LARGE_UNITS) && Short(LARGE_PRICE)
  {
    assert Power10(4) == 10_000 && Power10(0) == 1;
    SmallNumbers();
    LengthAtMost(LARGE_PRICE.c, PRECISION);
    StandsAt(LARGE_PRICE, LARGE_UNITS);
    hide PriceUnits, Stands;
    ShortPriceIsExact(LARGE_PRICE, LARGE_UNITS);
  }

  lemma LargeSum()
    ensures Plus(Decimal(0, 0), Times(LARGE_PRICE, Decimal(1, 0))) == LARGE_PRICE
  {
    assert Power10(0) == 1;
    SmallNumbers();
    LengthAtMost(LARGE_PRICE.c, PRECISION);
  }

  lemma AbsorbedSum()
    ensures Plus(LARGE_PRICE, Decimal(3_000_000_000_000_000_000_000_000_001, -27)) ==
            Decimal(1_000_000_000_000_300_000_000_000_000, -14)
  {
    Powers();
    var c := 10_000_000_000_000_000_000_000_000_000_000_000_000_000 + 3_000_000_000_000_000_000_000_000_001;
    assert ExactPlus(LARGE_PRICE, Decimal(3_000_000_000_000_000_000_000_000_001, -27)) == Decimal(c, -27);
    PowerAdds(13, 27);
    PowerAdds(4, 9);
    assert Power10(13) == 10_000_000_000_000;
    assert Power10(41) == 10 * Power10(40);
    LengthIs(c, 41);
    hide Power10, Length;
    assert Excess(Decimal(c, -27)) == 13;
  }

  lemma TwoRowLoop()
    ensures IndependentSum([LargeRow(), LongRow(3)]) == Decimal(1_000_000_000_000_300_000_000_000_000, -14)
  {
    hide Plus, Times;
    var raw := [LargeRow(), LongRow(3)];
    assert raw[..1] == [LargeRow()] && [LargeRow()][..0] == [];
    LargeSum();
    LongProduct(3);
    AbsorbedSum();
  }

  lemma TwoRowTable()
    ensures var raw, us := [LargeRow(), LongRow(3)], [LARGE_UNITS, 10_000];
            && Accepted(raw, us)
            && Amounts(raw, Stored(us)) == [LARGE_UNITS, 30_000] && Eligible(raw, Stored(us)) == [true, true]
  {
    var raw, us := [LargeRow(), LongRow(3)], [LARGE_UNITS, 10_000];
    LongPriceUnits();
    LargePriceUnits();
    hide PriceUnits, Stands, Short;
    assert Quantities(raw) == [1, 3] && Stored(us) == us;
    assert Products([1, 3], us) == [LARGE_UNITS, 30_000];
    TwoWeights(LARGE_UNITS, 30_000);
    TwoMaxima(1, 3);
    TwoMaxima(LARGE_UNITS, 10_000);
  }

  lemma TwoWeights(x: nat, y: nat)
    ensures AbsWhere([x, y], All(2)) == x + y && SumWhere([x, y], [true, true]) == x + y
  {
    assert [x, y][..1] == [x] && All(2)[..1] == All(1) && [true, true][..1] == [true];
    assert [x][..0] == [] && All(1)[..0] == [] && [true][..0] == [];
    assert AbsWhere([x], All(1)) == x && SumWhere([x], [true]) == x;
  }

  lemma TwoMaxima(x: int, y: int)
    ensures MaxAbs64([x, y]) == if Abs64(y) > Abs64(x) then Abs64(y) else Abs64(x)
  {
    assert [x, y][..1] == [x];
  }

  /** After a large row the same three pieces do reconcile: the sum has no room for their error.
      So a single table may reconcile although one of its rows is not exact. */
  lemma LargeRowAbsorbsError()
    ensures var raw, us := [LargeRow(), LongRow(3)], [LARGE_UNITS, 10_000];
            Accepted(raw, us) && Reconciles(raw, us) && !RowsExact(raw, us)
  {
    var raw, us := [LargeRow(), LongRow(3)], [LARGE_UNITS, 10_000];
    TwoRowTable();
    TwoRowLoop();
    hide Accepted, PriceUnits, Amounts, Eligible, Stored, Times, Amount, ReadAmount, IndependentSum;
    TwoWeights(LARGE_UNITS, 30_000);
    AcceptedIsGuarded(raw, us);
    SelectionExact(raw, Stored(us), [true, true]);
    Powers();
    assert Power10(10) == 10_000_000_000;
    StandsAt(Decimal(1_000_000_000_000_300_000_000_000_000, -14), LARGE_UNITS + 30_000);
    LongTable(3);
    OneRowReconcilesIff(LongRow(3), 10_000);
    hide Reconciles, RowExact;
    LongPriceFailsReconciliation();
    assert raw[1] == LongRow(3) && us[1] == 10_000;
  }

  lemma AcceptedIsGuarded(raw: seq<RawRow>, us: seq<int>)
    requires Accepted(raw, us)
    ensures Guarded(raw, Stored(us))
  {
  }
}
