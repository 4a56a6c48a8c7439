/**
 The profile of the offline oracle: what it accepts, what it reports, and what the report means.
 */
module RetailProfile {
  import opened Decimals
  import opened FixedPoint
  import opened Options
  import opened Reconciliation
  import opened RetailColumns

  datatype Failure =
    | InexactPrice
    | UnitsOutOfRange
    | NoRows
    | ProductOverflow
    | AmountOverflow
    | ReconciliationFailed

  datatype Report = Report(
    rowCount: nat,
    eligibleRows: nat,
    excludedRows: nat,
    totalSales: string,
    totalQuantity: int,
    rawAmount: string,
    excludedAmount: string)

  datatype Result = Ok(report: Report) | Err(failure: Failure)

  function Count(keep: seq<bool>): nat {
    if keep == [] then 0 else Count(keep[..|keep| - 1]) + if keep[|keep| - 1] then 1 else 0
  }

  // sum(abs(int(v)) for v in column)
  method SumOfAbs(xs: seq<int>) returns (weight: nat)
    ensures weight == AbsWhere(xs, All(|xs|))
  {
    weight := 0;
    for i := 0 to |xs|
      invariant weight == AbsWhere(xs[..i], All(i))
    {
      weight := weight + Abs(xs[i]);
      assert xs[..i + 1][..i] == xs[..i] && All(i + 1)[..i] == All(i);
    }
    assert xs[..|xs|] == xs;
  }

  function Chosen(keep: seq<bool>): set<int> {
    set i | 0 <= i < |keep| && keep[i]
  }

  lemma {:induction false} CountIsSize(keep: seq<bool>)
    ensures Count(keep) == |Chosen(keep)| && Count(keep) <= |keep|
    decreases |keep|
  {
    if keep != [] {
      var n := |keep| - 1;
      CountIsSize(keep[..n]);
      assert Chosen(keep) == if keep[n] then Chosen(keep[..n]) + {n} else Chosen(keep[..n]);
    } else {
      assert Chosen(keep) == {};
    }
  }

  // The text is the true sum of price times quantity over the selected rows.
  predicate Tells(raw: seq<RawRow>, keep: seq<bool>, text: string)
    requires |raw| == |keep|
  {
    ShortWhere(raw, keep) ==> Same(TrueSum(raw, keep), ReadAmount(text))
  }

  // No product of the table wraps: the units of every price fit, and the most negative int64 is
  // multiplied by nothing but zero.
  predicate NothingWraps(raw: seq<RawRow>, us: seq<int>)
    requires |raw| == |us|
  {
    (forall i :: 0 <= i < |us| ==> us[i] <= INT64_MAX) && NoExtremeFactor(Quantities(raw), Stored(us))
  }

  // What the report of an accepted table says. The raw and the excluded amount are true sums
  // only where nothing wraps.
  predicate Faithful(raw: seq<RawRow>, us: seq<int>, report: Report)
    requires |raw| == |us|
  {
    var keep := Eligible(raw, Stored(us));
    && |raw| == report.rowCount
    && (forall i :: 0 <= i < |raw| ==>
         (keep[i] <==>
           && !(|raw[i].invoice| > 0 && raw[i].invoice[0] in {'C', 'c'})
           && raw[i].quantity > 0 && 0 < us[i] <= 0x7FFF_FFFF_FFFF_FFFF))
    && Tells(raw, keep, report.totalSales)
    && (NothingWraps(raw, us) ==>
         Tells(raw, All(|raw|), report.rawAmount) && Tells(raw, Not(keep), report.excludedAmount))
    && ReadAmount(report.rawAmount).c == ReadAmount(report.totalSales).c + ReadAmount(report.excludedAmount).c
    && report.totalQuantity == SumWhere(Quantities(raw), keep)
    && report.eligibleRows == |Chosen(keep)|
    && report.eligibleRows + report.excludedRows == report.rowCount
  }

  // The figures, from the stored columns.
  function ReportOf(raw: seq<RawRow>, ps: seq<int>): Report
    requires |raw| == |ps|
  {
    var amounts, keep := Amounts(raw, ps), Eligible(raw, ps);
    CountIsSize(keep);
    Report(|raw|, Count(keep), |raw| - Count(keep), PrintedTotal(raw, ps), Sum64(Quantities(raw), keep),
           Amount(Sum64(amounts, All(|raw|))), Amount(Sum64(amounts, Not(keep))))
  }

  /** Over rows whose units and whose product did not wrap, the printed sum is the true one. */
  lemma SelectionTells(raw: seq<RawRow>, us: seq<int>, keep: seq<bool>)
    requires Accepted(raw, us) && |keep| == |raw|
    requires forall i :: 0 <= i < |raw| && keep[i] ==>
               us[i] <= INT64_MAX && Amounts(raw, Stored(us))[i] == raw[i].quantity * us[i]
    ensures Tells(raw, keep, Amount(Sum64(Amounts(raw, Stored(us)), keep)))
  {
    var amounts := Amounts(raw, Stored(us));
    if ShortWhere(raw, keep) {
      forall i | 0 <= i < |raw| && keep[i] ensures Stands(ExactAmount(raw[i]), amounts[i]) {
        ExactRow(raw[i], us[i]);
      }
      TrueSumStands(raw, amounts, keep);
      SelectionExact(raw, Stored(us), keep);
    }
  }

  // A row is eligible only with units that fit, and then its product is exact.
  lemma EligibleFits(raw: seq<RawRow>, us: seq<int>, i: nat)
    requires Accepted(raw, us) && i < |raw| && Eligible(raw, Stored(us))[i]
    ensures us[i] <= INT64_MAX && Amounts(raw, Stored(us))[i] == raw[i].quantity * us[i]
  {
    StoredIff(us, i);
    EligibleRow(raw, Stored(us), i);
  }

  lemma UnwrappedRow(raw: seq<RawRow>, us: seq<int>, i: nat)
    requires Accepted(raw, us) && NothingWraps(raw, us) && i < |raw|
    ensures Amounts(raw, Stored(us))[i] == raw[i].quantity * us[i]
  {
    StoredIff(us, i);
    AmountsExactIff(Quantities(raw), Stored(us));
    assert Products(Quantities(raw), Stored(us))[i] == Quantities(raw)[i] * Stored(us)[i];
  }

  lemma ReportTells(raw: seq<RawRow>, us: seq<int>)
    requires Accepted(raw, us)
    ensures var report, keep := ReportOf(raw, Stored(us)), Eligible(raw, Stored(us));
            && Tells(raw, keep, report.totalSales)
            && (NothingWraps(raw, us) ==>
                 Tells(raw, All(|raw|), report.rawAmount) && Tells(raw, Not(keep), report.excludedAmount))
  {
    var keep := Eligible(raw, Stored(us));
    forall i | 0 <= i < |raw| && keep[i]
      ensures us[i] <= INT64_MAX && Amounts(raw, Stored(us))[i] == raw[i].quantity * us[i]
    {
      EligibleFits(raw, us, i);
    }
    hide Tells, Amount, Sum64;
    SelectionTells(raw, us, keep);
    if NothingWraps(raw, us) {
      forall i | 0 <= i < |raw| ensures Amounts(raw, Stored(us))[i] == raw[i].quantity * us[i] {
        UnwrappedRow(raw, us, i);
      }
      SelectionTells(raw, us, All(|raw|));
      SelectionTells(raw, us, Not(keep));
    }
  }

  lemma EligibleIff(raw: seq<RawRow>, us: seq<int>, i: nat)
    requires |us| == |raw| && CastPasses(us) && i < |raw|
    ensures Eligible(raw, Stored(us))[i] <==>
              && !(|raw[i].invoice| > 0 && raw[i].invoice[0] in {'C', 'c'})
              && raw[i].quantity > 0 && 0 < us[i] <= 0x7FFF_FFFF_FFFF_FFFF
  {
    StoredIff(us, i);
  }

  lemma ReportIsFaithful(raw: seq<RawRow>, us: seq<int>)
    requires Accepted(raw, us)
    ensures Faithful(raw, us, ReportOf(raw, Stored(us)))
  {
    var ps := Stored(us);
    var amounts, keep := Amounts(raw, ps), Eligible(raw, ps);
    ReportTells(raw, us);
    CountIsSize(keep);
    SelectionExact(raw, ps, keep);
    SelectionExact(raw, ps, Not(keep));
    SelectionExact(raw, ps, All(|raw|));
    SumSplits(amounts, keep);
    QuantitiesExact(raw, ps);
    forall i | 0 <= i < |raw|
      ensures keep[i] <==>
                && !(|raw[i].invoice| > 0 && raw[i].invoice[0] in {'C', 'c'})
                && raw[i].quantity > 0 && 0 < us[i] <= 0x7FFF_FFFF_FFFF_FFFF
    {
      EligibleIff(raw, us, i);
    }
    hide Tells, Amount, ReadAmount, Guarded, Eligible, Quantities, Amounts, Accepted, NothingWraps;
  }

  /** The profile succeeds exactly on the tables that the price check, the int64 cast and the
      two guards accept and whose rounding loop gives the printed total; on counted prices of at
      most 28 significant digits the loop does so exactly when their units fit an int64. */
  method Profile(raw: seq<RawRow>) returns (result: Result, ghost units: seq<int>)
    requires AllFit(Quantities(raw))
    ensures result.Ok? <==> exists us: seq<int> :: Accepted(raw, us) && Reconciles(raw, us)
    ensures result == Err(ReconciliationFailed) <==> exists us: seq<int> :: Accepted(raw, us) && !Reconciles(raw, us)
    ensures CountedShort(raw) ==>
              (result == Err(ReconciliationFailed) <==>
               exists us: seq<int> :: Accepted(raw, us) && !CountedFit(raw, us))
    ensures result.Ok? ==> Accepted(raw, units) && Reconciles(raw, units) && CountedFit(raw, units)
    ensures result.Ok? ==> Faithful(raw, units, result.report)
  {
    units := [];
    var priced := PriceColumn(raw);
    if priced.None? {
      return Err(InexactPrice), units;
    }
    var us := priced.value;
    units := us;
    forall us' | Accepted(raw, us') ensures us' == us {
      PricedIsUnique(raw, us, us');
    }
    if !CastPasses(us) {
      return Err(UnitsOutOfRange), units;
    }
    var ps := Stored(us);
    if raw == [] {
      return Err(NoRows), units;
    }
    var quantities := Quantities(raw);
    if MaxAbs64(quantities) * MaxAbs64(ps) > INT64_MAX {
      return Err(ProductOverflow), units;
    }
    var weight := SumOfAbs(Products(quantities, ps));
    if weight > INT64_MAX {
      return Err(AmountOverflow), units;
    }
    var report := ReportOf(raw, ps);
    assert Accepted(raw, us);
    ReportIsFaithful(raw, us);
    if !CountedFit(raw, us) {
      MisfitRaises(raw, us);
    } else if CountedShort(raw) {
      ReconciliationPasses(raw, us);
    }
    hide GuardsPass, Guarded, ReportOf, AllFit, Priced, CastPasses, CountedShort, CountedFit, Faithful;
    var independent := IndependentLoop(raw);
    assert report.totalSales == PrintedTotal(raw, ps);
    if !Same(independent, ReadAmount(report.totalSales)) {
      return Err(ReconciliationFailed), units;
    }
    return Ok(report), units;
  }
}
