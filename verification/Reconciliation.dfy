/**
 The independent loop against the column total: which tables reconcile.
 */
module Reconciliation {
  import opened Decimals
  import opened FixedPoint
  import opened Numerals
  import opened Options
  import opened RetailColumns

  predicate Priced(raw: seq<RawRow>, us: seq<int>) {
    |us| == |raw| && forall i :: 0 <= i < |raw| ==> PriceUnits(raw[i].price) == Some(us[i])
  }

  // The tables the profile accepts: every price has units, the column of units can be cast, and
  // the guards let the stored columns through.
  predicate Accepted(raw: seq<RawRow>, us: seq<int>) {
    Priced(raw, us) && CastPasses(us) && Guarded(raw, Stored(us))
  }

  // The Decimal loop's own idea of an eligible row.
  predicate Counted(r: RawRow) {
    !Cancelled(r.invoice) && r.quantity > 0 && r.price.c > 0
  }

  function ExactAmount(r: RawRow): Decimal {
    ExactTimes(r.price, Decimal(r.quantity, 0))
  }

  // The loop's sum: each product and each partial sum is rounded.
  function IndependentSum(raw: seq<RawRow>): Decimal {
    if raw == [] then Decimal(0, 0)
    else
      var r, before := raw[|raw| - 1], IndependentSum(raw[..|raw| - 1]);
      if Counted(r) then Plus(before, Times(r.price, Decimal(r.quantity, 0))) else before
  }

  // The loop's sum equals the printed total.
  predicate Reconciles(raw: seq<RawRow>, us: seq<int>)
    requires |raw| == |us|
  {
    Same(IndependentSum(raw), ReadAmount(PrintedTotal(raw, Stored(us))))
  }

  method PriceColumn(raw: seq<RawRow>) returns (units: Option<seq<int>>)
    ensures units.Some? ==> Priced(raw, units.value)
    ensures units.None? ==> forall us: seq<int> :: !Priced(raw, us)
  {
    var us: seq<int> := [];
    for i := 0 to |raw|
      invariant |us| == i && forall j :: 0 <= j < i ==> PriceUnits(raw[j].price) == Some(us[j])
    {
      var n := PriceUnits(raw[i].price);
      if n.None? {
        return None;
      }
      us := us + [n.value];
    }
    return Some(us);
  }

  lemma PricedIsUnique(raw: seq<RawRow>, us: seq<int>, us': seq<int>)
    requires Priced(raw, us) && Priced(raw, us')
    ensures us == us'
  {
    forall i | 0 <= i < |raw| ensures us[i] == us'[i] {
      assert PriceUnits(raw[i].price) == Some(us[i]);
    }
  }

  method IndependentLoop(raw: seq<RawRow>) returns (total: Decimal)
    ensures total == IndependentSum(raw)
  {
    total := Decimal(0, 0);
    for i := 0 to |raw|
      invariant total == IndependentSum(raw[..i])
    {
      if Counted(raw[i]) {
        total := Plus(total, Times(raw[i].price, Decimal(raw[i].quantity, 0)));
      }
      assert raw[..i + 1][..i] == raw[..i];
    }
    assert raw[..|raw|] == raw;
  }

  // ----- true sums -----

  // The price times quantity of the selected rows, with nothing rounded.
  function TrueSum(raw: seq<RawRow>, keep: seq<bool>): Decimal
    requires |raw| == |keep|
  {
    if raw == [] then Decimal(0, 0)
    else
      var n := |raw| - 1;
      var before := TrueSum(raw[..n], keep[..n]);
      if keep[n] then ExactPlus(before, ExactAmount(raw[n])) else before
  }

  predicate ShortWhere(raw: seq<RawRow>, keep: seq<bool>)
    requires |raw| == |keep|
  {
    forall i :: 0 <= i < |raw| && keep[i] ==> Short(raw[i].price)
  }

  lemma NothingStands()
    ensures Stands(Decimal(0, 0), 0)
  {
    StandsAt(Decimal(0, 0), 0);
  }

  lemma {:induction false} TrueSumStands(raw: seq<RawRow>, amounts: seq<int>, keep: seq<bool>)
    requires |raw| == |amounts| == |keep|
    requires forall i :: 0 <= i < |raw| && keep[i] ==> Stands(ExactAmount(raw[i]), amounts[i])
    ensures Stands(TrueSum(raw, keep), SumWhere(amounts, keep))
    decreases |raw|
  {
    hide Stands, ExactAmount, ExactPlus;
    NothingStands();
    if raw != [] {
      var n := |raw| - 1;
      TrueSumStands(raw[..n], amounts[..n], keep[..n]);
      if keep[n] {
        StandsPlus(TrueSum(raw[..n], keep[..n]), SumWhere(amounts[..n], keep[..n]), ExactAmount(raw[n]), amounts[n]);
      }
    }
  }

  // ----- row by row -----

  // What the loop adds for a row, and what the column total takes from it.
  function LoopTerm(r: RawRow): Decimal {
    if Counted(r) then Times(r.price, Decimal(r.quantity, 0)) else Decimal(0, 0)
  }

  function ColumnTerm(r: RawRow, u: int): int {
    var p := Wrap(u);
    if !Cancelled(r.invoice) && r.quantity > 0 && p > 0 then Wrap(r.quantity * p) else 0
  }

  // The row's rounded product is its units product.
  predicate RowExact(r: RawRow, u: int) {
    Stands(LoopTerm(r), ColumnTerm(r, u))
  }

  predicate RowsExact(raw: seq<RawRow>, us: seq<int>)
    requires |raw| == |us|
  {
    forall i :: 0 <= i < |raw| ==> RowExact(raw[i], us[i])
  }

  lemma ColumnTermIs(raw: seq<RawRow>, us: seq<int>, i: nat)
    requires |raw| == |us| && i < |raw|
    ensures ColumnTerm(raw[i], us[i]) ==
            if Eligible(raw, Stored(us))[i] then Amounts(raw, Stored(us))[i] else 0
  {
  }

  lemma RoundedStep(before: Decimal, m: int, product: Decimal, n: int)
    requires Stands(before, m) && Stands(product, n) && Abs(m + n) <= INT64_MAX
    ensures Stands(Plus(before, product), m + n)
  {
    SmallNumbers();
    hide Stands, Rounded, ExactPlus;
    StandsPlus(before, m, product, n);
    SmallIsExact(ExactPlus(before, product), m + n);
  }

  lemma {:induction false} LoopIsExact(raw: seq<RawRow>, amounts: seq<int>, keep: seq<bool>)
    requires |raw| == |amounts| == |keep| && AbsWhere(amounts, keep) <= INT64_MAX
    requires forall i :: 0 <= i < |raw| ==> Stands(LoopTerm(raw[i]), if keep[i] then amounts[i] else 0)
    ensures Stands(IndependentSum(raw), SumWhere(amounts, keep))
    decreases |raw|
  {
    NothingStands();
    if raw != [] {
      var n := |raw| - 1;
      var term := if keep[n] then amounts[n] else 0;
      LoopIsExact(raw[..n], amounts[..n], keep[..n]);
      SumSplits(amounts, keep);
      hide Stands, Plus, Times;
      if Counted(raw[n]) {
        RoundedStep(IndependentSum(raw[..n]), SumWhere(amounts[..n], keep[..n]), LoopTerm(raw[n]), term);
      } else {
        StandsUnique(Decimal(0, 0), term, 0);
      }
    }
  }

  /** If every row's rounded product is its units product, the loop's sum is the column total. */
  lemma RowsExactTotal(raw: seq<RawRow>, us: seq<int>)
    requires Accepted(raw, us) && RowsExact(raw, us)
    ensures Stands(IndependentSum(raw), SumWhere(Amounts(raw, Stored(us)), Eligible(raw, Stored(us))))
    ensures Reconciles(raw, us)
  {
    var ps := Stored(us);
    var amounts, keep := Amounts(raw, ps), Eligible(raw, ps);
    forall i | 0 <= i < |raw| ensures Stands(LoopTerm(raw[i]), if keep[i] then amounts[i] else 0) {
      assert RowExact(raw[i], us[i]);
      ColumnTermIs(raw, us, i);
    }
    SelectionExact(raw, ps, keep);
    SumSplits(amounts, keep);
    hide Stands, LoopTerm, Amounts, Eligible, Amount, ReadAmount;
    LoopIsExact(raw, amounts, keep);
    StandsIsSame(IndependentSum(raw), SumWhere(amounts, keep));
  }

  lemma StandsIsSame(d: Decimal, n: int)
    ensures Stands(d, n) <==> Same(d, Decimal(n, -4))
  {
  }

  lemma LoopOfOne(r: RawRow)
    ensures Same(IndependentSum([r]), LoopTerm(r))
  {
    assert [r][..0] == [];
    if Counted(r) {
      var product := Times(r.price, Decimal(r.quantity, 0));
      RoundedIsRepresentable(ExactAmount(r));
      NothingPlus(product);
    }
  }

  lemma TotalOfOne(r: RawRow, u: int)
    requires Accepted([r], [u])
    ensures ReadAmount(PrintedTotal([r], Stored([u]))) == Decimal(ColumnTerm(r, u), -4)
  {
    var ps := Stored([u]);
    var amounts, keep := Amounts([r], ps), Eligible([r], ps);
    SelectionExact([r], ps, keep);
    ColumnTermIs([r], [u], 0);
    hide Amount, ReadAmount, ColumnTerm;
    assert amounts[..0] == [] && keep[..0] == [];
  }

  /** A table of one row reconciles if and only if the row's rounded product is its units product. */
  lemma OneRowReconcilesIff(r: RawRow, u: int)
    requires Accepted([r], [u])
    ensures Reconciles([r], [u]) <==> RowExact(r, u)
  {
    LoopOfOne(r);
    TotalOfOne(r, u);
    var sum, total := IndependentSum([r]), Decimal(ColumnTerm(r, u), -4);
    hide Same, LoopTerm, ColumnTerm, IndependentSum, PrintedTotal, ReadAmount;
    StandsIsSame(LoopTerm(r), ColumnTerm(r, u));
    SameSymmetric(sum, LoopTerm(r));
    if Same(sum, total) {
      SameTransitive(LoopTerm(r), sum, total);
    }
    if Same(LoopTerm(r), total) {
      SameTransitive(sum, LoopTerm(r), total);
    }
  }

  // ----- tables made of given rows -----

  predicate Picks(picks: seq<nat>, n: nat) {
    forall j :: 0 <= j < |picks| ==> picks[j] < n
  }

  // The rows at the given places, in the given order, any of them as often as it is named.
  function Picked<T>(xs: seq<T>, picks: seq<nat>): (ys: seq<T>)
    requires Picks(picks, |xs|)
    ensures |ys| == |picks|
  {
    seq(|picks|, j requires 0 <= j < |picks| => xs[picks[j]])
  }

  ghost predicate AlwaysReconciles(raw: seq<RawRow>, us: seq<int>)
    requires |raw| == |us|
  {
    forall picks: seq<nat> ::
      Picks(picks, |raw|) && Accepted(Picked(raw, picks), Picked(us, picks)) ==>
        Reconciles(Picked(raw, picks), Picked(us, picks))
  }

  lemma PricedSign(raw: seq<RawRow>, us: seq<int>, i: nat)
    requires Priced(raw, us) && CastPasses(us) && i < |raw| && raw[i].price.c <= 0
    ensures Wrap(us[i]) <= 0
  {
    hide PriceUnits;
    UnitsSign(raw[i].price);
    StoredIff(us, i);
  }

  // A row that the loop does not count, the column does not take either.
  lemma UncountedIsExact(raw: seq<RawRow>, us: seq<int>, i: nat)
    requires Priced(raw, us) && CastPasses(us) && i < |raw| && !Counted(raw[i])
    ensures RowExact(raw[i], us[i])
  {
    hide PriceUnits, Stands;
    NothingStands();
    if raw[i].price.c <= 0 {
      PricedSign(raw, us, i);
    }
  }

  lemma CountedRowAccepted(raw: seq<RawRow>, us: seq<int>, i: nat)
    requires Accepted(raw, us) && i < |raw| && Counted(raw[i])
    ensures Accepted([raw[i]], [us[i]])
  {
    var q, p := raw[i].quantity, Wrap(us[i]);
    var qs, ps := Quantities(raw), Stored(us);
    assert qs[i] == q && ps[i] == p && Fits(q);
    assert Quantities([raw[i]]) == [q] && Stored([us[i]]) == [p];
    OneOfAll(Products(qs, ps), i);
    assert Products([q], [p]) == [Wrap(q * p)];
    OneOnly(Wrap(q * p));
    SmallerFactors(Abs64(q), Abs64(p), MaxAbs64(qs), MaxAbs64(ps));
  }

  lemma OneOnly(x: int)
    ensures AbsWhere([x], All(1)) == Abs(x) && MaxAbs64([x]) == Abs64(x)
  {
    assert [x][..0] == [] && All(1)[..0] == [];
  }

  lemma SmallerFactors(a: int, b: int, m: int, n: int)
    requires 0 < a <= m && b <= n && m * n <= INT64_MAX
    ensures a * b <= INT64_MAX
  {
    if b > 0 {
      assert a * b <= m * b <= m * n;
    }
  }

  lemma SinglePick(raw: seq<RawRow>, us: seq<int>, i: nat)
    requires Accepted(raw, us) && i < |raw| && Counted(raw[i]) && AlwaysReconciles(raw, us)
    ensures Reconciles([raw[i]], [us[i]])
  {
    CountedRowAccepted(raw, us, i);
    var picks: seq<nat> := [i];
    assert Picks(picks, |raw|);
    assert Picked(raw, picks) == [raw[i]] && Picked(us, picks) == [us[i]];
  }

  /** No accepted table made of these rows, repeated and ordered at will, fails to reconcile if
      and only if each row's rounded product is its units product. */
  lemma AlwaysReconcilesIff(raw: seq<RawRow>, us: seq<int>)
    requires Accepted(raw, us)
    ensures AlwaysReconciles(raw, us) <==> RowsExact(raw, us)
  {
    if AlwaysReconciles(raw, us) {
      forall i | 0 <= i < |raw| ensures RowExact(raw[i], us[i]) {
        hide RowExact, Reconciles;
        if Counted(raw[i]) {
          CountedRowAccepted(raw, us, i);
          SinglePick(raw, us, i);
          OneRowReconcilesIff(raw[i], us[i]);
        } else {
          UncountedIsExact(raw, us, i);
        }
      }
    }
    if RowsExact(raw, us) {
      forall picks: seq<nat> | Picks(picks, |raw|) && Accepted(Picked(raw, picks), Picked(us, picks))
        ensures Reconciles(Picked(raw, picks), Picked(us, picks))
      {
        hide RowExact, Reconciles, Accepted;
        RowsExactTotal(Picked(raw, picks), Picked(us, picks));
      }
    }
  }

  // ----- short prices with units that fit -----

  // Every price that the loop multiplies has at most 28 significant digits.
  predicate CountedShort(raw: seq<RawRow>) {
    forall i :: 0 <= i < |raw| && Counted(raw[i]) ==> Short(raw[i].price)
  }

  // And its units are at most 2^63 - 1.
  predicate CountedFit(raw: seq<RawRow>, us: seq<int>)
    requires |raw| == |us|
  {
    forall i :: 0 <= i < |raw| && Counted(raw[i]) ==> us[i] <= INT64_MAX
  }

  lemma ExactRow(r: RawRow, u: int)
    requires PriceUnits(r.price) == Some(u) && Short(r.price)
    ensures Stands(r.price, u) && Stands(ExactAmount(r), r.quantity * u)
  {
    hide Stands, Short, PriceUnits, ExactTimes;
    ShortPriceIsExact(r.price, u);
    StandsTimes(r.price, u, r.quantity);
    assert u * r.quantity == r.quantity * u;
  }

  lemma ShortRowIsExact(raw: seq<RawRow>, us: seq<int>, i: nat)
    requires Accepted(raw, us) && i < |raw|
    requires Counted(raw[i]) ==> Short(raw[i].price) && us[i] <= INT64_MAX
    ensures RowExact(raw[i], us[i])
  {
    if Counted(raw[i]) {
      var ps := Stored(us);
      StoredIff(us, i);
      assert ps[i] == Wrap(us[i]) == us[i];
      hide PriceUnits, Stands, Short, ExactTimes, Rounded, GuardsPass;
      ExactRow(raw[i], us[i]);
      StandsSign(raw[i].price, us[i]);
      EligibleRow(raw, ps, i);
      OneOfAll(Products(Quantities(raw), ps), i);
      GuardedWeight(raw, ps);
      SmallNumbers();
      SmallIsExact(ExactAmount(raw[i]), raw[i].quantity * us[i]);
    } else {
      UncountedIsExact(raw, us, i);
    }
  }

  lemma GuardedWeight(raw: seq<RawRow>, ps: seq<int>)
    requires Guarded(raw, ps)
    ensures AbsWhere(Products(Quantities(raw), ps), All(|raw|)) <= INT64_MAX
  {
  }

  /** On every accepted table whose counted prices have at most 28 significant digits and units
      below 2^63, the loop's sum is the column total and the reconciliation passes. */
  lemma ReconciliationPasses(raw: seq<RawRow>, us: seq<int>)
    requires Accepted(raw, us) && CountedShort(raw) && CountedFit(raw, us)
    ensures RowsExact(raw, us)
    ensures Stands(IndependentSum(raw), SumWhere(Amounts(raw, Stored(us)), Eligible(raw, Stored(us))))
    ensures Reconciles(raw, us)
  {
    forall i | 0 <= i < |raw| ensures RowExact(raw[i], us[i]) {
      ShortRowIsExact(raw, us, i);
    }
    RowsExactTotal(raw, us);
  }

  // ----- units that do not fit -----

  lemma {:induction false} LoopAtLeast(raw: seq<RawRow>, i: nat)
    requires i < |raw| && Counted(raw[i]) && Leq(LIMIT, raw[i].price)
    ensures Leq(LIMIT, IndependentSum(raw)) && IndependentSum(raw).c >= 0
    decreases |raw|
  {
    var n := |raw| - 1;
    hide Leq, Rounded, ExactPlus;
    LimitIsBound();
    LoopNotNegative(raw[..n]);
    if i < n {
      LoopAtLeast(raw[..n], i);
    }
    if Counted(raw[n]) {
      TermNotNegative(raw[n]);
      if i == n {
        TermAtLeast(raw[n]);
      }
      PlusAtLeast(IndependentSum(raw[..n]), Times(raw[n].price, Decimal(raw[n].quantity, 0)), LIMIT);
    }
  }

  lemma TermNotNegative(r: RawRow)
    requires Counted(r)
    ensures Times(r.price, Decimal(r.quantity, 0)).c >= 0
  {
    RoundedSign(ExactAmount(r));
    assert r.price.c * r.quantity >= 0;
  }

  lemma {:induction false} LoopNotNegative(raw: seq<RawRow>)
    ensures IndependentSum(raw).c >= 0
    decreases |raw|
  {
    if raw != [] {
      var n := |raw| - 1;
      LoopNotNegative(raw[..n]);
      if Counted(raw[n]) {
        var before, product := IndependentSum(raw[..n]), Times(raw[n].price, Decimal(raw[n].quantity, 0));
        hide Rounded, Times;
        TermNotNegative(raw[n]);
        PlusNotNegative(before, product);
      }
    }
  }

  lemma PlusNotNegative(a: Decimal, b: Decimal)
    requires a.c >= 0 && b.c >= 0
    ensures Plus(a, b).c >= 0
  {
    RoundedSign(ExactPlus(a, b));
  }

  lemma TermAtLeast(r: RawRow)
    requires Counted(r) && Leq(LIMIT, r.price)
    ensures Leq(LIMIT, Times(r.price, Decimal(r.quantity, 0)))
  {
    var exact, f := ExactAmount(r), Min(r.price.e, -5);
    LimitIsBound();
    LeqAt(LIMIT, r.price, f);
    LeqAt(LIMIT, exact, f);
    Reorder(r.price.c, r.quantity, Power10(r.price.e - f));
    FactorBelow(Lift(r.price, f), r.quantity);
    assert exact.c >= 0;
    hide Leq, Rounded;
    RoundedKeepsBounds(exact, LIMIT);
  }

  lemma Within(n: int)
    requires n <= INT64_MAX
    ensures !Leq(LIMIT, Decimal(n, -4))
  {
    LeqAt(LIMIT, Decimal(n, -4), -5);
    assert Power10(1) == 10 && Power10(0) == 1;
  }

  /** A counted row whose units do not fit makes every accepted table fail to reconcile. */
  lemma MisfitRaises(raw: seq<RawRow>, us: seq<int>)
    requires Accepted(raw, us) && !CountedFit(raw, us)
    ensures !Reconciles(raw, us)
  {
    var i :| 0 <= i < |raw| && Counted(raw[i]) && us[i] > INT64_MAX;
    var ps, total := Stored(us), SumWhere(Amounts(raw, Stored(us)), Eligible(raw, Stored(us)));
    assert PriceUnits(raw[i].price) == Some(us[i]);
    LargePrice(raw[i].price);
    hide PriceUnits, Leq, Same, GuardsPass, IndependentSum, ReadAmount, Amount;
    LoopAtLeast(raw, i);
    SelectionExact(raw, ps, Eligible(raw, ps));
    GuardedWeight(raw, ps);
    SumSplits(Amounts(raw, ps), Eligible(raw, ps));
    Within(total);
    if Same(IndependentSum(raw), Decimal(total, -4)) {
      SameIsLeq(IndependentSum(raw), Decimal(total, -4));
      LeqTransitive(LIMIT, IndependentSum(raw), Decimal(total, -4));
    }
  }

  /** With counted prices of at most 28 significant digits, an accepted table reconciles if and
      only if the units of all of them are below 2^63. */
  lemma ShortTableReconcilesIff(raw: seq<RawRow>, us: seq<int>)
    requires Accepted(raw, us) && CountedShort(raw)
    ensures Reconciles(raw, us) <==> CountedFit(raw, us)
  {
    assert |raw| == |us|;
    hide Reconciles, Accepted, CountedShort, CountedFit;
    if CountedFit(raw, us) {
      ReconciliationPasses(raw, us);
    } else {
      MisfitRaises(raw, us);
    }
  }
}
