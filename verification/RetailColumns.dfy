/**
 The column store of the offline oracle: int64 columns that wrap, two overflow guards, and sums
 over selected rows.
 */
module RetailColumns {
  import opened Decimals
  import opened FixedPoint

  // ----- sums over selected rows -----

  function SumWhere(xs: seq<int>, keep: seq<bool>): int
    requires |xs| == |keep|
  {
    if xs == [] then 0
    else SumWhere(xs[..|xs| - 1], keep[..|xs| - 1]) + if keep[|xs| - 1] then xs[|xs| - 1] else 0
  }

  function AbsWhere(xs: seq<int>, keep: seq<bool>): nat
    requires |xs| == |keep|
  {
    if xs == [] then 0
    else AbsWhere(xs[..|xs| - 1], keep[..|xs| - 1]) + if keep[|xs| - 1] then Abs(xs[|xs| - 1]) else 0
  }

  function All(n: nat): seq<bool> {
    seq(n, _ => true)
  }

  function Both(a: seq<bool>, b: seq<bool>): (c: seq<bool>)
    requires |a| == |b|
    ensures |c| == |a|
  {
    seq(|a|, i requires 0 <= i < |a| => a[i] && b[i])
  }

  function Not(a: seq<bool>): (c: seq<bool>)
    ensures |c| == |a|
  {
    seq(|a|, i requires 0 <= i < |a| => !a[i])
  }

  lemma {:induction false} SumSplits(xs: seq<int>, keep: seq<bool>)
    requires |xs| == |keep|
    ensures SumWhere(xs, keep) + SumWhere(xs, Not(keep)) == SumWhere(xs, All(|xs|))
    ensures AbsWhere(xs, keep) + AbsWhere(xs, Not(keep)) == AbsWhere(xs, All(|xs|))
    ensures Abs(SumWhere(xs, keep)) <= AbsWhere(xs, keep)
    decreases |xs|
  {
    if xs != [] {
      var n := |xs| - 1;
      SumSplits(xs[..n], keep[..n]);
      assert Not(keep)[..n] == Not(keep[..n]) && All(|xs|)[..n] == All(n);
    }
  }

  // ----- the order of evaluation -----

  // How an engine may add up rows: any order, any grouping, any subset.
  datatype Plan = Nothing | Row(i: nat) | Add(left: Plan, right: Plan)

  function Rows(p: Plan): set<nat> {
    match p
    case Nothing => {}
    case Row(i) => {i}
    case Add(l, r) => Rows(l) + Rows(r)
  }

  // Every row is added at most once.
  predicate Proper(p: Plan, n: nat) {
    match p
    case Nothing => true
    case Row(i) => i < n
    case Add(l, r) => Proper(l, n) && Proper(r, n) && Rows(l) !! Rows(r)
  }

  function Eval64(p: Plan, xs: seq<int>): int
    requires Proper(p, |xs|)
  {
    match p
    case Nothing => 0
    case Row(i) => xs[i]
    case Add(l, r) => Wrap(Eval64(l, xs) + Eval64(r, xs))
  }

  function Mask(s: set<nat>, n: nat): seq<bool> {
    seq(n, i requires 0 <= i < n => i in s)
  }

  lemma {:induction false} MaskUnion(xs: seq<int>, s: set<nat>, t: set<nat>)
    requires s !! t
    ensures SumWhere(xs, Mask(s + t, |xs|)) == SumWhere(xs, Mask(s, |xs|)) + SumWhere(xs, Mask(t, |xs|))
    ensures AbsWhere(xs, Mask(s + t, |xs|)) == AbsWhere(xs, Mask(s, |xs|)) + AbsWhere(xs, Mask(t, |xs|))
    decreases |xs|
  {
    if xs != [] {
      var n := |xs| - 1;
      MaskUnion(xs[..n], s, t);
      assert Mask(s + t, |xs|)[..n] == Mask(s + t, n);
      assert Mask(s, |xs|)[..n] == Mask(s, n) && Mask(t, |xs|)[..n] == Mask(t, n);
    }
  }

  lemma {:induction false} MaskOne(xs: seq<int>, i: nat)
    ensures SumWhere(xs, Mask({i}, |xs|)) == if i < |xs| then xs[i] else 0
    ensures AbsWhere(xs, Mask({i}, |xs|)) == if i < |xs| then Abs(xs[i]) else 0
    decreases |xs|
  {
    if xs != [] {
      var n := |xs| - 1;
      MaskOne(xs[..n], i);
      assert Mask({i}, |xs|)[..n] == Mask({i}, n);
    }
  }

  lemma {:induction false} MaskNone(xs: seq<int>)
    ensures SumWhere(xs, Mask({}, |xs|)) == 0 && AbsWhere(xs, Mask({}, |xs|)) == 0
    decreases |xs|
  {
    if xs != [] {
      var n := |xs| - 1;
      MaskNone(xs[..n]);
      assert Mask({}, |xs|)[..n] == Mask({}, n);
    }
  }

  lemma {:induction false} PlanWithin(p: Plan, xs: seq<int>, limit: nat)
    requires Proper(p, |xs|) && AbsWhere(xs, Mask(Rows(p), |xs|)) <= limit <= INT64_MAX
    ensures Eval64(p, xs) == SumWhere(xs, Mask(Rows(p), |xs|))
  {
    SumSplits(xs, Mask(Rows(p), |xs|));
    match p
    case Nothing => MaskNone(xs);
    case Row(i) => MaskOne(xs, i);
    case Add(l, r) =>
      MaskUnion(xs, Rows(l), Rows(r));
      PlanWithin(l, xs, limit);
      PlanWithin(r, xs, limit);
  }

  /** If the absolute values of a column add up to an int64, then no sum of any of its rows,
      in any order and any grouping, ever wraps. */
  lemma AnyOrderIsExact(p: Plan, xs: seq<int>)
    requires Proper(p, |xs|) && AbsWhere(xs, All(|xs|)) <= INT64_MAX
    ensures Eval64(p, xs) == SumWhere(xs, Mask(Rows(p), |xs|))
  {
    SumSplits(xs, Mask(Rows(p), |xs|));
    PlanWithin(p, xs, INT64_MAX);
  }

  // ----- the two guards -----

  function MaxAbs64(xs: seq<int>): (m: int)
    requires xs != []
    ensures forall i :: 0 <= i < |xs| ==> Abs64(xs[i]) <= m
  {
    if |xs| == 1 then Abs64(xs[0])
    else
      var m := MaxAbs64(xs[..|xs| - 1]);
      if Abs64(xs[|xs| - 1]) > m then Abs64(xs[|xs| - 1]) else m
  }

  // raw["Quantity"] * raw["PriceUnits"], as the column store multiplies.
  function Products(qs: seq<int>, ps: seq<int>): (a: seq<int>)
    requires |qs| == |ps|
    ensures |a| == |qs|
  {
    seq(|qs|, i requires 0 <= i < |qs| => Wrap(qs[i] * ps[i]))
  }

  predicate AllFit(xs: seq<int>) {
    forall i :: 0 <= i < |xs| ==> Fits(xs[i])
  }

  // Both overflow checks let the table through.
  predicate GuardsPass(qs: seq<int>, ps: seq<int>)
    requires |qs| == |ps| > 0
  {
    && MaxAbs64(qs) * MaxAbs64(ps) <= INT64_MAX
    && AbsWhere(Products(qs, ps), All(|qs|)) <= INT64_MAX
  }

  // The most negative int64 takes part in no product.
  predicate NoExtremeFactor(qs: seq<int>, ps: seq<int>)
    requires |qs| == |ps|
  {
    forall i :: 0 <= i < |qs| ==> (qs[i] == INT64_MIN ==> ps[i] == 0) && (ps[i] == INT64_MIN ==> qs[i] == 0)
  }

  lemma {:induction false} OneOfAll(xs: seq<int>, i: nat)
    requires i < |xs|
    ensures Abs(xs[i]) <= AbsWhere(xs, All(|xs|))
    decreases |xs|
  {
    var n := |xs| - 1;
    assert All(|xs|)[..n] == All(n);
    if i < n {
      OneOfAll(xs[..n], i);
    }
  }

  lemma ProductBound(q: int, p: int, mq: int, mp: int)
    requires Abs(q) <= mq && Abs(p) <= mp
    ensures Abs(q * p) <= mq * mp
  {
    assert Abs(q * p) == Abs(q) * Abs(p);
    assert Abs(q) * Abs(p) <= mq * Abs(p) <= mq * mp;
  }

  lemma ExtremeProduct(q: int, p: int)
    requires q == INT64_MIN && p != 0
    ensures Abs(q * p) > INT64_MAX
  {
    if p > 0 {
      assert q * p <= q;
    } else {
      assert q * p >= -q;
    }
  }

  lemma ProductExactIff(q: int, p: int, mq: int, mp: int)
    requires Fits(q) && Fits(p) && Abs64(q) <= mq && Abs64(p) <= mp
    requires mq * mp <= INT64_MAX && Abs(Wrap(q * p)) <= INT64_MAX
    ensures Wrap(q * p) == q * p <==> (q == INT64_MIN ==> p == 0) && (p == INT64_MIN ==> q == 0)
  {
    if q == INT64_MIN && p != 0 {
      ExtremeProduct(q, p);
    } else if p == INT64_MIN && q != 0 {
      ExtremeProduct(p, q);
      assert p * q == q * p;
    } else if q == 0 || p == 0 {
      assert q * p == 0;
    } else {
      assert Abs64(q) == Abs(q) && Abs64(p) == Abs(p);
      ProductBound(q, p, mq, mp);
    }
  }

  lemma OneProductExactIff(qs: seq<int>, ps: seq<int>, i: nat)
    requires |qs| == |ps| && i < |qs| && AllFit(qs) && AllFit(ps) && GuardsPass(qs, ps)
    ensures Products(qs, ps)[i] == qs[i] * ps[i] <==>
              (qs[i] == INT64_MIN ==> ps[i] == 0) && (ps[i] == INT64_MIN ==> qs[i] == 0)
  {
    OneOfAll(Products(qs, ps), i);
    assert Products(qs, ps)[i] == Wrap(qs[i] * ps[i]);
    hide Wrap, Abs64;
    ProductExactIff(qs[i], ps[i], MaxAbs64(qs), MaxAbs64(ps));
  }

  /** On a table the guards accept, every amount is the true product exactly when the most
      negative int64 is multiplied by nothing but zero: its absolute value wraps, so the first
      guard does not see it. */
  lemma AmountsExactIff(qs: seq<int>, ps: seq<int>)
    requires |qs| == |ps| > 0 && AllFit(qs) && AllFit(ps) && GuardsPass(qs, ps)
    ensures (forall i :: 0 <= i < |qs| ==> Products(qs, ps)[i] == qs[i] * ps[i]) <==> NoExtremeFactor(qs, ps)
  {
    forall i | 0 <= i < |qs|
      ensures Products(qs, ps)[i] == qs[i] * ps[i] <==>
                (qs[i] == INT64_MIN ==> ps[i] == 0) && (ps[i] == INT64_MIN ==> qs[i] == 0)
    {
      OneProductExactIff(qs, ps, i);
    }
  }

  /** One row of quantity -2^63 and two price units passes both guards with amount 0. */
  lemma ExtremeQuantitySlipsThrough()
    ensures GuardsPass([INT64_MIN], [2]) && Products([INT64_MIN], [2]) == [0]
  {
    var a := Products([INT64_MIN], [2]);
    assert a == [0];
    assert AbsWhere(a, All(1)) == 0 by {
      assert a[..0] == [] && All(1)[..0] == [];
    }
  }

  // ----- the eligible rows -----

  datatype RawRow = RawRow(invoice: string, quantity: int, price: Decimal, month: string, country: string)

  // invoice.upper().startswith("C")
  predicate Cancelled(invoice: string) {
    |invoice| > 0 && (invoice[0] == 'C' || invoice[0] == 'c')
  }

  function Quantities(raw: seq<RawRow>): (qs: seq<int>)
    ensures |qs| == |raw|
  {
    seq(|raw|, i requires 0 <= i < |raw| => raw[i].quantity)
  }

  function Eligible(raw: seq<RawRow>, ps: seq<int>): (keep: seq<bool>)
    requires |raw| == |ps|
    ensures |keep| == |raw|
  {
    seq(|raw|, i requires 0 <= i < |raw| => !Cancelled(raw[i].invoice) && raw[i].quantity > 0 && ps[i] > 0)
  }

  lemma {:induction false} WeightsBelow(xs: seq<int>, ys: seq<int>, keep: seq<bool>)
    requires |xs| == |ys| == |keep|
    requires forall i :: 0 <= i < |xs| && keep[i] ==> Abs(xs[i]) <= Abs(ys[i])
    ensures AbsWhere(xs, keep) <= AbsWhere(ys, All(|ys|))
    decreases |xs|
  {
    if xs != [] {
      var n := |xs| - 1;
      WeightsBelow(xs[..n], ys[..n], keep[..n]);
      assert All(|ys|)[..n] == All(n);
    }
  }

  lemma AtLeastOneUnit(q: int, p: int)
    requires q > 0 && p > 0
    ensures Abs(q) <= Abs(q * p)
  {
    assert q * p >= q * 1;
  }

  // Eligible rows have at least one unit of price, so their quantity is within their amount.
  lemma EligibleRow(raw: seq<RawRow>, ps: seq<int>, i: nat)
    requires |raw| == |ps| && i < |raw| && AllFit(Quantities(raw)) && AllFit(ps) && GuardsPass(Quantities(raw), ps)
    requires Eligible(raw, ps)[i]
    ensures Products(Quantities(raw), ps)[i] == raw[i].quantity * ps[i]
    ensures Abs(raw[i].quantity) <= Abs(Products(Quantities(raw), ps)[i])
  {
    OneProductExactIff(Quantities(raw), ps, i);
    AtLeastOneUnit(raw[i].quantity, ps[i]);
  }

  // The rows of a selection, in the order a plan adds them, among the eligible ones.
  predicate PlansEligible(p: Plan, raw: seq<RawRow>, ps: seq<int>)
    requires |raw| == |ps|
  {
    Proper(p, |raw|) && forall i :: i in Rows(p) ==> i < |raw| && Eligible(raw, ps)[i]
  }

  /** The two guards suffice for every later sum of amounts over any rows, and for every sum
      of quantities over eligible rows, which nothing checks by itself. */
  lemma GuardsSuffice(raw: seq<RawRow>, ps: seq<int>, p: Plan)
    requires |raw| == |ps| > 0 && AllFit(Quantities(raw)) && AllFit(ps) && GuardsPass(Quantities(raw), ps)
    requires Proper(p, |raw|)
    ensures var amounts := Products(Quantities(raw), ps);
            Eval64(p, amounts) == SumWhere(amounts, Mask(Rows(p), |amounts|))
    ensures PlansEligible(p, raw, ps) ==>
              Eval64(p, Quantities(raw)) == SumWhere(Quantities(raw), Mask(Rows(p), |raw|))
  {
    var qs, amounts := Quantities(raw), Products(Quantities(raw), ps);
    AnyOrderIsExact(p, amounts);
    if PlansEligible(p, raw, ps) {
      forall i | 0 <= i < |raw| && Mask(Rows(p), |raw|)[i] ensures Abs(qs[i]) <= Abs(amounts[i]) {
        EligibleRow(raw, ps, i);
      }
      WeightsBelow(qs, amounts, Mask(Rows(p), |raw|));
      PlanWithin(p, qs, INT64_MAX);
    }
  }

  // ----- int64 sums of a guarded table -----

  // frame[column].sum() over an int64 column.
  function Sum64(xs: seq<int>, keep: seq<bool>): int
    requires |xs| == |keep|
  {
    if xs == [] then 0
    else
      var before := Sum64(xs[..|xs| - 1], keep[..|xs| - 1]);
      if keep[|xs| - 1] then Wrap(before + xs[|xs| - 1]) else before
  }

  lemma {:induction false} Sum64Exact(xs: seq<int>, keep: seq<bool>)
    requires |xs| == |keep| && AbsWhere(xs, keep) <= INT64_MAX
    ensures Sum64(xs, keep) == SumWhere(xs, keep)
    decreases |xs|
  {
    SumSplits(xs, keep);
    if xs != [] {
      Sum64Exact(xs[..|xs| - 1], keep[..|xs| - 1]);
    }
  }

  // A table whose columns both guards let through.
  predicate Guarded(raw: seq<RawRow>, ps: seq<int>) {
    && |raw| == |ps| > 0 && AllFit(Quantities(raw)) && AllFit(ps)
    && GuardsPass(Quantities(raw), ps)
  }

  function Amounts(raw: seq<RawRow>, ps: seq<int>): (amounts: seq<int>)
    requires |raw| == |ps|
    ensures |amounts| == |raw|
  {
    Products(Quantities(raw), ps)
  }

  // The total sales that the profile prints.
  function PrintedTotal(raw: seq<RawRow>, ps: seq<int>): string
    requires |raw| == |ps|
  {
    Amount(Sum64(Amounts(raw, ps), Eligible(raw, ps)))
  }

  /** Over any selected rows of a guarded table the int64 sum of amounts is exact, and so is its text. */
  lemma SelectionExact(raw: seq<RawRow>, ps: seq<int>, keep: seq<bool>)
    requires Guarded(raw, ps) && |keep| == |raw|
    ensures Sum64(Amounts(raw, ps), keep) == SumWhere(Amounts(raw, ps), keep)
    ensures ReadAmount(Amount(Sum64(Amounts(raw, ps), keep))) == Decimal(SumWhere(Amounts(raw, ps), keep), -4)
  {
    var amounts := Amounts(raw, ps);
    SumSplits(amounts, keep);
    hide Amount, ReadAmount;
    Sum64Exact(amounts, keep);
    AmountRoundTrip(Sum64(amounts, keep));
  }

  lemma QuantitiesExact(raw: seq<RawRow>, ps: seq<int>)
    requires Guarded(raw, ps)
    ensures Sum64(Quantities(raw), Eligible(raw, ps)) == SumWhere(Quantities(raw), Eligible(raw, ps))
  {
    var qs, amounts, keep := Quantities(raw), Amounts(raw, ps), Eligible(raw, ps);
    forall i | 0 <= i < |raw| && keep[i] ensures Abs(qs[i]) <= Abs(amounts[i]) {
      EligibleRow(raw, ps, i);
    }
    WeightsBelow(qs, amounts, keep);
    Sum64Exact(qs, keep);
  }
}
