/**
 Grouped and member-set figures of the offline oracle.
 */
module RetailGroups {
  import opened Decimals
  import opened FixedPoint
  import opened Reconciliation
  import opened RetailColumns
  import opened RetailProfile

  // ----- groups and member sets -----

  function Where(keys: seq<string>, key: string): (keep: seq<bool>)
    ensures |keep| == |keys|
  {
    seq(|keys|, i requires 0 <= i < |keys| => keys[i] == key)
  }

  function WhereIn(keys: seq<string>, members: seq<string>): (keep: seq<bool>)
    ensures |keep| == |keys|
  {
    seq(|keys|, i requires 0 <= i < |keys| => keys[i] in members)
  }

  predicate NoDuplicates(ks: seq<string>) {
    forall i, j :: 0 <= i < j < |ks| ==> ks[i] != ks[j]
  }

  // The sum of the group totals of the given groups.
  function SumOfGroups(xs: seq<int>, keep: seq<bool>, keys: seq<string>, ks: seq<string>): int
    requires |xs| == |keep| == |keys|
  {
    if ks == [] then 0
    else SumWhere(xs, Both(keep, Where(keys, ks[0]))) + SumOfGroups(xs, keep, keys, ks[1..])
  }

  lemma {:induction false} DisjointMasks(xs: seq<int>, a: seq<bool>, b: seq<bool>, c: seq<bool>)
    requires |xs| == |a| == |b| == |c|
    requires forall i :: 0 <= i < |xs| ==> !(a[i] && b[i]) && c[i] == (a[i] || b[i])
    ensures SumWhere(xs, c) == SumWhere(xs, a) + SumWhere(xs, b)
    decreases |xs|
  {
    if xs != [] {
      var n := |xs| - 1;
      DisjointMasks(xs[..n], a[..n], b[..n], c[..n]);
    }
  }

  lemma {:induction false} NothingSelected(xs: seq<int>, keep: seq<bool>)
    requires |xs| == |keep| && forall i :: 0 <= i < |xs| ==> !keep[i]
    ensures SumWhere(xs, keep) == 0
    decreases |xs|
  {
    if xs != [] {
      NothingSelected(xs[..|xs| - 1], keep[..|xs| - 1]);
    }
  }

  /** The totals of any distinct groups add up to the total over their members: over all the
      keys that occur this is the grand total, and over a member set it is that set's own. */
  lemma {:induction false} GroupsConserve(xs: seq<int>, keep: seq<bool>, keys: seq<string>, ks: seq<string>)
    requires |xs| == |keep| == |keys| && NoDuplicates(ks)
    ensures SumOfGroups(xs, keep, keys, ks) == SumWhere(xs, Both(keep, WhereIn(keys, ks)))
    ensures (forall i :: 0 <= i < |keys| ==> keys[i] in ks) ==> SumOfGroups(xs, keep, keys, ks) == SumWhere(xs, keep)
    decreases |ks|
  {
    if ks == [] {
      NothingSelected(xs, Both(keep, WhereIn(keys, ks)));
    } else {
      GroupsConserve(xs, keep, keys, ks[1..]);
      assert ks[0] !in ks[1..];
      DisjointMasks(xs, Both(keep, Where(keys, ks[0])), Both(keep, WhereIn(keys, ks[1..])),
                    Both(keep, WhereIn(keys, ks)));
    }
    if forall i :: 0 <= i < |keys| ==> keys[i] in ks {
      assert Both(keep, WhereIn(keys, ks)) == keep;
    }
  }

  // The distinct invoices of the selected rows.
  function Orders(invoices: seq<string>, keep: seq<bool>): set<string>
    requires |invoices| == |keep|
  {
    set i | 0 <= i < |invoices| && keep[i] :: invoices[i]
  }

  function SumOfOrders(invoices: seq<string>, keep: seq<bool>, keys: seq<string>, ks: seq<string>): nat
    requires |invoices| == |keep| == |keys|
  {
    if ks == [] then 0
    else |Orders(invoices, Both(keep, Where(keys, ks[0])))| + SumOfOrders(invoices, keep, keys, ks[1..])
  }

  // No invoice has selected rows in two of the groups.
  predicate OrdersApart(invoices: seq<string>, keep: seq<bool>, keys: seq<string>, ks: seq<string>)
    requires |invoices| == |keep| == |keys|
  {
    forall a, b :: 0 <= a < b < |ks| ==>
      Orders(invoices, Both(keep, Where(keys, ks[a]))) !! Orders(invoices, Both(keep, Where(keys, ks[b])))
  }

  lemma UnionSize(a: set<string>, b: set<string>)
    ensures |a + b| <= |a| + |b|
    ensures |a + b| == |a| + |b| <==> a !! b
  {
    assert a + b == a + (b - a) && |a + (b - a)| == |a| + |b - a|;
    assert b == (b - a) + (a * b) && |b| == |b - a| + |a * b|;
    if |a * b| == 0 {
      assert a * b == {};
    }
  }

  lemma OrdersOfUnion(invoices: seq<string>, keep: seq<bool>, keys: seq<string>, ks: seq<string>)
    requires |invoices| == |keep| == |keys| && ks != []
    ensures Orders(invoices, Both(keep, WhereIn(keys, ks))) ==
              Orders(invoices, Both(keep, Where(keys, ks[0]))) + Orders(invoices, Both(keep, WhereIn(keys, ks[1..])))
  {
    assert forall k :: k in ks <==> k == ks[0] || k in ks[1..];
  }

  lemma {:induction false} OrdersReach(
      invoices: seq<string>, keep: seq<bool>, keys: seq<string>, ks: seq<string>, o: string)
    requires |invoices| == |keep| == |keys|
    ensures o in Orders(invoices, Both(keep, WhereIn(keys, ks))) <==>
              exists b :: 0 <= b < |ks| && o in Orders(invoices, Both(keep, Where(keys, ks[b])))
  {
    if o in Orders(invoices, Both(keep, WhereIn(keys, ks))) {
      var i :| 0 <= i < |invoices| && Both(keep, WhereIn(keys, ks))[i] && invoices[i] == o;
      var b :| 0 <= b < |ks| && ks[b] == keys[i];
      assert Both(keep, Where(keys, ks[b]))[i];
    }
    if b :| 0 <= b < |ks| && o in Orders(invoices, Both(keep, Where(keys, ks[b]))) {
      var i :| 0 <= i < |invoices| && Both(keep, Where(keys, ks[b]))[i] && invoices[i] == o;
      assert Both(keep, WhereIn(keys, ks))[i];
    }
  }

  /** Order counts of groups add up to at least the count over their union, and to exactly
      that count when, and only when, no order lies in two of the groups. */
  lemma {:induction false} OrderCountsSubadditive(
      invoices: seq<string>, keep: seq<bool>, keys: seq<string>, ks: seq<string>)
    requires |invoices| == |keep| == |keys|
    ensures |Orders(invoices, Both(keep, WhereIn(keys, ks)))| <= SumOfOrders(invoices, keep, keys, ks)
    ensures |Orders(invoices, Both(keep, WhereIn(keys, ks)))| == SumOfOrders(invoices, keep, keys, ks) <==>
              OrdersApart(invoices, keep, keys, ks)
    decreases |ks|
  {
    if ks == [] {
      assert Orders(invoices, Both(keep, WhereIn(keys, ks))) == {};
    } else {
      OrderCountsSubadditive(invoices, keep, keys, ks[1..]);
      OrdersOfUnion(invoices, keep, keys, ks);
      var first := Orders(invoices, Both(keep, Where(keys, ks[0])));
      var rest := Orders(invoices, Both(keep, WhereIn(keys, ks[1..])));
      UnionSize(first, rest);
      ApartCons(invoices, keep, keys, ks);
    }
  }

  lemma ApartCons(invoices: seq<string>, keep: seq<bool>, keys: seq<string>, ks: seq<string>)
    requires |invoices| == |keep| == |keys| && ks != []
    ensures OrdersApart(invoices, keep, keys, ks) <==>
              OrdersApart(invoices, keep, keys, ks[1..])
              && Orders(invoices, Both(keep, Where(keys, ks[0]))) !!
                   Orders(invoices, Both(keep, WhereIn(keys, ks[1..])))
  {
    var first := Orders(invoices, Both(keep, Where(keys, ks[0])));
    forall o: string {
      OrdersReach(invoices, keep, keys, ks[1..], o);
    }
    if OrdersApart(invoices, keep, keys, ks) {
      forall a, b | 0 <= a < b < |ks[1..]|
        ensures Orders(invoices, Both(keep, Where(keys, ks[1..][a]))) !!
                  Orders(invoices, Both(keep, Where(keys, ks[1..][b])))
      {
        assert ks[1..][a] == ks[a + 1] && ks[1..][b] == ks[b + 1];
      }
      forall o | o in first ensures o !in Orders(invoices, Both(keep, WhereIn(keys, ks[1..]))) {
        forall b | 0 <= b < |ks[1..]| ensures o !in Orders(invoices, Both(keep, Where(keys, ks[1..][b]))) {
          assert ks[1..][b] == ks[b + 1];
        }
      }
    }
    if && OrdersApart(invoices, keep, keys, ks[1..])
       && first !! Orders(invoices, Both(keep, WhereIn(keys, ks[1..]))) {
      forall a, b | 0 <= a < b < |ks|
        ensures Orders(invoices, Both(keep, Where(keys, ks[a]))) !! Orders(invoices, Both(keep, Where(keys, ks[b])))
      {
        assert ks[b] == ks[1..][b - 1];
        if a > 0 {
          assert ks[a] == ks[1..][a - 1];
        }
      }
    }
  }

  // ----- printed groups -----

  // The printed totals of the eligible rows of each group.
  function GroupTexts(amounts: seq<int>, keep: seq<bool>, keys: seq<string>, ks: seq<string>): seq<string>
    requires |amounts| == |keep| == |keys|
  {
    seq(|ks|, j requires 0 <= j < |ks| => Amount(Sum64(amounts, Both(keep, Where(keys, ks[j])))))
  }

  // The texts read back and added up, in ten-thousandths.
  function TextsTotal(texts: seq<string>): int {
    if texts == [] then 0 else ReadAmount(texts[0]).c + TextsTotal(texts[1..])
  }

  lemma {:induction false} GroupTextsTotal(raw: seq<RawRow>, ps: seq<int>, keys: seq<string>, ks: seq<string>)
    requires Guarded(raw, ps) && |keys| == |raw|
    ensures var amounts, keep := Amounts(raw, ps), Eligible(raw, ps);
            TextsTotal(GroupTexts(amounts, keep, keys, ks)) == SumOfGroups(amounts, keep, keys, ks)
    decreases |ks|
  {
    var amounts, keep := Amounts(raw, ps), Eligible(raw, ps);
    hide Amount, ReadAmount, Sum64, SumWhere, Amounts, Guarded;
    if ks != [] {
      GroupTextsTotal(raw, ps, keys, ks[1..]);
      SelectionExact(raw, ps, Both(keep, Where(keys, ks[0])));
      assert GroupTexts(amounts, keep, keys, ks)[1..] == GroupTexts(amounts, keep, keys, ks[1..]);
    }
  }

  /** The printed totals of distinct countries or months add up to the printed total of their
      member set, and to the printed total sales when every eligible row lies in one of them. */
  lemma PrintedGroupsConserve(raw: seq<RawRow>, ps: seq<int>, keys: seq<string>, ks: seq<string>)
    requires Guarded(raw, ps) && |keys| == |raw| && NoDuplicates(ks)
    ensures var amounts, keep := Amounts(raw, ps), Eligible(raw, ps);
            var groups := TextsTotal(GroupTexts(amounts, keep, keys, ks));
            && ReadAmount(Amount(Sum64(amounts, Both(keep, WhereIn(keys, ks))))) == Decimal(groups, -4)
            && ((forall i :: 0 <= i < |raw| && keep[i] ==> keys[i] in ks)
                ==> ReadAmount(PrintedTotal(raw, ps)) == Decimal(groups, -4))
  {
    var amounts, keep := Amounts(raw, ps), Eligible(raw, ps);
    var members := Both(keep, WhereIn(keys, ks));
    GroupTextsTotal(raw, ps, keys, ks);
    GroupsConserve(amounts, keep, keys, ks);
    SelectionExact(raw, ps, members);
    if forall i :: 0 <= i < |raw| && keep[i] ==> keys[i] in ks {
      assert members == keep;
    }
  }

  function Countries(raw: seq<RawRow>): (keys: seq<string>)
    ensures |keys| == |raw|
  {
    seq(|raw|, i requires 0 <= i < |raw| => raw[i].country)
  }

  function Months(raw: seq<RawRow>): (keys: seq<string>)
    ensures |keys| == |raw|
  {
    seq(|raw|, i requires 0 <= i < |raw| => raw[i].month)
  }

  // The keys that occur among the selected rows, each once, in order of appearance.
  method GroupKeys(keys: seq<string>, keep: seq<bool>) returns (ks: seq<string>)
    requires |keys| == |keep|
    ensures NoDuplicates(ks)
    ensures forall k :: k in ks <==> exists i :: 0 <= i < |keys| && keep[i] && keys[i] == k
  {
    ks := [];
    for n := 0 to |keys|
      invariant NoDuplicates(ks)
      invariant forall k :: k in ks <==> exists i :: 0 <= i < n && keep[i] && keys[i] == k
    {
      if keep[n] && keys[n] !in ks {
        ks := ks + [keys[n]];
      }
    }
  }

  // The eligible rows of one country, and those of one month.
  function OfCountry(raw: seq<RawRow>, us: seq<int>, country: string): (keep: seq<bool>)
    requires |raw| == |us|
    ensures |keep| == |raw|
  {
    seq(|raw|, i requires 0 <= i < |raw| => Eligible(raw, Stored(us))[i] && raw[i].country == country)
  }

  function OfMonth(raw: seq<RawRow>, us: seq<int>, month: string): (keep: seq<bool>)
    requires |raw| == |us|
    ensures |keep| == |raw|
  {
    seq(|raw|, i requires 0 <= i < |raw| => Eligible(raw, Stored(us))[i] && raw[i].month == month)
  }

  lemma GroupTells(raw: seq<RawRow>, us: seq<int>, keep: seq<bool>)
    requires Accepted(raw, us) && |keep| == |raw|
    requires forall i :: 0 <= i < |raw| && keep[i] ==> Eligible(raw, Stored(us))[i]
    ensures Tells(raw, keep, Amount(Sum64(Amounts(raw, Stored(us)), keep)))
  {
    forall i | 0 <= i < |raw| && keep[i]
      ensures us[i] <= INT64_MAX && Amounts(raw, Stored(us))[i] == raw[i].quantity * us[i]
    {
      EligibleFits(raw, us, i);
    }
    SelectionTells(raw, us, keep);
  }

  // The eligible rows with one key.
  function OfGroup(raw: seq<RawRow>, us: seq<int>, keys: seq<string>, key: string): (keep: seq<bool>)
    requires |raw| == |us| == |keys|
    ensures |keep| == |raw|
  {
    Both(Eligible(raw, Stored(us)), Where(keys, key))
  }

  // groups(frame, field): each key that occurs, once, beside the total of its rows.
  ghost predicate Grouped(raw: seq<RawRow>, us: seq<int>, keys: seq<string>, ks: seq<string>, texts: seq<string>)
    requires |raw| == |us| == |keys|
  {
    && |texts| == |ks| && NoDuplicates(ks)
    && (forall k :: k in ks <==> exists i :: 0 <= i < |raw| && OfGroup(raw, us, keys, k)[i])
    && (forall j :: 0 <= j < |ks| ==> Tells(raw, OfGroup(raw, us, keys, ks[j]), texts[j]))
    && ReadAmount(PrintedTotal(raw, Stored(us))) == Decimal(TextsTotal(texts), -4)
  }

  lemma GroupOccurs(raw: seq<RawRow>, us: seq<int>, keys: seq<string>, k: string)
    requires |raw| == |us| == |keys|
    ensures (exists i :: 0 <= i < |raw| && OfGroup(raw, us, keys, k)[i]) <==>
              exists i :: 0 <= i < |keys| && Eligible(raw, Stored(us))[i] && keys[i] == k
  {
    hide Eligible, Stored;
    if i :| 0 <= i < |keys| && Eligible(raw, Stored(us))[i] && keys[i] == k {
      assert OfGroup(raw, us, keys, k)[i];
    }
  }

  lemma GroupTextTells(raw: seq<RawRow>, us: seq<int>, keys: seq<string>, ks: seq<string>, j: nat)
    requires Accepted(raw, us) && |keys| == |raw| && j < |ks|
    ensures Tells(raw, OfGroup(raw, us, keys, ks[j]),
                  GroupTexts(Amounts(raw, Stored(us)), Eligible(raw, Stored(us)), keys, ks)[j])
  {
    assert |us| == |raw|;
    hide Accepted, Eligible, Amounts, Tells, Amount, Sum64;
    GroupTells(raw, us, OfGroup(raw, us, keys, ks[j]));
  }

  lemma GroupsAreGrouped(raw: seq<RawRow>, us: seq<int>, keys: seq<string>, ks: seq<string>)
    requires Accepted(raw, us) && |keys| == |raw| && NoDuplicates(ks)
    requires forall k :: k in ks <==> exists i :: 0 <= i < |keys| && Eligible(raw, Stored(us))[i] && keys[i] == k
    ensures Grouped(raw, us, keys, ks, GroupTexts(Amounts(raw, Stored(us)), Eligible(raw, Stored(us)), keys, ks))
  {
    PrintedGroupsConserve(raw, Stored(us), keys, ks);
    hide Accepted, Eligible, Amounts, Tells, ReadAmount, PrintedTotal, OfGroup, TextsTotal, NoDuplicates;
    forall k ensures (exists i :: 0 <= i < |raw| && OfGroup(raw, us, keys, k)[i]) <==> k in ks {
      GroupOccurs(raw, us, keys, k);
    }
    forall j | 0 <= j < |ks|
      ensures Tells(raw, OfGroup(raw, us, keys, ks[j]),
                    GroupTexts(Amounts(raw, Stored(us)), Eligible(raw, Stored(us)), keys, ks)[j])
    {
      GroupTextTells(raw, us, keys, ks, j);
    }
  }

  method GroupBy(raw: seq<RawRow>, us: seq<int>, keys: seq<string>) returns (ks: seq<string>, texts: seq<string>)
    requires Accepted(raw, us) && |keys| == |raw|
    ensures Grouped(raw, us, keys, ks, texts)
  {
    var amounts, keep := Amounts(raw, Stored(us)), Eligible(raw, Stored(us));
    ks := GroupKeys(keys, keep);
    texts := GroupTexts(amounts, keep, keys, ks);
    hide *;
    GroupsAreGrouped(raw, us, keys, ks);
  }

  lemma GroupsByField(raw: seq<RawRow>, us: seq<int>, k: string)
    requires |raw| == |us|
    ensures OfGroup(raw, us, Countries(raw), k) == OfCountry(raw, us, k)
    ensures OfGroup(raw, us, Months(raw), k) == OfMonth(raw, us, k)
  {
  }

  /** The countries and the months of the eligible rows of an accepted table, each once; beside
      each its own total, which for short prices is the true sum over its own rows; and the
      totals of either kind add up to the printed total sales. */
  method GroupBoth(raw: seq<RawRow>, us: seq<int>)
    returns (countries: seq<string>, byCountry: seq<string>, months: seq<string>, byMonth: seq<string>)
    requires Accepted(raw, us)
    ensures |byCountry| == |countries| && |byMonth| == |months|
    ensures NoDuplicates(countries) && NoDuplicates(months)
    ensures forall k :: k in countries <==> exists i :: 0 <= i < |raw| && OfCountry(raw, us, k)[i]
    ensures forall k :: k in months <==> exists i :: 0 <= i < |raw| && OfMonth(raw, us, k)[i]
    ensures forall j :: 0 <= j < |countries| ==> Tells(raw, OfCountry(raw, us, countries[j]), byCountry[j])
    ensures forall j :: 0 <= j < |months| ==> Tells(raw, OfMonth(raw, us, months[j]), byMonth[j])
    ensures ReadAmount(PrintedTotal(raw, Stored(us))) == Decimal(TextsTotal(byCountry), -4)
    ensures ReadAmount(PrintedTotal(raw, Stored(us))) == Decimal(TextsTotal(byMonth), -4)
  {
    countries, byCountry := GroupBy(raw, us, Countries(raw));
    months, byMonth := GroupBy(raw, us, Months(raw));
    forall k
      ensures OfGroup(raw, us, Countries(raw), k) == OfCountry(raw, us, k)
      ensures OfGroup(raw, us, Months(raw), k) == OfMonth(raw, us, k)
    {
      GroupsByField(raw, us, k);
    }
    hide OfGroup, OfCountry, OfMonth, Tells, ReadAmount, PrintedTotal, TextsTotal, NoDuplicates, Countries, Months;
  }
}
