/**
 Natural numbers in decimal notation.
 */
module Numerals {

  function Power10(e: nat): (p: nat)
    ensures p > 0
  {
    if e == 0 then 1 else 10 * Power10(e - 1)
  }

  lemma {:induction false} PowerAdds(d: nat, e: nat)
    ensures Power10(d + e) == Power10(d) * Power10(e)
  {
    if d > 0 {
      PowerAdds(d - 1, e);
    }
  }

  // How many digits n has; none for 0.
  function Length(n: nat): nat {
    if n == 0 then 0 else 1 + Length(n / 10)
  }

  // How many zeros n > 0 ends in.
  function Zeros(n: nat): nat {
    if n == 0 || n % 10 != 0 then 0 else 1 + Zeros(n / 10)
  }

  // The digits of n from its first to its last non-zero one.
  function Significant(n: nat): int {
    Length(n) - Zeros(n)
  }

  lemma {:induction false} LengthWithin(n: nat)
    ensures n < Power10(Length(n)) && (n > 0 ==> Power10(Length(n) - 1) <= n)
  {
    if n > 0 {
      LengthWithin(n / 10);
    }
  }

  lemma {:induction false} PowerGrows(d: nat, e: nat)
    requires d <= e
    ensures Power10(d) <= Power10(e)
  {
    if d < e {
      PowerGrows(d, e - 1);
    }
  }

  lemma LengthAtMost(n: nat, k: nat)
    ensures n < Power10(k) <==> Length(n) <= k
  {
    LengthWithin(n);
    if Length(n) <= k {
      PowerGrows(Length(n), k);
    } else {
      PowerGrows(k, Length(n) - 1);
    }
  }

  lemma {:induction false} ShiftedNumber(n: nat, k: nat)
    requires n > 0
    ensures n * Power10(k) > 0
    ensures Length(n * Power10(k)) == Length(n) + k && Zeros(n * Power10(k)) == Zeros(n) + k
  {
    if k > 0 {
      ShiftedNumber(n, k - 1);
      var m := n * Power10(k - 1);
      assert n * Power10(k) == 10 * m;
      assert (10 * m) / 10 == m && (10 * m) % 10 == 0;
    }
  }

  lemma QuotientsOrder(p: nat, q: int, r: nat, q': int, r': nat)
    requires q < q' && r < p
    ensures q * p + r < q' * p + r'
  {
    var d: nat := q' - q - 1;
    assert q' * p == d * p + p + q * p;
    assert d * p >= 0;
  }

  lemma SameQuotient(p: nat, q: int, r: nat, q': int, r': nat)
    requires q * p + r == q' * p + r' && r < p && r' < p
    ensures q == q' && r == r'
  {
    if q > q' {
      QuotientsOrder(p, q', r', q, r);
    } else if q < q' {
      QuotientsOrder(p, q, r, q', r');
    }
  }

  lemma DivisionIs(n: int, p: nat, q: int, r: int)
    requires p > 0 && n == q * p + r && 0 <= r < p
    ensures n / p == q && n % p == r
  {
    SameQuotient(p, q, r, n / p, n % p);
  }

  lemma MultipleOf(q: int, p: nat)
    requires p > 0
    ensures (q * p) % p == 0 && (q * p) / p == q
  {
    DivisionIs(q * p, p, q, 0);
  }

  lemma ZerosDivideDown(n: nat, k: nat)
    requires n > 0 && k > 0
    ensures n % Power10(k) == 0 <==> n % 10 == 0 && (n / 10) % Power10(k - 1) == 0
  {
    var p := Power10(k - 1);
    if n % (10 * p) == 0 {
      var q := n / (10 * p);
      assert n == q * (10 * p) == 10 * (q * p);
      assert n / 10 == q * p;
      MultipleOf(q, p);
    }
    if n % 10 == 0 && (n / 10) % p == 0 {
      var q := n / 10 / p;
      assert n == 10 * (q * p) == q * (10 * p);
      MultipleOf(q, 10 * p);
    }
  }

  /** A power of ten divides a number exactly when the number ends in that many zeros. */
  lemma {:induction false} ZerosDivide(n: nat, k: nat)
    requires n > 0
    ensures n % Power10(k) == 0 <==> k <= Zeros(n)
    decreases k
  {
    if k > 0 {
      ZerosDivideDown(n, k);
      if n % 10 == 0 {
        ZerosDivide(n / 10, k - 1);
      }
    }
  }

  // ----- digits as text -----

  function DigitChar(d: nat): char
    requires d < 10
  {
    '0' + d as char
  }

  function DigitValue(c: char): nat {
    if '0' <= c <= '9' then (c - '0') as nat else 0
  }

  function Digits(n: nat): (s: string)
    ensures |s| > 0
  {
    if n < 10 then [DigitChar(n)] else Digits(n / 10) + [DigitChar(n % 10)]
  }

  // The last `width` decimal digits of n, zeros included.
  function Padded(n: nat, width: nat): (s: string)
    ensures |s| == width
  {
    if width == 0 then "" else Padded(n / 10, width - 1) + [DigitChar(n % 10)]
  }

  function ReadNat(s: string): nat {
    if s == "" then 0 else 10 * ReadNat(s[..|s| - 1]) + DigitValue(s[|s| - 1])
  }

  lemma DigitRoundTrip(d: nat)
    requires d < 10
    ensures '0' <= DigitChar(d) <= '9' && DigitValue(DigitChar(d)) == d
  {
  }

  lemma {:induction false} DigitsRead(n: nat)
    ensures ReadNat(Digits(n)) == n && '0' <= Digits(n)[0] <= '9'
  {
    var s := Digits(n);
    DigitRoundTrip(n % 10);
    if n < 10 {
      assert s[..|s| - 1] == "";
    } else {
      DigitsRead(n / 10);
      assert s[..|s| - 1] == Digits(n / 10) && s[|s| - 1] == DigitChar(n % 10);
    }
  }

  lemma {:induction false} PaddedRead(n: nat, width: nat)
    requires n < Power10(width)
    ensures ReadNat(Padded(n, width)) == n
  {
    if width > 0 {
      var s := Padded(n, width);
      PaddedRead(n / 10, width - 1);
      DigitRoundTrip(n % 10);
      assert s[..|s| - 1] == Padded(n / 10, width - 1) && s[|s| - 1] == DigitChar(n % 10);
    }
  }
}
