/** Equal splitting of a shared debt for display: every participant's share
    is the amount divided by the number of participants, at the scale
    rust_decimal's division gives it, then rounded to cents when it has
    more than two places. */
module Shares {
  import opened Text
  import opened Decimals

  /** A participant's displayed share. */
  datatype UserShare = UserShare(userId: int, username: string, shareAmount: Decimal)

  /** `amount / count` has an exact decimal form with `scale` places, no
      fewer than the dividend's own. */
  predicate ExactAt(amount: Decimal, count: nat, scale: nat)
    requires count > 0
  {
    amount.scale <= scale && (amount.mantissa * Pow10(scale - amount.scale)) % count == 0
  }

  /** The least scale from `from` up to 2 at which the division by `count`
      leaves no remainder, or 3 when there is none: rust_decimal's division
      starts at the dividend's scale and adds a place only while a remainder
      is left. */
  function FirstExact(amount: Decimal, count: nat, from: nat): (k: nat)
    requires count > 0 && amount.scale <= from <= 3
    decreases 3 - from
    ensures from <= k <= 3
    ensures k <= 2 ==> ExactAt(amount, count, k)
    ensures forall j :: from <= j < k ==> !ExactAt(amount, count, j)
  {
    if from == 3 || ExactAt(amount, count, from) then from
    else FirstExact(amount, count, from + 1)
  }

  /** `r` is the exact quotient `amount / count`, at `r`'s own scale. */
  predicate IsQuotient(amount: Decimal, count: nat, r: Decimal) {
    amount.scale <= r.scale && r.mantissa * count == amount.mantissa * Pow10(r.scale - amount.scale)
  }

  /** `(amount / count).round_dp(2)`. The quotient keeps the least scale,
      from the dividend's own, at which it is exact; when that scale is at
      most two, `round_dp(2)` returns it unchanged ("100" split four ways
      is 25, "10" split four ways is 2.5). Otherwise it is rounded to two
      places, a tie going to the even cent (ShareRounding). A zero amount
      differs in its scale only: `rust_decimal` returns `Decimal::ZERO` with
      scale 0 where this keeps the amount's own scale, and no caller splits
      zero, since the amount validators require a positive value. */
  function SharePerUser(amount: Decimal, count: nat): (r: Decimal)
    requires count > 0
    ensures r.scale <= 2
    ensures r.scale < 2 ==> ExactAt(amount, count, r.scale)
    ensures forall j :: amount.scale <= j < r.scale ==> !ExactAt(amount, count, j)
    ensures ExactAt(amount, count, r.scale) ==> IsQuotient(amount, count, r)
  {
    var k := QuotientScale(amount, count);
    if k <= 2 then ExactShare(amount, count, k) else RoundedShare(amount, count)
  }

  /** The scale of the exact quotient when it has at most two places,
      else 3. */
  function QuotientScale(amount: Decimal, count: nat): (k: nat)
    requires count > 0
    ensures k <= 3
    ensures k <= 2 ==> ExactAt(amount, count, k)
    ensures forall j :: amount.scale <= j < k ==> !ExactAt(amount, count, j)
  {
    if amount.scale <= 2 then FirstExact(amount, count, amount.scale) else 3
  }

  /** The exact quotient at scale k. */
  function ExactShare(amount: Decimal, count: nat, k: nat): (r: Decimal)
    requires count > 0 && ExactAt(amount, count, k)
    ensures r.scale == k && IsQuotient(amount, count, r)
  {
    var n := amount.mantissa * Pow10(k - amount.scale);
    ExactDivision(n, count);
    Decimal(n / count, k)
  }

  /** The quotient rounded to two places, a tie going to the even cent. */
  function RoundedShare(amount: Decimal, count: nat): (r: Decimal)
    requires count > 0
    ensures r.scale == 2
    ensures NearestTieEven(100 * amount.mantissa, Pow10(amount.scale) * count, r.mantissa)
  {
    Decimal(RoundHalfEven(100 * amount.mantissa, Pow10(amount.scale) * count), 2)
  }

  lemma ExactDivision(n: int, d: nat)
    requires d > 0 && n % d == 0
    ensures n / d * d == n
  {
  }

  /** `c` is the nearest integer to n / den, a tie going to the even one. */
  predicate NearestTieEven(n: int, den: int, c: int) {
    && -den <= 2 * (n - c * den) <= den
    && (2 * (n - c * den) == den || 2 * (n - c * den) == -den ==> c % 2 == 0)
  }

  /** Counted in cents, every share is the nearest cent to amount / count,
      a tie going to the even cent; an exact quotient is that cent itself. */
  lemma ShareRounding(amount: Decimal, count: nat)
    requires count > 0
    ensures var r := SharePerUser(amount, count);
      NearestTieEven(100 * amount.mantissa, Pow10(amount.scale) * count, r.mantissa * Pow10(2 - r.scale))
  {
    var r := SharePerUser(amount, count);
    if ExactAt(amount, count, r.scale) {
      ExactCents(amount.mantissa, amount.scale, r.scale, count, r.mantissa);
    } else {
      assert r.scale == 2 && Pow10(0) == 1;
    }
  }

  /** The scale rule, the exact quotient and the rounding determine the
      share: any decimal that keeps them is SharePerUser's result. */
  lemma ShareDetermined(amount: Decimal, count: nat, r: Decimal)
    requires count > 0 && r.scale <= 2
    requires r.scale < 2 ==> ExactAt(amount, count, r.scale)
    requires forall j :: amount.scale <= j < r.scale ==> !ExactAt(amount, count, j)
    requires ExactAt(amount, count, r.scale) ==> IsQuotient(amount, count, r)
    requires NearestTieEven(100 * amount.mantissa, Pow10(amount.scale) * count, r.mantissa * Pow10(2 - r.scale))
    ensures r == SharePerUser(amount, count)
  {
    var s := SharePerUser(amount, count);
    SameScale(amount, count, r.scale, s.scale);
    if ExactAt(amount, count, r.scale) {
      assert r.mantissa * count == s.mantissa * count;
      CancelCount(r.mantissa, s.mantissa, count);
    } else {
      ShareRounding(amount, count);
      assert Pow10(0) == 1;
      var den := Pow10(amount.scale) * count;
      RoundHalfEvenUnique(100 * amount.mantissa, den, r.mantissa);
      RoundHalfEvenUnique(100 * amount.mantissa, den, s.mantissa);
    }
  }

  /** Two scales that both keep the scale rule are equal. */
  lemma SameScale(amount: Decimal, count: nat, a: nat, b: nat)
    requires count > 0 && a <= 2 && b <= 2
    requires a < 2 ==> ExactAt(amount, count, a)
    requires b < 2 ==> ExactAt(amount, count, b)
    requires forall j :: amount.scale <= j < a ==> !ExactAt(amount, count, j)
    requires forall j :: amount.scale <= j < b ==> !ExactAt(amount, count, j)
    ensures a == b
  {
  }

  lemma CancelCount(x: int, y: int, n: nat)
    requires n > 0 && x * n == y * n
    ensures x == y
  {
    var d := x - y;
    assert d * n == x * n - y * n;
    MulSign(d, n);
  }

  lemma MulSign(d: int, n: nat)
    requires n > 0
    ensures d > 0 ==> d * n > 0
    ensures d < 0 ==> d * n < 0
  {
  }

  /** An exact quotient at scale k, counted in cents, times the divisor is
      the dividend in cents. */
  lemma ExactCents(m: int, s: nat, k: nat, count: nat, q: int)
    requires s <= k <= 2 && count > 0 && q * count == m * Pow10(k - s)
    ensures q * Pow10(2 - k) * (Pow10(s) * count) == 100 * m
  {
    Pow10Add(k - s, s);
    Pow10Add(2 - k, k);
    assert Pow10(2) == 100;
    var a, b, c := Pow10(k - s), Pow10(s), Pow10(2 - k);
    assert c * (a * b) == 100;
    Regroup4(q, c, b, count, m, a);
  }

  /** q·c·(b·n) = m·(c·(a·b)) when q·n = m·a. */
  lemma Regroup4(q: int, c: int, b: int, n: int, m: int, a: int)
    requires q * n == m * a
    ensures q * c * (b * n) == m * (c * (a * b))
  {
    calc {
      q * c * (b * n);
      (q * n) * (c * b);
      (m * a) * (c * b);
      m * (c * (a * b));
    }
  }

  /** `calculate_shares`: one share per participant, in input order, each
      the same rounded quotient; no participants, no shares. */
  function CalculateShares(amount: Decimal, users: seq<(int, string)>): (r: seq<UserShare>)
    ensures |r| == |users|
    ensures forall i :: 0 <= i < |r| ==>
              r[i].userId == users[i].0 && r[i].username == users[i].1
              && r[i].shareAmount == SharePerUser(amount, |users|)
  {
    if users == [] then []
    else
      var share := SharePerUser(amount, |users|);
      seq(|users|, i requires 0 <= i < |users| => UserShare(users[i].0, users[i].1, share))
  }

  lemma QuotientValue(m: int, p: nat, count: nat)
    requires p > 0 && count > 0
    ensures (100 * m) as real / ((p * count) as real * 100.0) == (m as real / p as real) / count as real
  {
    assert (p * count) as real == p as real * count as real;
  }

  /** `share` is within half a cent of the exact quotient amount / count. */
  predicate NearQuotient(share: Decimal, amount: Decimal, count: nat)
    requires count > 0
  {
    var e := Value(share) - Value(amount) / count as real;
    -1.0 / 200.0 <= e <= 1.0 / 200.0
  }

  /** `count` copies of `share` add up to `amount` within half a cent per
      copy. */
  predicate NearTotal(share: Decimal, amount: Decimal, count: nat) {
    var total := count as real * Value(share);
    -(count as real) / 200.0 <= total - Value(amount) <= count as real / 200.0
  }

  /** Each share is within half a cent of the exact quotient. */
  lemma ShareWithinHalfCent(amount: Decimal, count: nat)
    requires count > 0
    ensures NearQuotient(SharePerUser(amount, count), amount, count)
  {
    ShareRounding(amount, count);
    RoundedClose(amount, count, SharePerUser(amount, count));
  }

  /** The shares need not add up to the amount, but miss it by at most half
      a cent per participant. */
  lemma SharesSumClose(amount: Decimal, count: nat)
    requires count > 0
    ensures NearTotal(SharePerUser(amount, count), amount, count)
  {
    ShareWithinHalfCent(amount, count);
    QuotientToTotal(SharePerUser(amount, count), amount, count);
  }

  /** A decimal of at most two places that is, in cents, the nearest cent
      to amount / count is within half a cent of the exact quotient. */
  lemma RoundedClose(amount: Decimal, count: nat, r: Decimal)
    requires count > 0 && r.scale <= 2
    requires NearestTieEven(100 * amount.mantissa, Pow10(amount.scale) * count, r.mantissa * Pow10(2 - r.scale))
    ensures NearQuotient(r, amount, count)
  {
    var den := Pow10(amount.scale) * count;
    var cents := r.mantissa * Pow10(2 - r.scale);
    WithinHalfCent(100 * amount.mantissa, cents, den);
    QuotientValue(amount.mantissa, Pow10(amount.scale), count);
    CentsValue(r.mantissa, r.scale);
  }

  /** A share near the quotient, times the count, is near the amount. */
  lemma QuotientToTotal(share: Decimal, amount: Decimal, count: nat)
    requires count > 0 && NearQuotient(share, amount, count)
    ensures NearTotal(share, amount, count)
  {
    ScaleError(Value(share), Value(amount), count as real);
  }

  /** A decimal of at most two places, counted in cents. */
  lemma CentsValue(m: int, scale: nat)
    requires scale <= 2
    ensures Value(Decimal(m, scale)) == (m * Pow10(2 - scale)) as real / 100.0
  {
    Pow10Add(2 - scale, scale);
    assert Pow10(2) == 100;
    var p := Pow10(scale) as real;
    var f := Pow10(2 - scale) as real;
    assert p * f == 100.0;
    assert (m * Pow10(2 - scale)) as real == m as real * f;
    assert m as real / p == (m as real * f) / (p * f);
  }

  lemma ScaleError(s: real, v: real, n: real)
    requires n > 0.0 && -1.0 / 200.0 <= s - v / n <= 1.0 / 200.0
    ensures -n / 200.0 <= n * s - v <= n / 200.0
  {
    var e := s - v / n;
    assert n * (v / n) == v;
    assert n * s - v == n * e;
    var hi := 1.0 / 200.0 - e;
    var lo := e + 1.0 / 200.0;
    assert n * hi >= 0.0 && n * lo >= 0.0;
    assert n * hi == n / 200.0 - n * e;
    assert n * lo == n * e + n / 200.0;
  }

  /** A whole amount that divides evenly keeps scale 0: "100" split four
      ways is 25. */
  lemma WholeSplit()
    ensures SharePerUser(Decimal(100, 0), 4) == Decimal(25, 0)
  {
    assert Pow10(0) == 1;
    assert ExactAt(Decimal(100, 0), 4, 0);
    assert FirstExact(Decimal(100, 0), 4, 0) == 0;
  }

  /** The quotient takes one more place only when a remainder is left:
      "10" split four ways is 2.5. */
  lemma HalfSplit()
    ensures SharePerUser(Decimal(10, 0), 4) == Decimal(25, 1)
  {
    assert !ExactAt(Decimal(10, 0), 4, 0);
    assert Pow10(1) == 10;
    assert ExactAt(Decimal(10, 0), 4, 1);
  }

  /** Those shares are shown as "25" and "2.5", not "25.00" and "2.50". */
  lemma SplitsShown()
    ensures ToString(Decimal(25, 0)) == "25"
    ensures ToString(Decimal(25, 1)) == "2.5"
  {
    assert MantissaDigits(Decimal(25, 0)) == "25";
    assert MantissaDigits(Decimal(25, 1)) == "25";
  }

  /** The dividend's two places are kept: "100.00" split four ways is
      25.00. */
  lemma CentsSplit()
    ensures SharePerUser(Decimal(10000, 2), 4) == Decimal(2500, 2)
  {
    assert Pow10(0) == 1;
    assert ExactAt(Decimal(10000, 2), 4, 2);
  }

  /** 100.00 split three ways is 33.33 each, 99.99 in all. */
  lemma ThreeWaySplit()
    ensures SharePerUser(Decimal(10000, 2), 3) == Decimal(3333, 2)
    ensures 3.0 * Value(Decimal(3333, 2)) == 99.99
  {
    assert Pow10(2) == 100;
    RoundHalfEvenUnique(1000000, 300, 3333);
  }

  /** A tie goes to the even cent: 0.05 split two ways is 0.02, not 0.03. */
  lemma TieToEven()
    ensures SharePerUser(Decimal(5, 2), 2) == Decimal(2, 2)
  {
    assert Pow10(2) == 100;
    RoundHalfEvenUnique(500, 200, 2);
  }
}
