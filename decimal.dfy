/**
 * Exact decimal arithmetic as used by the splitter (java.math.BigDecimal with
 * RoundingMode.HALF_EVEN), modelled on unbounded integers.
 *
 * Every amount and every running net is an integer number of "units" of
 * 10^-10, the working scale of the computation.  Final balances are integer
 * numbers of cents (10^-2).
 */
module Decimal {

  /**
   * How many working units make one cent: amounts are held with WORK_SCALE = 10
   * fractional digits and final balances with 2, so one cent is 10^(10 - 2) units.
   */
  const UnitsPerCent: int := 100_000_000

  function Abs(x: int): (r: nat)
    ensures r == x || r == -x
  {
    if x < 0 then -x else x
  }

  /**
   * q is the integer nearest to the exact quotient a / n, and when a / n lies
   * exactly half-way between two integers, q is the even one.  The error of
   * q is (a - q * n) / n, so "nearest" reads 2 * |a - q * n| <= n.
   */
  ghost predicate IsHalfEvenQuotient(a: int, n: int, q: int)
    requires n > 0
  {
    var err := a - q * n;
    2 * Abs(err) < n || (2 * Abs(err) == n && q % 2 == 0)
  }

  /** Integer division rounded half to even, for any sign of a. */
  function DivHalfEven(a: int, n: int): (q: int)
    requires n > 0
    ensures IsHalfEvenQuotient(a, n, q)
  {
    var f, r := a / n, a % n;
    assert a == f * n + r;
    if 2 * r < n then f
    else if 2 * r > n then (assert a - (f + 1) * n == r - n; f + 1)
    else if f % 2 == 0 then f
    else (assert a - (f + 1) * n == r - n; f + 1)
  }

  /** There is only one half-even quotient, so DivHalfEven is the rounding. */
  lemma HalfEvenQuotientUnique(a: int, n: int, q: int)
    requires n > 0 && IsHalfEvenQuotient(a, n, q)
    ensures q == DivHalfEven(a, n)
  {
    var f, r := a / n, a % n;
    FloorOrNext(a, n, q);
    if q == f {
      assert a - q * n == r;
    } else {
      assert a - q * n == r - n;
    }
  }

  /** A quotient within half of n of a / n is the floor of a / n or the next integer. */
  lemma FloorOrNext(a: int, n: int, q: int)
    requires n > 0 && 2 * Abs(a - q * n) <= n
    ensures q == a / n || q == a / n + 1
    ensures q == a / n ==> a - q * n == a % n
    ensures q == a / n + 1 ==> a - q * n == a % n - n
  {
    var f, r := a / n, a % n;
    var k := q - f;
    assert a == f * n + r;
    assert q * n == f * n + k * n;
    MulRange(k, n);
  }

  lemma MulRange(k: int, n: int)
    requires n > 0
    ensures k >= 2 ==> k * n >= 2 * n
    ensures k <= -1 ==> k * n <= -n
  {
  }

  /**
   * amount.divide(n, WORK_SCALE, HALF_EVEN): the share of an amount of
   * working units split n ways, rounded half-even at scale 10.
   */
  function Share(amount: int, n: int): (s: int)
    requires n > 0
    ensures IsHalfEvenQuotient(amount, n, s)
  {
    DivHalfEven(amount, n)
  }

  /**
   * value.setScale(2, HALF_EVEN): a value in working units rounded half-even
   * to whole cents.
   */
  function ToCents(units: int): (c: int)
    ensures IsHalfEvenQuotient(units, UnitsPerCent, c)
  {
    DivHalfEven(units, UnitsPerCent)
  }

  /** An amount that n divides evenly is split exactly. */
  lemma ExactShare(amount: int, n: int)
    requires n > 0 && amount % n == 0
    ensures Share(amount, n) * n == amount
  {
    var q := amount / n;
    assert amount == q * n;
    assert IsHalfEvenQuotient(amount, n, q);
    HalfEvenQuotientUnique(amount, n, q);
  }

  /** A value that is already a whole number of cents is not moved by rounding. */
  lemma WholeCentsUnchanged(c: int)
    ensures ToCents(c * UnitsPerCent) == c
  {
    assert IsHalfEvenQuotient(c * UnitsPerCent, UnitsPerCent, c);
    HalfEvenQuotientUnique(c * UnitsPerCent, UnitsPerCent, c);
  }
}
