/** The calendar that RFC 3339 writes: years 0 to 9999, by the Gregorian leap-year rule. */
module Calendar {
  predicate Leap(y: int) {
    y % 4 == 0 && (y % 100 != 0 || y % 400 == 0)
  }

  function DaysIn(y: int): int {
    if Leap(y) then 366 else 365
  }

  /** Seconds from the first instant of year 1 to the first instant of year y. */
  function YearStart(y: int): int
    decreases if y < 1 then 1 - y else y - 1
  {
    if y == 1 then 0
    else if y > 1 then YearStart(y - 1) + DaysIn(y - 1) * 86_400
    else YearStart(y + 1) - DaysIn(y) * 86_400
  }

  predicate InYear(second: int, y: int) {
    YearStart(y) <= second < YearStart(y + 1)
  }

  lemma {:induction false} YearStartIs(y: int)
    requires y >= 1
    ensures YearStart(y) == 86_400 * (365 * (y - 1) + (y - 1) / 4 - (y - 1) / 100 + (y - 1) / 400)
  {
    if y > 1 {
      YearStartIs(y - 1);
      OneMoreYear(y - 1);
    }
  }

  /** Over year y the leap days before it grow by one exactly in a leap year. */
  lemma OneMoreYear(y: int)
    requires y >= 1
    ensures y / 4 - y / 100 + y / 400 == (y - 1) / 4 - (y - 1) / 100 + (y - 1) / 400 + if Leap(y) then 1 else 0
  {
    By4(y);
    By100(y);
    By400(y);
    Multiples(y);
  }

  lemma By4(y: int)
    ensures y / 4 == (y - 1) / 4 + if y % 4 == 0 then 1 else 0
  {
  }

  lemma By100(y: int)
    ensures y / 100 == (y - 1) / 100 + if y % 100 == 0 then 1 else 0
  {
  }

  lemma By400(y: int)
    ensures y / 400 == (y - 1) / 400 + if y % 400 == 0 then 1 else 0
  {
  }

  lemma Multiples(y: int)
    ensures y % 400 == 0 ==> y % 100 == 0
    ensures y % 100 == 0 ==> y % 4 == 0
  {
  }

  lemma {:induction false} YearsAscend(a: int, b: int)
    requires 0 <= a <= b
    ensures YearStart(a) <= YearStart(b)
    decreases b - a
  {
    if a < b { YearsAscend(a, b - 1); }
  }

  /** Every second from the start of year 0 to the start of year n lies in one of those years. */
  lemma {:induction false} YearOf(second: int, n: nat) returns (y: nat)
    requires YearStart(0) <= second < YearStart(n)
    ensures y < n && InYear(second, y)
  {
    if n > 0 && YearStart(n - 1) <= second {
      y := n - 1;
    } else {
      y := YearOf(second, n - 1);
    }
  }

  /** The seconds of the years 0 to 9999, in numbers. */
  lemma FourDigitYears(second: int)
    ensures (exists y | 0 <= y <= 9999 :: InYear(second, y)) <==> -31_622_400 <= second < 315_537_897_600
  {
    var first, last := 0, 10_000;
    YearStartIs(last);
    assert YearStart(first) == -31_622_400;
    assert YearStart(last) == 315_537_897_600;
    if YearStart(first) <= second < YearStart(last) {
      var y := YearOf(second, last);
      assert 0 <= y <= 9999 && InYear(second, y);
    }
    if y :| 0 <= y <= 9999 && InYear(second, y) {
      YearsAscend(first, y);
      YearsAscend(y + 1, last);
    }
  }
}
