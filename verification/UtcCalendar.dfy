/** Years and time values, in milliseconds, as section 21.4.1 of ECMA-262 defines them. */
module UtcCalendar {

  const MS_PER_DAY := 86400000

  predicate IsLeap(y: int) {
    y % 4 == 0 && (y % 100 != 0 || y % 400 == 0)
  }

  function DaysInYear(y: int): (r: int)
    ensures 365 <= r <= 366
  {
    if IsLeap(y) then 366 else 365
  }

  /** Days from the epoch to January 1 of year y, counted year by year. */
  function DayFromYear(y: int): int
    decreases if y >= 1970 then y - 1970 else 1970 - y
  {
    if y == 1970 then 0
    else if y > 1970 then DayFromYear(y - 1) + DaysInYear(y - 1)
    else DayFromYear(y + 1) - DaysInYear(y)
  }

  function DayFormula(y: int): int {
    365 * (y - 1970) + (y - 1969) / 4 - (y - 1901) / 100 + (y - 1601) / 400
  }

  lemma Quotient4(y: int)
    ensures y / 4 - (y - 1) / 4 == if y % 4 == 0 then 1 else 0
  {
  }

  lemma Quotient100(y: int)
    ensures y / 100 - (y - 1) / 100 == if y % 100 == 0 then 1 else 0
  {
  }

  lemma Quotient400(y: int)
    ensures y / 400 - (y - 1) / 400 == if y % 400 == 0 then 1 else 0
  {
  }

  lemma HundredsAreFours(y: int)
    requires y % 100 == 0
    ensures y % 4 == 0
  {
    var k := y / 100;
    assert y == 100 * k;
    assert y == 4 * (25 * k);
  }

  lemma FourHundredsAreHundreds(y: int)
    requires y % 400 == 0
    ensures y % 100 == 0
  {
    var k := y / 400;
    assert y == 400 * k;
    assert y == 100 * (4 * k);
  }

  lemma FormulaStep(y: int)
    ensures DayFormula(y + 1) == DayFormula(y) + DaysInYear(y)
  {
    Quotient4(y);
    Quotient100(y);
    Quotient400(y);
    if y % 400 == 0 { FourHundredsAreHundreds(y); }
    if y % 100 == 0 { HundredsAreFours(y); }
    assert (y - 1968) / 4 - (y - 1969) / 4 == y / 4 - (y - 1) / 4;
    assert (y - 1900) / 100 - (y - 1901) / 100 == y / 100 - (y - 1) / 100;
    assert (y - 1600) / 400 - (y - 1601) / 400 == y / 400 - (y - 1) / 400;
  }

  /** The closed formula of ECMA-262 counts the same days. */
  lemma {:induction false} DayFromYearIsTheFormula(y: int)
    ensures DayFromYear(y) == DayFormula(y)
    decreases if y >= 1970 then y - 1970 else 1970 - y
  {
    if y > 1970 {
      DayFromYearIsTheFormula(y - 1);
      FormulaStep(y - 1);
    } else if y < 1970 {
      DayFromYearIsTheFormula(y + 1);
      FormulaStep(y);
    }
  }

  function TimeFromYear(y: int): int {
    MS_PER_DAY * DayFromYear(y)
  }

  lemma YearLength(y: int)
    ensures TimeFromYear(y + 1) == TimeFromYear(y) + MS_PER_DAY * DaysInYear(y)
  {
  }

  lemma {:induction false} YearsAreOrdered(a: int, b: int)
    requires a < b
    ensures TimeFromYear(a) < TimeFromYear(b)
    decreases b - a
  {
    YearLength(b - 1);
    if a < b - 1 {
      YearsAreOrdered(a, b - 1);
    }
  }

  function YearUp(t: int, y: int): (r: int)
    requires TimeFromYear(y) <= t
    ensures TimeFromYear(r) <= t < TimeFromYear(r + 1)
    decreases t - TimeFromYear(y)
  {
    YearLength(y);
    if TimeFromYear(y + 1) <= t then YearUp(t, y + 1) else y
  }

  function YearDown(t: int, y: int): (r: int)
    requires t < TimeFromYear(y + 1)
    ensures TimeFromYear(r) <= t < TimeFromYear(r + 1)
    decreases TimeFromYear(y) - t
  {
    YearLength(y - 1);
    if TimeFromYear(y) <= t then y else YearDown(t, y - 1)
  }

  /** The year whose span contains t: `getUTCFullYear()`. */
  function YearFromTime(t: int): (r: int)
    ensures TimeFromYear(r) <= t < TimeFromYear(r + 1)
  {
    if TimeFromYear(1970) <= t then YearUp(t, 1970) else YearDown(t, 1969)
  }

  lemma YearIsUnique(t: int, y: int)
    requires TimeFromYear(y) <= t < TimeFromYear(y + 1)
    ensures YearFromTime(t) == y
  {
    var r := YearFromTime(t);
    if r < y {
      if r + 1 < y { YearsAreOrdered(r + 1, y); }
    } else if r > y {
      if y + 1 < r { YearsAreOrdered(y + 1, r); }
    }
  }

  lemma LaterTimesHaveLaterYears(s: int, t: int)
    requires s <= t
    ensures YearFromTime(s) <= YearFromTime(t)
  {
    var a, b := YearFromTime(s), YearFromTime(t);
    if b + 1 < a {
      YearsAreOrdered(b + 1, a);
    }
  }

  /** The year `Date.UTC` understands: 0 to 99 mean 1900 to 1999. */
  function FullYear(y: int): int {
    if 0 <= y <= 99 then 1900 + y else y
  }

  /** `Date.UTC(y, 0, 1)` */
  function JanuaryFirst(y: int): int {
    TimeFromYear(FullYear(y))
  }

  /** `Date.UTC(t.getUTCFullYear() + 1, 0, 1)` */
  function NextYearStart(t: int): (r: int)
    ensures r > t
  {
    var y := YearFromTime(t) + 1;
    assert t < JanuaryFirst(y) by {
      if FullYear(y) > y { YearsAreOrdered(y, FullYear(y)); }
    }
    JanuaryFirst(y)
  }

  lemma NextYearIsNext(t: int)
    ensures var y := YearFromTime(t) + 1;
            && YearFromTime(NextYearStart(t)) == FullYear(y)
            && (!(0 <= y <= 99) ==> NextYearStart(t) == TimeFromYear(y) <= t + 366 * MS_PER_DAY)
  {
    var y := YearFromTime(t) + 1;
    YearLength(FullYear(y));
    YearIsUnique(JanuaryFirst(y), FullYear(y));
    YearLength(y - 1);
  }
}
