/** Proleptic Gregorian dates and their day numbers, counted from January 1 of year 0. */
module Calendar {
  datatype Date = Date(year: nat, month: nat, day: nat)

  predicate IsLeap(year: nat) {
    year % 4 == 0 && (year % 100 != 0 || year % 400 == 0)
  }

  function DaysInMonth(year: nat, month: nat): nat {
    if month == 2 then (if IsLeap(year) then 29 else 28)
    else if month in {4, 6, 9, 11} then 30
    else 31
  }

  predicate IsValid(d: Date) {
    1 <= d.month <= 12 && 1 <= d.day <= DaysInMonth(d.year, d.month)
  }

  function DaysBeforeYear(year: nat): nat {
    if year == 0 then 0 else DaysBeforeYear(year - 1) + if IsLeap(year - 1) then 366 else 365
  }

  function DaysBeforeMonth(year: nat, month: nat): nat {
    if month <= 1 then 0 else DaysBeforeMonth(year, month - 1) + DaysInMonth(year, month - 1)
  }

  function DayNumber(d: Date): nat
    requires IsValid(d)
  {
    DaysBeforeYear(d.year) + DaysBeforeMonth(d.year, d.month) + d.day - 1
  }

  // January 1 of year 0 was a Saturday.
  predicate IsSunday(d: Date)
    requires IsValid(d)
  {
    DayNumber(d) % 7 == 1
  }

  /** The years before a year: 365 days each, and one for every leap year among them. */
  lemma {:induction false} DaysBeforeYearIs(year: nat)
    ensures DaysBeforeYear(year) == 365 * year + (year + 3) / 4 - (year + 99) / 100 + (year + 399) / 400
  {
    if year > 0 {
      DaysBeforeYearIs(year - 1);
      NextMultiple(year - 1);
      LeapCounts(year - 1);
    }
  }

  lemma NextMultiple(n: nat)
    ensures (n + 4) / 4 == (n + 3) / 4 + if n % 4 == 0 then 1 else 0
    ensures (n + 100) / 100 == (n + 99) / 100 + if n % 100 == 0 then 1 else 0
    ensures (n + 400) / 400 == (n + 399) / 400 + if n % 400 == 0 then 1 else 0
  {
    RoundUp(n, 4);
    RoundUp(n, 100);
    RoundUp(n, 400);
  }

  lemma RoundUp(n: nat, k: nat)
    requires k in {4, 100, 400}
    ensures (n + k) / k == (n + k - 1) / k + if n % k == 0 then 1 else 0
  {
    var q, r := n / k, n % k;
    assert n == k * q + r;
    if k == 4 {
      assert (n + 4) / 4 == q + 1;
    } else if k == 100 {
      assert (n + 100) / 100 == q + 1;
    } else {
      assert (n + 400) / 400 == q + 1;
    }
  }

  lemma LeapCounts(n: nat)
    ensures (if IsLeap(n) then 1 else 0) ==
            (if n % 4 == 0 then 1 else 0) - (if n % 100 == 0 then 1 else 0) + (if n % 400 == 0 then 1 else 0)
  {
    HundredsAreFours(n);
    FourHundredsAreHundreds(n);
  }

  lemma HundredsAreFours(n: nat)
    ensures n % 100 == 0 ==> n % 4 == 0
  {
    var q := n / 100;
    assert n == 100 * q + n % 100;
    assert 4 * (25 * q) % 4 == 0;
  }

  lemma FourHundredsAreHundreds(n: nat)
    ensures n % 400 == 0 ==> n % 100 == 0
  {
    var q := n / 400;
    assert n == 400 * q + n % 400;
    assert 100 * (4 * q) % 100 == 0;
  }

  lemma AnchorNumber()
    ensures DayNumber(Date(2024, 1, 7)) == 739257
  {
    DaysBeforeYearIs(2024);
  }

  /** January 7, 2024 was a Sunday, and so is every seventh day before and after it. */
  lemma SundayIs(d: Date)
    requires IsValid(d)
    ensures DayNumber(Date(2024, 1, 7)) == 739257
    ensures IsSunday(d) <==> (DayNumber(d) - DayNumber(Date(2024, 1, 7))) % 7 == 0
  {
    AnchorNumber();
  }

  /** The day behind a date is the next of its month, or the first of the next month or year. */
  lemma NextDay(d: Date)
    requires IsValid(d)
    ensures var last := d.day == (if d.month == 2 then (if IsLeap(d.year) then 29 else 28)
                                  else if d.month == 4 || d.month == 6 || d.month == 9 || d.month == 11 then 30
                                  else 31);
            var next := if !last then Date(d.year, d.month, d.day + 1)
                        else if d.month < 12 then Date(d.year, d.month + 1, 1)
                        else Date(d.year + 1, 1, 1);
            IsValid(next) && DayNumber(next) == DayNumber(d) + 1
  {
    if d.month == 12 {
      DaysInYear(d.year);
    }
  }

  lemma DaysInYear(y: nat)
    ensures DaysBeforeMonth(y, 13) == if IsLeap(y) then 366 else 365
  {
    assert DaysBeforeMonth(y, 2) == 31;
    assert DaysBeforeMonth(y, 4) == 62 + DaysInMonth(y, 2);
    assert DaysBeforeMonth(y, 6) == 123 + DaysInMonth(y, 2);
    assert DaysBeforeMonth(y, 8) == 184 + DaysInMonth(y, 2);
    assert DaysBeforeMonth(y, 10) == 245 + DaysInMonth(y, 2);
    assert DaysBeforeMonth(y, 12) == 306 + DaysInMonth(y, 2);
  }

  predicate Before(a: Date, b: Date) {
    a.year < b.year || (a.year == b.year && (a.month < b.month || (a.month == b.month && a.day < b.day)))
  }

  lemma {:induction false} YearsGrow(a: nat, b: nat)
    requires a < b
    ensures DaysBeforeYear(a) + (if IsLeap(a) then 366 else 365) <= DaysBeforeYear(b)
    decreases b
  {
    if a < b - 1 {
      YearsGrow(a, b - 1);
    }
  }

  lemma {:induction false} MonthsGrow(year: nat, a: nat, b: nat)
    requires 1 <= a < b
    ensures DaysBeforeMonth(year, a) + DaysInMonth(year, a) <= DaysBeforeMonth(year, b)
    decreases b
  {
    if a < b - 1 {
      MonthsGrow(year, a, b - 1);
    }
  }

  lemma DayWithinYear(d: Date)
    requires IsValid(d)
    ensures DaysBeforeMonth(d.year, d.month) + d.day <= if IsLeap(d.year) then 366 else 365
  {
    MonthsGrow(d.year, d.month, 13);
    DaysInYear(d.year);
  }

  /** Day numbers order valid dates as year, month and day do, so equal numbers mean equal dates. */
  lemma DayNumberOrders(a: Date, b: Date)
    requires IsValid(a) && IsValid(b)
    ensures Before(a, b) <==> DayNumber(a) < DayNumber(b)
    ensures a == b <==> DayNumber(a) == DayNumber(b)
  {
    if Before(a, b) {
      BeforeIsLess(a, b);
    } else if a != b {
      BeforeIsLess(b, a);
    }
  }

  lemma BeforeIsLess(a: Date, b: Date)
    requires IsValid(a) && IsValid(b) && Before(a, b)
    ensures DayNumber(a) < DayNumber(b)
  {
    if a.year < b.year {
      YearsGrow(a.year, b.year);
      DayWithinYear(a);
    } else if a.month < b.month {
      MonthsGrow(a.year, a.month, b.month);
    }
  }
}
