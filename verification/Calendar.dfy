// The proleptic Gregorian calendar: day numbers, day arithmetic, weekdays and the
// YYYY-MM-DD form used for days everywhere.
module Calendar {
  import opened Arithmetic
  import opened Texts

  datatype Date = Date(y: int, m: int, d: int)

  predicate IsLeap(y: int) {
    y % 4 == 0 && (y % 100 != 0 || y % 400 == 0)
  }

  function DaysIn(y: int, m: int): int {
    if m == 2 then (if IsLeap(y) then 29 else 28)
    else if m == 4 || m == 6 || m == 9 || m == 11 then 30
    else 31
  }

  predicate Valid(a: Date) {
    1 <= a.m <= 12 && 1 <= a.d <= DaysIn(a.y, a.m)
  }

  // Thirty days hath September; every fourth year is leap, but of the centuries only one in four.
  lemma MonthLengths(y: int, m: int)
    requires 1 <= m <= 12
    ensures m == 4 || m == 6 || m == 9 || m == 11 ==> DaysIn(y, m) == 30
    ensures m == 1 || m == 3 || m == 5 || m == 7 || m == 8 || m == 10 || m == 12 ==> DaysIn(y, m) == 31
    ensures m == 2 && (y % 4 != 0 || (y % 100 == 0 && y % 400 != 0)) ==> DaysIn(y, m) == 28
    ensures m == 2 && y % 4 == 0 && (y % 100 != 0 || y % 400 == 0) ==> DaysIn(y, m) == 29
  {}

  // ---- the successor day, and counting by it ----

  function Next(a: Date): Date {
    if a.d < DaysIn(a.y, a.m) then a.(d := a.d + 1)
    else if a.m < 12 then Date(a.y, a.m + 1, 1)
    else Date(a.y + 1, 1, 1)
  }

  function Prev(a: Date): Date {
    if a.d > 1 then a.(d := a.d - 1)
    else if a.m > 1 then Date(a.y, a.m - 1, DaysIn(a.y, a.m - 1))
    else Date(a.y - 1, 12, 31)
  }

  lemma NextPrev(a: Date)
    requires Valid(a)
    ensures Valid(Next(a)) && Valid(Prev(a)) && Prev(Next(a)) == a && Next(Prev(a)) == a
  {}

  // Day n, counted from 1 January of year 0.
  function ToDate(n: int): (a: Date)
    ensures Valid(a)
    decreases if n < 0 then -n else n
  {
    if n == 0 then Date(0, 1, 1)
    else if n > 0 then NextPrev(ToDate(n - 1)); Next(ToDate(n - 1))
    else NextPrev(ToDate(n + 1)); Prev(ToDate(n + 1))
  }

  // ---- day numbers ----

  // Leap years before year y, counted from year 0.
  function LeapsBefore(y: int): int {
    (y + 3) / 4 - (y + 99) / 100 + (y + 399) / 400
  }

  function DaysBeforeYear(y: int): int {
    365 * y + LeapsBefore(y)
  }

  function DaysBeforeMonth(y: int, m: int): int {
    if m <= 1 then 0 else DaysBeforeMonth(y, m - 1) + DaysIn(y, m - 1)
  }

  function DayNumber(a: Date): int {
    DaysBeforeYear(a.y) + DaysBeforeMonth(a.y, a.m) + a.d - 1
  }

  lemma LeapStep(y: int)
    ensures LeapsBefore(y + 1) == LeapsBefore(y) + if IsLeap(y) then 1 else 0
  {
    Quotient(y, 4);
    Quotient(y, 100);
    Quotient(y, 400);
    assert y % 400 == 0 ==> y % 100 == 0 by { Multiples(y, 100, 4); }
    assert y % 100 == 0 ==> y % 4 == 0 by { Multiples(y, 4, 25); }
  }

  lemma RoundedUp(q: int, r: nat, k: nat)
    requires r < k
    ensures (q * k + r + (k - 1)) / k == q + if r == 0 then 0 else 1
  {
    if r == 0 {
      DivModUnique(q, k - 1, k);
    } else {
      MulNext(q, k);
      DivModUnique(q + 1, r - 1, k);
    }
  }

  // Rounding up steps by one just after a multiple.
  lemma Quotient(y: int, k: nat)
    requires 1 < k
    ensures (y + 1 + (k - 1)) / k == (y + (k - 1)) / k + if y % k == 0 then 1 else 0
  {
    var q, r := y / k, y % k;
    assert y == q * k + r;
    RoundedUp(q, r, k);
    MulNext(q, k);
    if r + 1 < k {
      RoundedUp(q, r + 1, k);
    } else {
      RoundedUp(q + 1, 0, k);
    }
  }

  lemma Multiples(y: int, a: int, b: int)
    requires 0 < a && 0 < b
    ensures y % (a * b) == 0 ==> y % a == 0
  {
    if y % (a * b) == 0 {
      var q := y / (a * b);
      assert y == a * b * q == (b * q) * a;
      DivModUnique(b * q, 0, a);
    }
  }

  lemma YearLength(y: int)
    ensures DaysBeforeMonth(y, 12) + 31 == if IsLeap(y) then 366 else 365
    ensures DaysBeforeMonth(y, 12) + 31 == DaysBeforeYear(y + 1) - DaysBeforeYear(y)
  {
    LeapStep(y);
    assert DaysBeforeMonth(y, 2) == 31;
    assert DaysBeforeMonth(y, 3) == 31 + DaysIn(y, 2);
    assert DaysBeforeMonth(y, 4) == 62 + DaysIn(y, 2);
    assert DaysBeforeMonth(y, 6) == 123 + DaysIn(y, 2);
    assert DaysBeforeMonth(y, 8) == 184 + DaysIn(y, 2);
    assert DaysBeforeMonth(y, 10) == 245 + DaysIn(y, 2);
    assert DaysBeforeMonth(y, 12) == 306 + DaysIn(y, 2);
  }

  lemma NextNumber(a: Date)
    requires Valid(a)
    ensures DayNumber(Next(a)) == DayNumber(a) + 1
  {
    if a.d == DaysIn(a.y, a.m) && a.m == 12 {
      YearLength(a.y);
    }
  }

  // Counting days and computing their number agree.
  lemma {:induction false} NumberOfDate(n: int)
    ensures DayNumber(ToDate(n)) == n
    decreases if n < 0 then -n else n
  {
    if n > 0 {
      NumberOfDate(n - 1);
      NextNumber(ToDate(n - 1));
    } else if n < 0 {
      NumberOfDate(n + 1);
      NextPrev(ToDate(n + 1));
      NextNumber(ToDate(n));
    }
  }

  // ---- order ----

  predicate Before(a: Date, b: Date) {
    a.y < b.y || (a.y == b.y && (a.m < b.m || (a.m == b.m && a.d < b.d)))
  }

  lemma {:induction false} MonthsGrow(y: int, m: int, n: int)
    requires 1 <= m < n <= 12
    ensures DaysBeforeMonth(y, m) + DaysIn(y, m) <= DaysBeforeMonth(y, n)
    decreases n
  {
    if m < n - 1 {
      MonthsGrow(y, m, n - 1);
    }
  }

  lemma {:induction false} YearsGrow(y: int, z: int)
    requires y <= z
    ensures DaysBeforeYear(y) + 365 * (z - y) <= DaysBeforeYear(z)
    decreases z - y
  {
    if y < z {
      YearsGrow(y, z - 1);
      LeapStep(z - 1);
    }
  }

  // The later date has the larger number.
  lemma BeforeNumber(a: Date, b: Date)
    requires Valid(a) && Valid(b)
    ensures Before(a, b) <==> DayNumber(a) < DayNumber(b)
    ensures a == b <==> DayNumber(a) == DayNumber(b)
  {
    hide DaysBeforeMonth, DaysBeforeYear, DaysIn;
    if Before(a, b) {
      StrictNumber(a, b);
    } else if Before(b, a) {
      StrictNumber(b, a);
    }
  }

  lemma StrictNumber(a: Date, b: Date)
    requires Valid(a) && Valid(b) && Before(a, b)
    ensures DayNumber(a) < DayNumber(b)
  {
    hide DaysBeforeMonth, DaysBeforeYear, DaysIn;
    if a.y < b.y {
      YearStart(a);
      YearLength(a.y);
      YearsGrow(a.y + 1, b.y);
      MonthStart(b);
    } else if a.m < b.m {
      MonthsGrow(a.y, a.m, b.m);
    }
  }

  lemma YearStart(a: Date)
    requires Valid(a)
    ensures DaysBeforeMonth(a.y, a.m) + a.d <= DaysBeforeMonth(a.y, 12) + 31
  {
    if a.m < 12 {
      MonthsGrow(a.y, a.m, 12);
    }
  }

  lemma MonthStart(a: Date)
    requires Valid(a)
    ensures 0 <= DaysBeforeMonth(a.y, a.m)
  {
    if 1 < a.m {
      MonthsGrow(a.y, 1, a.m);
    }
  }

  lemma DateOfNumber(a: Date)
    requires Valid(a)
    ensures ToDate(DayNumber(a)) == a
  {
    NumberOfDate(DayNumber(a));
    BeforeNumber(ToDate(DayNumber(a)), a);
  }

  // ---- arithmetic and weekdays ----

  // t.AddDate(0, 0, n)
  function AddDays(a: Date, n: int): (b: Date)
    ensures Valid(b)
  {
    ToDate(DayNumber(a) + n)
  }

  lemma AddDaysNumber(a: Date, n: int)
    ensures DayNumber(AddDays(a, n)) == DayNumber(a) + n
  {
    hide DayNumber, ToDate;
    NumberOfDate(DayNumber(a) + n);
  }

  // Sunday is 0, as in time.Weekday and strftime('%w').
  function Weekday(a: Date): (w: int)
    ensures 0 <= w < 7
  {
    (DayNumber(a) + 6) % 7
  }

  // Two known days fix the weekday count.
  lemma KnownDays()
    ensures Weekday(Date(2008, 7, 10)) == 4
    ensures Weekday(Date(2000, 1, 1)) == 6
  {
    assert DaysBeforeMonth(2008, 3) == 60;
    assert DaysBeforeMonth(2008, 5) == 121;
    assert DaysBeforeMonth(2008, 7) == 182;
  }

  // ---- the text form ----

  function TwoDigits(n: int): (s: string)
    requires 0 <= n <= 99
    ensures |s| == 2
  {
    [Digit(n / 10), Digit(n % 10)]
  }

  predicate HasText(a: Date) {
    0 <= a.y <= 9999 && Valid(a)
  }

  // Format("2006-01-02")
  function Format(a: Date): (s: string)
    requires HasText(a)
    ensures |s| == 10
  {
    TwoDigits(a.y / 100) + TwoDigits(a.y % 100) + "-" + TwoDigits(a.m) + "-" + TwoDigits(a.d)
  }

  // Year, month and day in decimal, in four, two and two places.
  lemma FormatDigits(a: Date)
    requires HasText(a)
    ensures var s, d := Format(a), i requires 0 <= i < 10 => Format(a)[i] as int - '0' as int;
      && s[4] == s[7] == '-' && (forall i :: 0 <= i < 10 && i != 4 && i != 7 ==> '0' <= s[i] <= '9')
      && a.y == 1000 * d(0) + 100 * d(1) + 10 * d(2) + d(3) && a.m == 10 * d(5) + d(6) && a.d == 10 * d(8) + d(9)
  {}

  lemma TwoDigitsInjective(a: int, b: int)
    requires 0 <= a <= 99 && 0 <= b <= 99 && TwoDigits(a) == TwoDigits(b)
    ensures a == b
  {
    assert TwoDigits(a)[0] == TwoDigits(b)[0] && TwoDigits(a)[1] == TwoDigits(b)[1];
  }

  lemma FormatInjective(a: Date, b: Date)
    requires HasText(a) && HasText(b) && Format(a) == Format(b)
    ensures a == b
  {
    hide TwoDigits;
    assert Format(a)[..2] == TwoDigits(a.y / 100) && Format(b)[..2] == TwoDigits(b.y / 100);
    assert Format(a)[2..4] == TwoDigits(a.y % 100) && Format(b)[2..4] == TwoDigits(b.y % 100);
    assert Format(a)[5..7] == TwoDigits(a.m) && Format(b)[5..7] == TwoDigits(b.m);
    assert Format(a)[8..10] == TwoDigits(a.d) && Format(b)[8..10] == TwoDigits(b.d);
    TwoDigitsInjective(a.y / 100, b.y / 100);
    TwoDigitsInjective(a.y % 100, b.y % 100);
    TwoDigitsInjective(a.m, b.m);
    TwoDigitsInjective(a.d, b.d);
  }

  lemma TextDigits(a: int, b: int, s: string, t: string)
    requires 0 <= a <= 99 && 0 <= b <= 99 && a != b
    ensures TextBefore(TwoDigits(a) + s, TwoDigits(b) + t) == (a < b)
  {
    var x, y := TwoDigits(a) + s, TwoDigits(b) + t;
    assert x[1..][0] == Digit(a % 10) && y[1..][0] == Digit(b % 10);
  }

  // Comparing the texts of dates compares the dates.
  lemma TextOrder(a: Date, b: Date)
    requires HasText(a) && HasText(b)
    ensures TextBefore(Format(a), Format(b)) == Before(a, b)
  {
    hide TwoDigits, TextBefore;
    var c0, d0 := TwoDigits(a.y / 100), TwoDigits(b.y / 100);
    var c1, d1 := TwoDigits(a.y % 100), TwoDigits(b.y % 100);
    var sa, sb := "-" + TwoDigits(a.m) + "-" + TwoDigits(a.d), "-" + TwoDigits(b.m) + "-" + TwoDigits(b.d);
    assert Format(a) == c0 + (c1 + sa) && Format(b) == d0 + (d1 + sb);
    if a.y / 100 != b.y / 100 {
      TextDigits(a.y / 100, b.y / 100, c1 + sa, d1 + sb);
    } else {
      TextPrefix(c0, c1 + sa, d1 + sb);
      if a.y % 100 != b.y % 100 {
        TextDigits(a.y % 100, b.y % 100, sa, sb);
      } else {
        TextPrefix(c1, sa, sb);
        MonthDayOrder(a, b);
      }
    }
  }

  lemma MonthDayOrder(a: Date, b: Date)
    requires HasText(a) && HasText(b)
    ensures TextBefore("-" + TwoDigits(a.m) + "-" + TwoDigits(a.d), "-" + TwoDigits(b.m) + "-" + TwoDigits(b.d))
      == (a.m < b.m || (a.m == b.m && a.d < b.d))
  {
    hide TwoDigits, TextBefore;
    var ta, tb := "-" + TwoDigits(a.d), "-" + TwoDigits(b.d);
    assert "-" + TwoDigits(a.m) + "-" + TwoDigits(a.d) == "-" + (TwoDigits(a.m) + ta);
    assert "-" + TwoDigits(b.m) + "-" + TwoDigits(b.d) == "-" + (TwoDigits(b.m) + tb);
    TextPrefix("-", TwoDigits(a.m) + ta, TwoDigits(b.m) + tb);
    if a.m != b.m {
      TextDigits(a.m, b.m, ta, tb);
    } else {
      TextPrefix(TwoDigits(a.m), ta, tb);
      TextPrefix("-", TwoDigits(a.d), TwoDigits(b.d));
      if a.d != b.d {
        TextDigits(a.d, b.d, "", "");
        assert TwoDigits(a.d) + "" == TwoDigits(a.d) && TwoDigits(b.d) + "" == TwoDigits(b.d);
      } else {
        SameText(TwoDigits(a.d));
      }
    }
  }
}
