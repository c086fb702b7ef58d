// The date range of a request and the equally long period before it.
module RangeParams {
  import opened Arithmetic
  import opened Calendar
  import opened Texts
  import opened Wrappers

  // Whole days in the longest time.Duration.
  const LONGEST := 106751

  datatype Range = Range(from: string, to: string, prevFrom: string, prevTo: string)

  // ---- reading days ----

  predicate IsDigit(c: char) {
    '0' <= c <= '9'
  }

  function Value(c: char): (n: int)
    requires IsDigit(c)
    ensures 0 <= n <= 9
  {
    c as int - '0' as int
  }

  function TwoValue(c: char, d: char): (n: int)
    requires IsDigit(c) && IsDigit(d)
    ensures 0 <= n <= 99
  {
    10 * Value(c) + Value(d)
  }

  predicate LooksLikeDay(s: string) {
    && |s| == 10 && s[4] == '-' && s[7] == '-'
    && forall i :: 0 <= i < 10 && i != 4 && i != 7 ==> IsDigit(s[i])
  }

  // time.Parse("2006-01-02", s)
  function ParseDay(s: string): Option<Date> {
    if !LooksLikeDay(s) then None
    else
      var a := Date(100 * TwoValue(s[0], s[1]) + TwoValue(s[2], s[3]), TwoValue(s[5], s[6]), TwoValue(s[8], s[9]));
      if Valid(a) then Some(a) else None
  }

  lemma DigitsRead(n: int)
    requires 0 <= n <= 99
    ensures IsDigit(TwoDigits(n)[0]) && IsDigit(TwoDigits(n)[1])
    ensures TwoValue(TwoDigits(n)[0], TwoDigits(n)[1]) == n
  {}

  lemma FormatShape(a: Date)
    requires HasText(a)
    ensures Format(a)[..2] == TwoDigits(a.y / 100) && Format(a)[2..4] == TwoDigits(a.y % 100)
    ensures Format(a)[5..7] == TwoDigits(a.m) && Format(a)[8..10] == TwoDigits(a.d)
    ensures Format(a)[4] == '-' && Format(a)[7] == '-'
  {
    hide TwoDigits, Valid;
  }

  lemma DigitPair(s: string, i: nat, n: int)
    requires i + 2 <= |s| && 0 <= n <= 99 && s[i..i + 2] == TwoDigits(n)
    ensures IsDigit(s[i]) && IsDigit(s[i + 1]) && TwoValue(s[i], s[i + 1]) == n
  {
    assert s[i..i + 2][0] == s[i] && s[i..i + 2][1] == s[i + 1];
    DigitsRead(n);
  }

  lemma ParseFormat(a: Date)
    requires HasText(a)
    ensures ParseDay(Format(a)) == Some(a)
  {
    hide TwoDigits, TwoValue, IsDigit, Format;
    FormatShape(a);
    DigitPair(Format(a), 0, a.y / 100);
    DigitPair(Format(a), 2, a.y % 100);
    DigitPair(Format(a), 5, a.m);
    DigitPair(Format(a), 8, a.d);
  }

  lemma DigitsWrite(c: char, d: char)
    requires IsDigit(c) && IsDigit(d)
    ensures TwoDigits(TwoValue(c, d)) == [c, d]
  {
    assert (10 * Value(c) + Value(d)) / 10 == Value(c) && (10 * Value(c) + Value(d)) % 10 == Value(d);
  }

  lemma ParsedIsFormatted(s: string)
    requires ParseDay(s).Some?
    ensures HasText(ParseDay(s).value) && Format(ParseDay(s).value) == s
  {
    hide TwoDigits, TwoValue, IsDigit;
    DigitsWrite(s[0], s[1]);
    DigitsWrite(s[2], s[3]);
    DigitsWrite(s[5], s[6]);
    DigitsWrite(s[8], s[9]);
    var y0, y1 := TwoValue(s[0], s[1]), TwoValue(s[2], s[3]);
    assert (100 * y0 + y1) / 100 == y0 && (100 * y0 + y1) % 100 == y1;
    var t := [s[0], s[1]] + [s[2], s[3]] + "-" + [s[5], s[6]] + "-" + [s[8], s[9]];
    assert t == s;
  }

  // ---- writing days, also before year 0 ----

  predicate Printable(a: Date) {
    -9999 <= a.y <= 9999 && Valid(a)
  }

  lemma MirrorMultiple(y: int, k: int)
    requires 0 < k && y % k == 0
    ensures (-y) % k == 0
  {
    DivModUnique(-(y / k), 0, k);
  }

  lemma MirrorLeap(y: int)
    requires IsLeap(y)
    ensures IsLeap(-y)
  {
    MirrorMultiple(y, 4);
    if y % 400 == 0 {
      MirrorMultiple(y, 400);
    }
    if (-y) % 100 == 0 {
      MirrorMultiple(-y, 100);
    }
  }

  lemma Mirror(a: Date)
    requires Printable(a) && a.y < 0
    ensures HasText(a.(y := -a.y))
  {
    hide IsLeap;
    if IsLeap(a.y) {
      MirrorLeap(a.y);
    }
  }

  // t.Format("2006-01-02")
  function Text(a: Date): string
    requires Printable(a)
  {
    if 0 <= a.y then Format(a) else
      Mirror(a);
      "-" + Format(a.(y := -a.y))
  }

  lemma TextInjective(a: Date, b: Date)
    requires Printable(a) && Printable(b) && Text(a) == Text(b)
    ensures a == b
  {
    hide Format, Valid;
    if 0 <= a.y {
      FormatInjective(a, b);
    } else {
      Mirror(a);
      Mirror(b);
      assert Text(a)[1..] == Format(a.(y := -a.y)) && Text(b)[1..] == Format(b.(y := -b.y));
      FormatInjective(a.(y := -a.y), b.(y := -b.y));
    }
  }

  // ---- rangeParams ----

  // time.Parse's result when the error is dropped: the zero time on failure.
  function ParseOrZero(s: string): (a: Date)
    ensures Valid(a) && 0 <= a.y <= 9999
  {
    match ParseDay(s)
    case Some(a) => ParsedIsFormatted(s); a
    case None => Date(1, 1, 1)
  }

  // Days between two midnights as a Duration counts them: it stops at its largest value.
  function DaysBetween(f: Date, t: Date): int {
    var n := DayNumber(t) - DayNumber(f);
    if n > LONGEST then LONGEST else if n < -LONGEST then -LONGEST else n
  }

  // Going back up to four centuries stays printable, and so does a year after the zero time.
  lemma NearIsPrintable(a: Date, n: int)
    requires Valid(a) && 0 <= a.y <= 9999 && -146097 <= n
    requires n <= 0 || (a == Date(1, 1, 1) && n <= 366)
    ensures Printable(AddDays(a, n))
  {
    hide Before, DayNumber, ToDate;
    var b := AddDays(a, n);
    AddDaysNumber(a, n);
    if b.y < -401 {
      FarYears(b, a);
    } else if 9999 < b.y {
      LateYears(b, a, n);
    }
  }

  lemma YearFloor(b: Date)
    requires Valid(b)
    ensures DaysBeforeYear(b.y) <= DayNumber(b) < DaysBeforeYear(b.y + 1)
  {
    MonthStart(b);
    YearStart(b);
    YearLength(b.y);
  }

  lemma FarYears(b: Date, a: Date)
    requires Valid(a) && Valid(b) && b.y < -401 && 0 <= a.y
    ensures DayNumber(b) < DayNumber(a) - 146097
  {
    hide DayNumber;
    YearFloor(b);
    YearFloor(a);
    YearsGrow(b.y + 1, -401);
    YearsGrow(0, a.y);
  }

  lemma LateYears(b: Date, a: Date, n: int)
    requires Valid(a) && Valid(b) && 9999 < b.y
    requires (n <= 0 && a.y <= 9999) || (a == Date(1, 1, 1) && n <= 366)
    ensures DayNumber(a) + n < DayNumber(b)
  {
    hide DayNumber;
    YearFloor(b);
    YearFloor(a);
    if n <= 0 {
      YearsGrow(a.y + 1, b.y);
    } else {
      YearsGrow(2, b.y);
    }
  }

  function ToText(toParam: string, yesterday: Date): string
    requires HasText(yesterday)
  {
    if ParseDay(toParam).Some? then toParam else Format(yesterday)
  }

  function FromText(fromParam: string, to: string): string {
    if ParseDay(fromParam).Some? then fromParam
    else
      NearIsPrintable(ParseOrZero(to), -29);
      Text(AddDays(ParseOrZero(to), -29))
  }

  function RangeOf(fromParam: string, toParam: string, yesterday: Date): Range
    requires HasText(yesterday)
  {
    var to := ToText(toParam, yesterday);
    var from := FromText(fromParam, to);
    TextsAreAsked(fromParam, toParam, yesterday);
    if TextBefore(to, from) then WithPrevious(to, from) else WithPrevious(from, to)
  }

  // The days the previous period is computed from can be printed.
  predicate Countable(from: string, to: string) {
    var f, t := ParseOrZero(from), ParseOrZero(to);
    DayNumber(f) <= DayNumber(t) || (f == Date(1, 1, 1) && DayNumber(f) <= DayNumber(t) + 366)
  }

  function WithPrevious(from: string, to: string): Range
    requires Countable(from, to)
  {
    var f, t := ParseOrZero(from), ParseOrZero(to);
    var days := DaysBetween(f, t) + 1;
    NearIsPrintable(f, -days);
    NearIsPrintable(f, -1);
    Range(from, to, Text(AddDays(f, -days)), Text(AddDays(f, -1)))
  }

  // ---- what was asked for ----

  function AskedTo(toParam: string, yesterday: Date): (a: Date)
    requires HasText(yesterday)
    ensures HasText(a)
  {
    match ParseDay(toParam)
    case Some(a) => ParsedIsFormatted(toParam); a
    case None => yesterday
  }

  function AskedFrom(fromParam: string, toParam: string, yesterday: Date): (a: Date)
    requires HasText(yesterday)
    ensures Printable(a)
  {
    match ParseDay(fromParam)
    case Some(a) => ParsedIsFormatted(fromParam); a
    case None =>
      NearIsPrintable(AskedTo(toParam, yesterday), -29);
      AddDays(AskedTo(toParam, yesterday), -29)
  }

  function First(fromParam: string, toParam: string, yesterday: Date): (a: Date)
    requires HasText(yesterday)
    ensures Printable(a)
  {
    var f, t := AskedFrom(fromParam, toParam, yesterday), AskedTo(toParam, yesterday);
    if Before(t, f) then t else f
  }

  function Last(fromParam: string, toParam: string, yesterday: Date): (a: Date)
    requires HasText(yesterday)
    ensures HasText(a)
  {
    var f, t := AskedFrom(fromParam, toParam, yesterday), AskedTo(toParam, yesterday);
    if Before(t, f) then f else t
  }

  lemma ToIsAsked(toParam: string, yesterday: Date)
    requires HasText(yesterday)
    ensures ToText(toParam, yesterday) == Format(AskedTo(toParam, yesterday))
    ensures ParseOrZero(ToText(toParam, yesterday)) == AskedTo(toParam, yesterday)
  {
    hide ParseDay, Format;
    if ParseDay(toParam).Some? {
      ParsedIsFormatted(toParam);
    } else {
      ParseFormat(yesterday);
    }
  }

  // The texts compared are those of the asked days, and comparing them compares the days.
  lemma TextsAreAsked(fromParam: string, toParam: string, yesterday: Date)
    requires HasText(yesterday)
    ensures var to := ToText(toParam, yesterday); var from := FromText(fromParam, to);
      var f, t := AskedFrom(fromParam, toParam, yesterday), AskedTo(toParam, yesterday);
      && from == Text(f) && to == Text(t) && TextBefore(to, from) == Before(t, f)
      && (if Before(t, f) then Countable(to, from) else Countable(from, to))
  {
    hide ParseDay, Format, TextBefore, Before, DayNumber, ToDate;
    var f, t := AskedFrom(fromParam, toParam, yesterday), AskedTo(toParam, yesterday);
    ToIsAsked(toParam, yesterday);
    BeforeNumber(t, f);
    if ParseDay(fromParam).Some? {
      ParsedIsFormatted(fromParam);
      TextOrder(t, f);
    } else {
      AddDaysNumber(t, -29);
      if 0 <= f.y {
        TextOrder(t, f);
        ParseFormat(f);
      } else {
        NegativeText(f, t);
      }
    }
  }

  // A day before year 0 comes first as a text too, but cannot be read back.
  lemma NegativeText(f: Date, t: Date)
    requires Printable(f) && f.y < 0 && HasText(t)
    ensures ParseDay(Text(f)).None? && !TextBefore(Format(t), Text(f))
    ensures DayNumber(Date(1, 1, 1)) == 366 && 0 <= DayNumber(t)
  {
    hide DayNumber, Format, Valid, TwoDigits;
    FormatShape(t);
    assert Format(t)[0] == Format(t)[..2][0];
    DigitsRead(t.y / 100);
    assert |Text(f)| == 11 && Text(f)[0] == '-';
    NumberFromYearZero(t);
    DayOne();
  }

  lemma YearZero()
    ensures DaysBeforeYear(0) == 0
  {}

  lemma NumberFromYearZero(t: Date)
    requires Valid(t)
    ensures 0 <= t.y ==> 0 <= DayNumber(t)
    ensures t.y < 0 ==> DayNumber(t) < 0
  {
    hide DayNumber, DaysBeforeYear;
    YearFloor(t);
    assert DaysBeforeYear(0) == 0 by { YearZero(); }
    if 0 <= t.y {
      YearsGrow(0, t.y);
    } else {
      YearsGrow(t.y + 1, 0);
    }
  }

  lemma DayOne()
    ensures DayNumber(Date(1, 1, 1)) == 366
  {}

  // The days asked for: a parameter that is the text of a day means that day; without one the
  // last day is yesterday, and the first 29 days before the last. They are put in order.
  lemma AskedExactly(fromParam: string, toParam: string, yesterday: Date)
    requires HasText(yesterday)
    ensures forall a :: HasText(a) && Format(a) == toParam ==> AskedTo(toParam, yesterday) == a
    ensures (forall a :: HasText(a) ==> Format(a) != toParam) ==> AskedTo(toParam, yesterday) == yesterday
    ensures forall a :: HasText(a) && Format(a) == fromParam ==> AskedFrom(fromParam, toParam, yesterday) == a
    ensures (forall a :: HasText(a) ==> Format(a) != fromParam) ==>
      DayNumber(AskedFrom(fromParam, toParam, yesterday)) == DayNumber(AskedTo(toParam, yesterday)) - 29
    ensures var f, t := AskedFrom(fromParam, toParam, yesterday), AskedTo(toParam, yesterday);
      && DayNumber(First(fromParam, toParam, yesterday)) == Min(DayNumber(f), DayNumber(t))
      && DayNumber(Last(fromParam, toParam, yesterday)) == Max(DayNumber(f), DayNumber(t))
  {
    hide ParseDay, Format, DayNumber, ToDate, Before;
    forall a | HasText(a) ensures ParseDay(Format(a)) == Some(a) {
      ParseFormat(a);
    }
    if ParseDay(toParam).Some? {
      ParsedIsFormatted(toParam);
    }
    if ParseDay(fromParam).Some? {
      ParsedIsFormatted(fromParam);
    }
    AddDaysNumber(AskedTo(toParam, yesterday), -29);
    BeforeNumber(AskedTo(toParam, yesterday), AskedFrom(fromParam, toParam, yesterday));
  }

  // The longest Duration is 2^63 - 1 nanoseconds.
  lemma LongestDuration()
    ensures LONGEST * 86_400_000_000_000 <= 0x7FFF_FFFF_FFFF_FFFF < (LONGEST + 1) * 86_400_000_000_000
  {}

  // ---- the preceding period ----

  ghost predicate IsPreceded(r: Range, f: Date, t: Date, pf: Date, pt: Date) {
    && Printable(f) && Printable(t) && Printable(pf) && Printable(pt)
    && r == Range(Text(f), Text(t), Text(pf), Text(pt))
    && DayNumber(f) <= DayNumber(t)
    && DayNumber(pt) == DayNumber(f) - 1
    && DayNumber(pt) - DayNumber(pf) == DayNumber(t) - DayNumber(f)
  }

  // A range, and the period of equally many days that ends the day before it.
  ghost predicate HasPreceding(r: Range) {
    exists f, t, pf, pt :: IsPreceded(r, f, t, pf, pt)
  }

  lemma WithPreviousMeaning(f: Date, t: Date)
    requires HasText(f) && HasText(t) && DayNumber(f) <= DayNumber(t)
    ensures Countable(Text(f), Text(t))
    ensures var r := WithPrevious(Text(f), Text(t));
      var days := DaysBetween(f, t) + 1;
      && Printable(AddDays(f, -days)) && Printable(AddDays(f, -1))
      && r == Range(Text(f), Text(t), Text(AddDays(f, -days)), Text(AddDays(f, -1)))
  {
    hide ParseDay, Format, DayNumber, ToDate;
    ParseFormat(f);
    ParseFormat(t);
    NearIsPrintable(f, -(DaysBetween(f, t) + 1));
    NearIsPrintable(f, -1);
  }

  lemma PrecedingExists(f: Date, t: Date)
    requires HasText(f) && HasText(t) && 0 <= DayNumber(t) - DayNumber(f) <= LONGEST
    ensures Countable(Text(f), Text(t)) && HasPreceding(WithPrevious(Text(f), Text(t)))
  {
    hide Format, DayNumber, ToDate, WithPrevious, Countable;
    WithPreviousMeaning(f, t);
    var days := DaysBetween(f, t) + 1;
    AddDaysNumber(f, -days);
    AddDaysNumber(f, -1);
    assert IsPreceded(WithPrevious(Text(f), Text(t)), f, t, AddDays(f, -days), AddDays(f, -1));
  }

  lemma PrecedingIsNear(f: Date, t: Date)
    requires HasText(f) && HasText(t) && DayNumber(f) <= DayNumber(t)
    requires Countable(Text(f), Text(t)) && HasPreceding(WithPrevious(Text(f), Text(t)))
    ensures DayNumber(t) - DayNumber(f) <= LONGEST
  {
    hide Format, Text, DayNumber, ToDate, WithPrevious, Countable;
    WithPreviousMeaning(f, t);
    var days := DaysBetween(f, t) + 1;
    AddDaysNumber(f, -days);
    AddDaysNumber(f, -1);
    var g, u, pf, pt :| IsPreceded(WithPrevious(Text(f), Text(t)), g, u, pf, pt);
    TextInjective(f, g);
    TextInjective(t, u);
    TextInjective(AddDays(f, -days), pf);
    TextInjective(AddDays(f, -1), pt);
  }

  // From a day that cannot be read back, the previous period is counted from the zero time.
  lemma PrecedingIsLost(f: Date, t: Date)
    requires Printable(f) && f.y < 0 && HasText(t) && Countable(Text(f), Text(t))
    ensures !HasPreceding(WithPrevious(Text(f), Text(t)))
  {
    hide Format, Text, DayNumber, ToDate, Countable, Valid;
    var r := WithPrevious(Text(f), Text(t));
    if HasPreceding(r) {
      var g, u, pf, pt :| IsPreceded(r, g, u, pf, pt);
      TextInjective(f, g);
      LostStart(f, t);
      TextInjective(AddDays(Date(1, 1, 1), -1), pt);
      NumberFromYearZero(f);
      assert false;
    }
  }

  lemma LostStart(f: Date, t: Date)
    requires Printable(f) && f.y < 0 && HasText(t) && Countable(Text(f), Text(t))
    ensures Printable(AddDays(Date(1, 1, 1), -1)) && DayNumber(AddDays(Date(1, 1, 1), -1)) == 365
    ensures WithPrevious(Text(f), Text(t)).prevTo == Text(AddDays(Date(1, 1, 1), -1))
  {
    hide Format, Text, DayNumber, ToDate, ParseDay;
    NegativeText(f, t);
    NearIsPrintable(Date(1, 1, 1), -1);
    AddDaysNumber(Date(1, 1, 1), -1);
  }

  // The range runs between the asked days in order; the period before it is as long, and
  // ends the day before, just when the range is short enough for a Duration and starts in
  // or after year 0.
  lemma RangeIsPreceded(fromParam: string, toParam: string, yesterday: Date)
    requires HasText(yesterday)
    ensures var f, t := First(fromParam, toParam, yesterday), Last(fromParam, toParam, yesterday);
      var r := RangeOf(fromParam, toParam, yesterday);
      && DayNumber(f) <= DayNumber(t) && r.from == Text(f) && r.to == Text(t)
      && (HasPreceding(r) <==> 0 <= f.y && DayNumber(t) - DayNumber(f) <= LONGEST)
  {
    hide ParseDay, Format, TextBefore, Before, DayNumber, ToDate, ToText, FromText, AskedFrom, AskedTo,
      HasPreceding, Countable;
    var f, t := First(fromParam, toParam, yesterday), Last(fromParam, toParam, yesterday);
    TextsAreAsked(fromParam, toParam, yesterday);
    BeforeNumber(AskedTo(toParam, yesterday), AskedFrom(fromParam, toParam, yesterday));
    assert RangeOf(fromParam, toParam, yesterday) == WithPrevious(Text(f), Text(t));
    if f.y < 0 {
      PrecedingIsLost(f, t);
    } else if DayNumber(t) - DayNumber(f) <= LONGEST {
      PrecedingExists(f, t);
    } else if HasPreceding(WithPrevious(Text(f), Text(t))) {
      PrecedingIsNear(f, t);
    }
  }

  // The defaults: the 30 days that end yesterday.
  lemma DefaultRange(yesterday: Date)
    requires HasText(yesterday)
    ensures Last("", "", yesterday) == yesterday
    ensures DayNumber(First("", "", yesterday)) == DayNumber(yesterday) - 29
  {
    hide DayNumber, ToDate;
    AddDaysNumber(yesterday, -29);
    BeforeNumber(yesterday, AddDays(yesterday, -29));
  }

  // A range of three centuries is too long for a Duration.
  lemma LongRangeLosesDays(yesterday: Date)
    requires HasText(yesterday)
    ensures !HasPreceding(RangeOf("1700-01-01", "2024-01-01", yesterday))
  {
    hide HasPreceding, RangeOf, DayNumber, Before, DaysBeforeYear;
    var f, t := Date(1700, 1, 1), Date(2024, 1, 1);
    assert ParseDay("1700-01-01") == Some(f);
    assert ParseDay("2024-01-01") == Some(t);
    RangeIsPreceded("1700-01-01", "2024-01-01", yesterday);
    assert !Before(t, f) by { Earlier(f, t); }
    NewYear(f);
    NewYear(t);
    YearsGrow(1700, 2024);
  }

  lemma Earlier(f: Date, t: Date)
    requires f.y < t.y
    ensures !Before(t, f)
  {}

  lemma NewYear(a: Date)
    requires a.m == 1 && a.d == 1
    ensures DayNumber(a) == DaysBeforeYear(a.y)
  {}

  // The 30 days that end early in year 0 start before it.
  lemma EarlyRangeLosesDays(yesterday: Date)
    requires HasText(yesterday)
    ensures !HasPreceding(RangeOf("", "0000-01-05", yesterday))
  {
    hide HasPreceding, RangeOf, DayNumber, Before, ToDate, DaysBeforeYear;
    var t := Date(0, 1, 5);
    assert ParseDay("0000-01-05") == Some(t) && ParseDay("") == None;
    var f := AskedFrom("", "0000-01-05", yesterday);
    RangeIsPreceded("", "0000-01-05", yesterday);
    AddDaysNumber(t, -29);
    assert DayNumber(t) == 4 by { FifthDay(); }
    NumberFromYearZero(f);
    BeforeNumber(t, f);
  }

  lemma FifthDay()
    ensures DayNumber(Date(0, 1, 5)) == 4
  {}
}
