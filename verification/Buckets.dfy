// Bucketing of the metrics series: the dense bucket list of the handler against the
// bucket expressions of the SQL query.
module Buckets {
  import opened Calendar

  datatype Bucket = Day | Week | Month

  function Monday(a: Date): (b: Date)
    ensures Valid(b)
  {
    AddDays(a, -((Weekday(a) + 6) % 7))
  }

  function FirstOfMonth(a: Date): Date {
    Date(a.y, a.m, 1)
  }

  // The bucket a day belongs to.
  function BucketOf(bucket: Bucket, a: Date): Date {
    match bucket
    case Day => a
    case Week => Monday(a)
    case Month => FirstOfMonth(a)
  }

  // bucketExpr, as SQLite evaluates it on the text of a day.
  function SqlBucket(bucket: Bucket, a: Date): string
    requires HasText(a) && HasText(BucketOf(bucket, a))
  {
    match bucket
    case Day => Format(a)
    case Week => Format(Monday(a))
    case Month => Format(a)[..7] + "-01"
  }

  lemma SqlBucketIsText(bucket: Bucket, a: Date)
    requires HasText(a) && HasText(BucketOf(bucket, a))
    ensures SqlBucket(bucket, a) == Format(BucketOf(bucket, a))
  {
    hide ToDate;
    if bucket.Month? {
      assert TwoDigits(1) == "01";
      assert Format(a)[..7] == TwoDigits(a.y / 100) + TwoDigits(a.y % 100) + "-" + TwoDigits(a.m);
    }
  }

  // ---- bucketsBetween ----

  // d.AddDate(0, 1, 0) from the first of a month
  function NextMonth(a: Date): Date {
    if a.m < 12 then Date(a.y, a.m + 1, 1) else Date(a.y + 1, 1, 1)
  }

  function NextBucket(bucket: Bucket, a: Date): Date {
    match bucket
    case Day => AddDays(a, 1)
    case Week => AddDays(a, 7)
    case Month => NextMonth(a)
  }

  predicate IsBucket(bucket: Bucket, a: Date) {
    Valid(a) && BucketOf(bucket, a) == a
  }

  // A bucket starts at or before its days, and ends before the next one starts.
  ghost predicate Covers(bucket: Bucket, b: Date, a: Date) {
    DayNumber(b) <= DayNumber(a) < DayNumber(NextBucket(bucket, b))
  }

  lemma MondayNumber(a: Date)
    ensures DayNumber(Monday(a)) == DayNumber(a) - (DayNumber(a) + 5) % 7
  {
    hide DayNumber, ToDate;
    AddDaysNumber(a, -((Weekday(a) + 6) % 7));
    assert ((DayNumber(a) + 6) % 7 + 6) % 7 == (DayNumber(a) + 5) % 7;
  }

  // The Monday of a day is a Monday at most six days before it.
  lemma MondayExactly(a: Date)
    ensures Weekday(Monday(a)) == 1 && 0 <= DayNumber(a) - DayNumber(Monday(a)) < 7
  {
    hide DayNumber, ToDate;
    MondayNumber(a);
  }

  lemma NextMonthNumber(a: Date)
    requires Valid(a) && a.d == 1
    ensures DayNumber(NextMonth(a)) == DayNumber(a) + DaysIn(a.y, a.m)
    ensures Valid(NextMonth(a))
  {
    if a.m == 12 {
      YearLength(a.y);
    }
  }

  // Every day is covered by its own bucket.
  lemma OwnBucket(bucket: Bucket, a: Date)
    requires Valid(a)
    ensures IsBucket(bucket, BucketOf(bucket, a)) && Covers(bucket, BucketOf(bucket, a), a)
  {
    hide DayNumber, ToDate, Before;
    match bucket
    case Day => AddDaysNumber(a, 1);
    case Week =>
      var b := Monday(a);
      MondayNumber(a);
      MondayNumber(b);
      BeforeNumber(Monday(b), b);
      AddDaysNumber(b, 7);
    case Month =>
      NextMonthNumber(FirstOfMonth(a));
      MonthOffset(a);
  }

  lemma MonthOffset(a: Date)
    ensures DayNumber(FirstOfMonth(a)) == DayNumber(a) - (a.d - 1)
  {}

  lemma NextIsBucket(bucket: Bucket, b: Date)
    requires IsBucket(bucket, b)
    ensures IsBucket(bucket, NextBucket(bucket, b)) && DayNumber(b) < DayNumber(NextBucket(bucket, b))
  {
    hide DayNumber, ToDate, Before;
    var n := NextBucket(bucket, b);
    match bucket
    case Day => AddDaysNumber(b, 1);
    case Week =>
      AddDaysNumber(b, 7);
      MondayNumber(b);
      MondayNumber(n);
      BeforeNumber(Monday(n), n);
    case Month => NextMonthNumber(b);
  }

  // A bucket that covers a day is that day's bucket.
  lemma CoveringIsOwn(bucket: Bucket, b: Date, a: Date)
    requires Valid(a) && IsBucket(bucket, b) && Covers(bucket, b, a)
    ensures BucketOf(bucket, a) == b
  {
    hide DayNumber, ToDate, Before;
    match bucket
    case Day =>
      AddDaysNumber(b, 1);
      BeforeNumber(a, b);
    case Week =>
      MondayNumber(a);
      MondayNumber(b);
      AddDaysNumber(b, 7);
      BeforeNumber(Monday(a), b);
    case Month =>
      var c := FirstOfMonth(a);
      NextMonthNumber(b);
      NextMonthNumber(c);
      MonthOffset(a);
      MonthsApart(b, c);
      BeforeNumber(b, c);
      BeforeNumber(c, b);
  }

  // Different firsts of months are at least a month apart.
  lemma MonthsApart(b: Date, c: Date)
    requires Valid(b) && Valid(c) && b.d == 1 && c.d == 1
    ensures Before(b, c) ==> DayNumber(NextMonth(b)) <= DayNumber(c)
    ensures Before(c, b) ==> DayNumber(NextMonth(c)) <= DayNumber(b)
  {
    hide DayNumber;
    NextMonthNumber(b);
    NextMonthNumber(c);
    BeforeNumber(NextMonth(b), c);
    BeforeNumber(NextMonth(c), b);
    BeforeNumber(b, c);
    BeforeNumber(c, b);
  }

  ghost predicate Increasing(s: seq<Date>) {
    forall i, j :: 0 <= i < j < |s| ==> DayNumber(s[i]) < DayNumber(s[j])
  }

  // The buckets of the days from..to, each once and in order.
  ghost predicate IsBucketList(out: seq<Date>, from: Date, to: Date, bucket: Bucket) {
    && Increasing(out)
    && (forall a :: Valid(a) && DayNumber(from) <= DayNumber(a) <= DayNumber(to) ==> BucketOf(bucket, a) in out)
    && (forall i :: 0 <= i < |out| ==> IsBucket(bucket, out[i]) && DayNumber(out[i]) <= DayNumber(to))
  }

  // The buckets so far are those of the days from `from` up to the next bucket d.
  ghost predicate BucketsSoFar(out: seq<Date>, from: Date, to: Date, bucket: Bucket, d: Date) {
    && IsBucket(bucket, d)
    && Increasing(out)
    && (forall i :: 0 <= i < |out| ==> IsBucket(bucket, out[i]) && DayNumber(out[i]) <= DayNumber(to))
    && (forall i :: 0 <= i < |out| ==> DayNumber(out[i]) < DayNumber(d))
    && (forall a :: Valid(a) && DayNumber(from) <= DayNumber(a) < DayNumber(d) ==> BucketOf(bucket, a) in out)
    && (if out == [] then d == BucketOf(bucket, from) else out[0] == BucketOf(bucket, from))
  }

  lemma BucketStep(out: seq<Date>, from: Date, to: Date, bucket: Bucket, d: Date)
    requires BucketsSoFar(out, from, to, bucket, d) && DayNumber(d) <= DayNumber(to)
    ensures BucketsSoFar(out + [d], from, to, bucket, NextBucket(bucket, d))
  {
    hide DayNumber, BucketOf, NextBucket;
    var n := NextBucket(bucket, d);
    NextIsBucket(bucket, d);
    forall a | Valid(a) && DayNumber(from) <= DayNumber(a) < DayNumber(n) ensures BucketOf(bucket, a) in out + [d] {
      if DayNumber(a) >= DayNumber(d) {
        CoveringIsOwn(bucket, d, a);
      }
    }
  }

  lemma BucketStart(from: Date, to: Date, bucket: Bucket)
    requires Valid(from)
    ensures BucketsSoFar([], from, to, bucket, BucketOf(bucket, from))
    ensures DayNumber(BucketOf(bucket, from)) <= DayNumber(from)
  {
    hide DayNumber, BucketOf, NextBucket;
    OwnBucket(bucket, from);
  }

  method BucketsBetween(from: Date, to: Date, bucket: Bucket) returns (out: seq<Date>)
    requires Valid(from) && Valid(to)
    ensures IsBucketList(out, from, to, bucket)
    ensures DayNumber(from) <= DayNumber(to) ==> out != []
    ensures out != [] ==> out[0] == BucketOf(bucket, from)
  {
    hide DayNumber, BucketOf, NextBucket, Before, BucketsSoFar;
    out := [];
    var d := BucketOf(bucket, from);
    BucketStart(from, to, bucket);
    BucketsMeaning(out, from, to, bucket, d);
    while !Before(to, d)
      invariant Valid(d) && BucketsSoFar(out, from, to, bucket, d)
      invariant out == [] ==> DayNumber(d) <= DayNumber(from)
      decreases DayNumber(to) - DayNumber(d)
    {
      BeforeNumber(to, d);
      BucketStep(out, from, to, bucket, d);
      BucketsMeaning(out, from, to, bucket, d);
      NextIsBucket(bucket, d);
      NextBucketIs(bucket, d);
      out := out + [d];
      match bucket {
        case Day => d := AddDays(d, 1);
        case Week => d := AddDays(d, 7);
        case Month => d := NextMonth(d);
      }
    }
    BeforeNumber(to, d);
    BucketsMeaning(out, from, to, bucket, d);
  }

  // Once the next bucket is past `to`, the list is complete.
  lemma BucketsMeaning(out: seq<Date>, from: Date, to: Date, bucket: Bucket, d: Date)
    requires BucketsSoFar(out, from, to, bucket, d)
    ensures IsBucket(bucket, d)
    ensures out != [] ==> out[0] == BucketOf(bucket, from)
    ensures DayNumber(to) < DayNumber(d) ==> IsBucketList(out, from, to, bucket)
  {
    hide DayNumber, BucketOf;
  }

  lemma NextBucketIs(bucket: Bucket, a: Date)
    ensures NextBucket(bucket, a) ==
      match bucket case Day => AddDays(a, 1) case Week => AddDays(a, 7) case Month => NextMonth(a)
  {}

  // Each day's SQL bucket is the text of exactly one bucket of the list.
  lemma SqlBucketOccursOnce(out: seq<Date>, from: Date, to: Date, bucket: Bucket, a: Date)
    requires IsBucketList(out, from, to, bucket)
    requires HasText(a) && HasText(BucketOf(bucket, a)) && DayNumber(from) <= DayNumber(a) <= DayNumber(to)
    requires forall i :: 0 <= i < |out| ==> HasText(out[i])
    ensures exists i :: 0 <= i < |out| && Format(out[i]) == SqlBucket(bucket, a)
    ensures forall i, j ::
      0 <= i < |out| && 0 <= j < |out| && Format(out[i]) == SqlBucket(bucket, a) == Format(out[j]) ==> i == j
  {
    hide DayNumber, Format, BucketOf, SqlBucket, Monday;
    SqlBucketIsText(bucket, a);
    assert BucketOf(bucket, a) in out;
    forall i, j | 0 <= i < |out| && 0 <= j < |out| && Format(out[i]) == Format(out[j]) ensures i == j {
      FormatInjective(out[i], out[j]);
    }
  }
}
