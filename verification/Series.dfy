// The metrics series: SQL's grouped sums, the handler's dense fill, and their total.
module Series {
  import opened Calendar
  import opened Texts
  import opened Buckets

  // A metric_days row of one summable metric.
  datatype Row = Row(app: int, day: Date, country: string, value: int)

  // The apps in scope, each with its group key, and the asked range and bucket.
  datatype Query = Query(apps: map<int, string>, from: Date, to: Date, bucket: Bucket)

  datatype Point = Point(bucket: string, key: string, value: int)

  datatype Entry = Entry(key: string, values: seq<int>)

  predicate Distinct<T(==)>(s: seq<T>) {
    forall i, j :: 0 <= i < j < |s| ==> s[i] != s[j]
  }

  // All days of the range, and their buckets, have a YYYY-MM-DD text.
  predicate Sound(q: Query) {
    HasText(q.from) && HasText(q.to) && HasText(BucketOf(q.bucket, q.from))
  }

  // The WHERE clause; BETWEEN compares texts.
  predicate Selected(q: Query, r: Row)
    requires Sound(q) && HasText(r.day)
  {
    && r.country == "*" && r.app in q.apps
    && !TextBefore(Format(r.day), Format(q.from)) && !TextBefore(Format(q.to), Format(r.day))
  }

  // The group of a selected row: its bucket and its key.
  function GroupOf(q: Query, r: Row): (string, string)
    requires Sound(q) && HasText(r.day) && Selected(q, r)
  {
    SelectedHasText(q, r);
    (SqlBucket(q.bucket, r.day), q.apps[r.app])
  }

  lemma SelectedHasText(q: Query, r: Row)
    requires Sound(q) && HasText(r.day) && Selected(q, r)
    ensures DayNumber(q.from) <= DayNumber(r.day) <= DayNumber(q.to)
    ensures HasText(BucketOf(q.bucket, r.day))
  {
    hide DayNumber, Format, TextBefore, BucketOf, Before;
    TextOrder(r.day, q.from);
    TextOrder(q.to, r.day);
    BeforeNumber(r.day, q.from);
    BeforeNumber(q.to, r.day);
    BucketHasText(q, r.day);
  }

  // Later days have later buckets, so their years stay in reach of the text form.
  lemma BucketHasText(q: Query, a: Date)
    requires Sound(q) && HasText(a) && DayNumber(q.from) <= DayNumber(a)
    ensures HasText(BucketOf(q.bucket, a))
  {
    hide DayNumber, Before;
    OwnBucket(q.bucket, a);
    OwnBucket(q.bucket, q.from);
    if q.bucket.Week? {
      MondaysGrow(q.from, a);
      YearsFollow(Monday(q.from), Monday(a));
      YearsFollow(Monday(a), a);
    }
  }

  lemma MondaysGrow(a: Date, b: Date)
    requires DayNumber(a) <= DayNumber(b)
    ensures DayNumber(Monday(a)) <= DayNumber(Monday(b))
    ensures DayNumber(Monday(b)) <= DayNumber(b)
  {
    hide DayNumber;
    MondayNumber(a);
    MondayNumber(b);
  }

  lemma YearsFollow(a: Date, b: Date)
    requires Valid(a) && Valid(b) && DayNumber(a) <= DayNumber(b)
    ensures a.y <= b.y
  {
    hide DayNumber;
    BeforeNumber(b, a);
  }

  predicate Readable(rows: seq<Row>) {
    forall i :: 0 <= i < |rows| ==> HasText(rows[i].day)
  }

  function SumTotals(q: Query, rows: seq<Row>): int
    requires Sound(q) && Readable(rows)
  {
    if rows == [] then 0
    else
      var r := rows[|rows| - 1];
      SumTotals(q, rows[..|rows| - 1]) + if Selected(q, r) then r.value else 0
  }

  // SUM over one group
  function GroupSum(q: Query, rows: seq<Row>, group: (string, string)): int
    requires Sound(q) && Readable(rows)
  {
    if rows == [] then 0
    else
      var r := rows[|rows| - 1];
      GroupSum(q, rows[..|rows| - 1], group) + if Selected(q, r) && GroupOf(q, r) == group then r.value else 0
  }

  function Groups(points: seq<Point>): (s: seq<(string, string)>)
    ensures |s| == |points| && forall i :: 0 <= i < |s| ==> s[i] == (points[i].bucket, points[i].key)
  {
    seq(|points|, i requires 0 <= i < |points| => (points[i].bucket, points[i].key))
  }

  // What the GROUP BY query answers: one point for each group that has a row, with its sum.
  ghost predicate IsGrouping(q: Query, rows: seq<Row>, points: seq<Point>)
    requires Sound(q) && Readable(rows)
  {
    && Distinct(Groups(points))
    && (forall i :: 0 <= i < |rows| && Selected(q, rows[i]) ==> GroupOf(q, rows[i]) in Groups(points))
    && (forall j :: 0 <= j < |points| ==> HasRow(q, rows, Groups(points)[j]))
    && (forall j :: 0 <= j < |points| ==> points[j].value == GroupSum(q, rows, Groups(points)[j]))
  }

  ghost predicate HasRow(q: Query, rows: seq<Row>, group: (string, string))
    requires Sound(q) && Readable(rows)
  {
    exists i :: 0 <= i < |rows| && Selected(q, rows[i]) && GroupOf(q, rows[i]) == group
  }

  function PointSum(points: seq<Point>): int {
    if points == [] then 0 else PointSum(points[..|points| - 1]) + points[|points| - 1].value
  }

  // ---- grouping keeps the total ----

  function GroupSums(q: Query, rows: seq<Row>, groups: seq<(string, string)>): int
    requires Sound(q) && Readable(rows)
  {
    if groups == [] then 0
    else GroupSums(q, rows, groups[..|groups| - 1]) + GroupSum(q, rows, groups[|groups| - 1])
  }

  // A row adds to the one group it belongs to.
  lemma {:induction false} RowLandsOnce(q: Query, rows: seq<Row>, groups: seq<(string, string)>)
    requires Sound(q) && Readable(rows) && rows != [] && Distinct(groups)
    ensures var r := rows[|rows| - 1];
      GroupSums(q, rows, groups) == GroupSums(q, rows[..|rows| - 1], groups)
        + if Selected(q, r) && GroupOf(q, r) in groups then r.value else 0
  {
    hide Selected, GroupOf, Sound;
    if groups != [] {
      var n := |groups| - 1;
      RowLandsOnce(q, rows, groups[..n]);
      assert forall g :: g in groups <==> g in groups[..n] || g == groups[n];
      assert groups[n] !in groups[..n];
    }
  }

  lemma {:induction false} GroupsTotal(q: Query, rows: seq<Row>, groups: seq<(string, string)>)
    requires Sound(q) && Readable(rows) && Distinct(groups)
    requires forall i :: 0 <= i < |rows| && Selected(q, rows[i]) ==> GroupOf(q, rows[i]) in groups
    ensures GroupSums(q, rows, groups) == SumTotals(q, rows)
  {
    hide Selected, GroupOf, Sound;
    if rows == [] {
      NoRows(q, groups);
    } else {
      var n := |rows| - 1;
      assert forall i :: 0 <= i < n ==> rows[..n][i] == rows[i];
      GroupsTotal(q, rows[..n], groups);
      RowLandsOnce(q, rows, groups);
    }
  }

  lemma {:induction false} NoRows(q: Query, groups: seq<(string, string)>)
    requires Sound(q)
    ensures GroupSums(q, [], groups) == 0
  {
    if groups != [] {
      NoRows(q, groups[..|groups| - 1]);
    }
  }

  lemma {:induction false} PointsAreGroupSums(q: Query, rows: seq<Row>, points: seq<Point>)
    requires Sound(q) && Readable(rows)
    requires forall j :: 0 <= j < |points| ==> points[j].value == GroupSum(q, rows, Groups(points)[j])
    ensures PointSum(points) == GroupSums(q, rows, Groups(points))
  {
    hide Selected, GroupOf, Sound;
    if points != [] {
      var n := |points| - 1;
      assert Groups(points)[..n] == Groups(points[..n]);
      PointsAreGroupSums(q, rows, points[..n]);
    }
  }

  // The points of a query add up to the totals of the same range and scope.
  lemma PointsSumToTotals(q: Query, rows: seq<Row>, points: seq<Point>)
    requires Sound(q) && Readable(rows) && IsGrouping(q, rows, points)
    ensures PointSum(points) == SumTotals(q, rows)
  {
    hide Selected, GroupOf, Sound;
    PointsAreGroupSums(q, rows, points);
    GroupsTotal(q, rows, Groups(points));
  }

  // ---- the dense fill ----

  function CellSum(points: seq<Point>, key: string, bucket: string): int {
    if points == [] then 0
    else
      var p := points[|points| - 1];
      CellSum(points[..|points| - 1], key, bucket) + if p.key == key && p.bucket == bucket then p.value else 0
  }

  ghost predicate HasKey(points: seq<Point>, key: string) {
    exists i :: 0 <= i < |points| && points[i].key == key
  }

  ghost predicate IsLine(values: seq<int>, points: seq<Point>, key: string, buckets: seq<string>) {
    |values| == |buckets| && forall i :: 0 <= i < |values| ==> values[i] == CellSum(points, key, buckets[i])
  }

  ghost predicate HasEntry(out: seq<Entry>, key: string) {
    exists j :: 0 <= j < |out| && out[j].key == key
  }

  // One entry for each key, holding in each bucket's place the sum of its points.
  ghost predicate IsSeries(out: seq<Entry>, points: seq<Point>, buckets: seq<string>) {
    && (forall i, j :: 0 <= i < j < |out| ==> out[i].key != out[j].key)
    && (forall i :: 0 <= i < |points| ==> HasEntry(out, points[i].key))
    && (forall j :: 0 <= j < |out| ==> HasKey(points, out[j].key) && IsLine(out[j].values, points, out[j].key, buckets))
  }

  // buckets are the texts of the days' buckets
  ghost predicate AreTexts(buckets: seq<string>, days: seq<Date>) {
    |buckets| == |days| && forall i :: 0 <= i < |days| ==> HasText(days[i]) && buckets[i] == Format(days[i])
  }

  method BucketTexts(q: Query, days: seq<Date>) returns (buckets: seq<string>)
    requires Sound(q) && IsBucketList(days, q.from, q.to, q.bucket)
    requires days != [] ==> days[0] == BucketOf(q.bucket, q.from)
    ensures AreTexts(buckets, days) && Distinct(buckets)
  {
    hide DayNumber, BucketOf, Format;
    buckets := [];
    for i := 0 to |days|
      invariant |buckets| == i
      invariant forall j :: 0 <= j < i ==> HasText(days[j]) && buckets[j] == Format(days[j])
    {
      YearsFollow(days[0], days[i]);
      YearsFollow(days[i], q.to);
      buckets := buckets + [Format(days[i])];
    }
    forall i, j | 0 <= i < j < |buckets| ensures buckets[i] != buckets[j] {
      if buckets[i] == buckets[j] {
        FormatInjective(days[i], days[j]);
      }
    }
  }

  method Index(buckets: seq<string>) returns (idx: map<string, int>)
    requires Distinct(buckets)
    ensures forall b :: b in idx <==> b in buckets
    ensures forall b :: b in idx ==> 0 <= idx[b] < |buckets| && buckets[idx[b]] == b
  {
    idx := map[];
    for i := 0 to |buckets|
      invariant forall b :: b in idx <==> b in buckets[..i]
      invariant forall b :: b in idx ==> 0 <= idx[b] < |buckets| && buckets[idx[b]] == b
    {
      idx := idx[buckets[i] := i];
    }
  }

  ghost predicate Filled(series: map<string, seq<int>>, order: seq<string>, points: seq<Point>, buckets: seq<string>) {
    && Distinct(order)
    && (forall k :: k in order <==> k in series)
    && (forall k :: k in series <==> HasKey(points, k))
    && (forall k :: k in series ==> IsLine(series[k], points, k, buckets))
  }

  lemma {:induction false} NoPoints(points: seq<Point>, key: string, bucket: string)
    requires !HasKey(points, key)
    ensures CellSum(points, key, bucket) == 0
  {
    if points != [] {
      var n := |points| - 1;
      assert forall i :: 0 <= i < n ==> points[..n][i] == points[i];
      NoPoints(points[..n], key, bucket);
    }
  }

  lemma HasKeyStep(points: seq<Point>, p: Point)
    ensures forall k :: HasKey(points + [p], k) <==> HasKey(points, k) || k == p.key
  {
    var all := points + [p];
    assert all[|points|] == p;
    forall k | HasKey(points, k) ensures HasKey(all, k) {
      var i :| 0 <= i < |points| && points[i].key == k;
      assert all[i].key == k;
    }
  }

  lemma CellStep(points: seq<Point>, p: Point, key: string, bucket: string)
    ensures CellSum(points + [p], key, bucket)
      == CellSum(points, key, bucket) + if p.key == key && p.bucket == bucket then p.value else 0
  {
    assert (points + [p])[..|points|] == points;
  }

  // Another key's line is not touched by a point.
  lemma LineKept(values: seq<int>, points: seq<Point>, p: Point, key: string, buckets: seq<string>)
    requires IsLine(values, points, key, buckets) && p.key != key
    ensures IsLine(values, points + [p], key, buckets)
  {
    hide CellSum;
    forall i | 0 <= i < |values| ensures values[i] == CellSum(points + [p], key, buckets[i]) {
      CellStep(points, p, key, buckets[i]);
    }
  }

  // The point's own line grows at its bucket's place.
  lemma LineGrown(values: seq<int>, points: seq<Point>, p: Point, buckets: seq<string>, grown: seq<int>)
    requires IsLine(values, points, p.key, buckets) && |grown| == |values|
    requires forall i :: 0 <= i < |values| ==> grown[i] == values[i] + if buckets[i] == p.bucket then p.value else 0
    ensures IsLine(grown, points + [p], p.key, buckets)
  {
    hide CellSum;
    forall i | 0 <= i < |values| ensures grown[i] == CellSum(points + [p], p.key, buckets[i]) {
      CellStep(points, p, p.key, buckets[i]);
    }
  }

  lemma FillStep(series: map<string, seq<int>>, order: seq<string>, points: seq<Point>, buckets: seq<string>,
                 p: Point, series': map<string, seq<int>>, order': seq<string>)
    requires Filled(series, order, points, buckets)
    requires order' == if p.key in series then order else order + [p.key]
    requires series'.Keys == series.Keys + {p.key}
    requires forall k :: k in series && k != p.key ==> series'[k] == series[k]
    requires IsLine(series'[p.key], points + [p], p.key, buckets)
    ensures Filled(series', order', points + [p], buckets)
  {
    hide IsLine;
    HasKeyStep(points, p);
    forall k | k in series' ensures IsLine(series'[k], points + [p], k, buckets) {
      if k != p.key {
        LineKept(series[k], points, p, k, buckets);
      }
    }
    assert forall k :: k in order' <==> k in series' by {
      assert forall k :: k in order' <==> k in order || k == p.key;
    }
  }

  method Fill(points: seq<Point>, buckets: seq<string>) returns (series: map<string, seq<int>>, order: seq<string>)
    requires Distinct(buckets)
    ensures Filled(series, order, points, buckets)
    ensures forall i :: 0 <= i < |order| ==> order[i] in series
  {
    hide IsLine, CellSum, HasKey, Filled;
    var idx := Index(buckets);
    series, order := map[], [];
    FilledEmpty(buckets);
    for n := 0 to |points|
      invariant Filled(series, order, points[..n], buckets)
    {
      var p := points[n];
      ghost var before, listed := series, order;
      ghost var line := StartLine(series, order, points[..n], buckets, p.key);
      if p.key !in series {
        series := series[p.key := seq(|buckets|, _ => 0)];
        order := order + [p.key];
      }
      assert series[p.key] == line;
      LineLength(line, points[..n], p.key, buckets);
      if p.bucket in idx {
        var i := idx[p.bucket];
        series := series[p.key := series[p.key][i := series[p.key][i] + p.value]];
      }
      LineGrown(line, points[..n], p, buckets, series[p.key]);
      FillStep(before, listed, points[..n], buckets, p, series, order);
      assert points[..n] + [p] == points[..n + 1];
    }
    assert points[..|points|] == points;
    OrderHasLines(series, order, points, buckets);
  }

  lemma OrderHasLines(series: map<string, seq<int>>, order: seq<string>, points: seq<Point>, buckets: seq<string>)
    requires Filled(series, order, points, buckets)
    ensures forall i :: 0 <= i < |order| ==> order[i] in series
  {}

  lemma FilledEmpty(buckets: seq<string>)
    ensures Filled(map[], [], [], buckets)
  {}

  lemma LineLength(values: seq<int>, points: seq<Point>, key: string, buckets: seq<string>)
    requires IsLine(values, points, key, buckets)
    ensures |values| == |buckets|
  {}

  // The line a key has before a point is added: its own, or a new line of zeros.
  ghost function StartLine(series: map<string, seq<int>>, order: seq<string>, points: seq<Point>,
        buckets: seq<string>, key: string): (line: seq<int>)
    requires Filled(series, order, points, buckets)
    ensures IsLine(line, points, key, buckets)
    ensures line == if key in series then series[key] else seq(|buckets|, _ => 0)
  {
    if key in series then series[key]
    else
      assert forall b :: CellSum(points, key, b) == 0 by {
        forall b ensures CellSum(points, key, b) == 0 { NoPoints(points, key, b); }
      }
      seq(|buckets|, _ => 0)
  }

  method MetricsSeries(q: Query, points: seq<Point>)
    returns (ghost days: seq<Date>, buckets: seq<string>, out: seq<Entry>)
    requires Sound(q)
    ensures IsBucketList(days, q.from, q.to, q.bucket) && AreTexts(buckets, days)
    ensures IsSeries(out, points, buckets)
  {
    hide IsLine, CellSum, HasKey, DayNumber, BucketOf, Format, IsSeries, AreTexts, IsBucketList;
    var list := BucketsBetween(q.from, q.to, q.bucket);
    days := list;
    buckets := BucketTexts(q, list);
    var series, order := Fill(points, buckets);
    out := [];
    for j := 0 to |order|
      invariant |out| == j
      invariant forall i :: 0 <= i < j ==> order[i] in series && out[i] == Entry(order[i], series[order[i]])
    {
      out := out + [Entry(order[j], series[order[j]])];
    }
    EntriesAreSeries(series, order, points, buckets, out);
  }

  lemma EntriesAreSeries(series: map<string, seq<int>>, order: seq<string>, points: seq<Point>,
        buckets: seq<string>, out: seq<Entry>)
    requires Filled(series, order, points, buckets)
    requires |out| == |order| && forall i :: 0 <= i < |out| ==>
      order[i] in series && out[i] == Entry(order[i], series[order[i]])
    ensures IsSeries(out, points, buckets)
  {
    hide IsLine, HasKey;
    forall i | 0 <= i < |points| ensures HasEntry(out, points[i].key) {
      KeyHere(points, i);
      var j :| 0 <= j < |order| && order[j] == points[i].key;
      assert out[j].key == points[i].key;
    }
    forall j | 0 <= j < |out| ensures HasKey(points, out[j].key) && IsLine(out[j].values, points, out[j].key, buckets) {
      assert order[j] in series;
    }
  }

  lemma KeyHere(points: seq<Point>, i: nat)
    requires i < |points|
    ensures HasKey(points, points[i].key)
  {}

  // ---- nothing is dropped ----

  function Sum(values: seq<int>): int {
    if values == [] then 0 else Sum(values[..|values| - 1]) + values[|values| - 1]
  }

  function GrandTotal(out: seq<Entry>): int {
    if out == [] then 0 else GrandTotal(out[..|out| - 1]) + Sum(out[|out| - 1].values)
  }

  function LineSum(points: seq<Point>, key: string, buckets: seq<string>): int {
    if buckets == [] then 0
    else LineSum(points, key, buckets[..|buckets| - 1]) + CellSum(points, key, buckets[|buckets| - 1])
  }

  function GridSum(points: seq<Point>, keys: seq<string>, buckets: seq<string>): int {
    if keys == [] then 0
    else GridSum(points, keys[..|keys| - 1], buckets) + LineSum(points, keys[|keys| - 1], buckets)
  }

  lemma {:induction false} LineSumStep(points: seq<Point>, p: Point, key: string, buckets: seq<string>)
    requires Distinct(buckets)
    ensures LineSum(points + [p], key, buckets)
      == LineSum(points, key, buckets) + if p.key == key && p.bucket in buckets then p.value else 0
  {
    hide CellSum;
    if buckets != [] {
      var n := |buckets| - 1;
      LineSumStep(points, p, key, buckets[..n]);
      CellStep(points, p, key, buckets[n]);
      assert buckets == buckets[..n] + [buckets[n]];
    }
  }

  lemma {:induction false} GridSumStep(points: seq<Point>, p: Point, keys: seq<string>, buckets: seq<string>)
    requires Distinct(buckets) && Distinct(keys)
    ensures GridSum(points + [p], keys, buckets)
      == GridSum(points, keys, buckets) + if p.key in keys && p.bucket in buckets then p.value else 0
  {
    hide LineSum;
    if keys != [] {
      var n := |keys| - 1;
      GridSumStep(points, p, keys[..n], buckets);
      LineSumStep(points, p, keys[n], buckets);
      assert keys == keys[..n] + [keys[n]];
    }
  }

  lemma {:induction false} GridTotal(points: seq<Point>, keys: seq<string>, buckets: seq<string>)
    requires Distinct(buckets) && Distinct(keys)
    requires forall i :: 0 <= i < |points| ==> points[i].key in keys && points[i].bucket in buckets
    ensures GridSum(points, keys, buckets) == PointSum(points)
  {
    hide LineSum;
    if points == [] {
      EmptyGrid(keys, buckets);
    } else {
      var n := |points| - 1;
      assert forall i :: 0 <= i < n ==> points[..n][i] == points[i];
      GridTotal(points[..n], keys, buckets);
      GridSumStep(points[..n], points[n], keys, buckets);
      assert points == points[..n] + [points[n]];
    }
  }

  lemma {:induction false} EmptyLine(key: string, buckets: seq<string>)
    ensures LineSum([], key, buckets) == 0
  {
    if buckets != [] {
      EmptyLine(key, buckets[..|buckets| - 1]);
    }
  }

  lemma {:induction false} EmptyGrid(keys: seq<string>, buckets: seq<string>)
    ensures GridSum([], keys, buckets) == 0
  {
    if keys != [] {
      EmptyLine(keys[|keys| - 1], buckets);
      EmptyGrid(keys[..|keys| - 1], buckets);
    }
  }

  lemma {:induction false} LineIsLineSum(values: seq<int>, points: seq<Point>, key: string, buckets: seq<string>)
    requires IsLine(values, points, key, buckets)
    ensures Sum(values) == LineSum(points, key, buckets)
  {
    hide CellSum;
    if values != [] {
      var n := |values| - 1;
      LineIsLineSum(values[..n], points, key, buckets[..n]);
    }
  }

  function Keys(out: seq<Entry>): (s: seq<string>)
    ensures |s| == |out| && forall i :: 0 <= i < |s| ==> s[i] == out[i].key
  {
    seq(|out|, i requires 0 <= i < |out| => out[i].key)
  }

  lemma {:induction false} SeriesIsGrid(out: seq<Entry>, points: seq<Point>, buckets: seq<string>)
    requires forall j :: 0 <= j < |out| ==> IsLine(out[j].values, points, out[j].key, buckets)
    ensures GrandTotal(out) == GridSum(points, Keys(out), buckets)
  {
    hide IsLine, LineSum;
    if out != [] {
      var n := |out| - 1;
      SeriesIsGrid(out[..n], points, buckets);
      LineIsLineSum(out[n].values, points, out[n].key, buckets);
      assert Keys(out)[..n] == Keys(out[..n]);
    }
  }

  // Every point's bucket is one of the dense buckets.
  lemma PointsHaveBuckets(q: Query, rows: seq<Row>, points: seq<Point>, days: seq<Date>, buckets: seq<string>, j: nat)
    requires Sound(q) && Readable(rows) && IsGrouping(q, rows, points)
    requires IsBucketList(days, q.from, q.to, q.bucket) && AreTexts(buckets, days)
    requires j < |points|
    ensures points[j].bucket in buckets
  {
    hide Selected, DayNumber, BucketOf, Format, SqlBucket, Sound, GroupSum;
    assert HasRow(q, rows, Groups(points)[j]);
    var i :| 0 <= i < |rows| && Selected(q, rows[i]) && GroupOf(q, rows[i]) == Groups(points)[j];
    SelectedHasText(q, rows[i]);
    SqlBucketIsText(q.bucket, rows[i].day);
    var b := BucketOf(q.bucket, rows[i].day);
    assert b in days;
    var n :| 0 <= n < |days| && days[n] == b;
    assert buckets[n] == points[j].bucket;
  }

  // The dense series over all keys and buckets adds up to the totals of the range.
  lemma SeriesSumsToTotals(q: Query, rows: seq<Row>, points: seq<Point>, days: seq<Date>, buckets: seq<string>,
        out: seq<Entry>)
    requires Sound(q) && Readable(rows) && IsGrouping(q, rows, points)
    requires IsBucketList(days, q.from, q.to, q.bucket) && AreTexts(buckets, days)
    requires IsSeries(out, points, buckets)
    ensures GrandTotal(out) == SumTotals(q, rows)
  {
    hide IsGrouping, DayNumber, BucketOf, Format, Sound, IsLine, HasKey;
    assert Distinct(buckets) by {
      forall i, j | 0 <= i < j < |buckets| ensures buckets[i] != buckets[j] {
        if buckets[i] == buckets[j] {
          FormatInjective(days[i], days[j]);
        }
      }
    }
    forall i | 0 <= i < |points| ensures points[i].key in Keys(out) && points[i].bucket in buckets {
      PointsHaveBuckets(q, rows, points, days, buckets, i);
      assert HasEntry(out, points[i].key);
      var j :| 0 <= j < |out| && out[j].key == points[i].key;
      assert Keys(out)[j] == points[i].key;
    }
    SeriesIsGrid(out, points, buckets);
    GridTotal(points, Keys(out), buckets);
    PointsSumToTotals(q, rows, points);
  }

  // ---- which rows count, and where ----

  // The store's total row of an app in scope on a day of the range.
  predicate Counts(q: Query, r: Row) {
    r.country == "*" && r.app in q.apps && DayNumber(q.from) <= DayNumber(r.day) <= DayNumber(q.to)
  }

  lemma SelectedExactly(q: Query, r: Row)
    requires Sound(q) && HasText(r.day)
    ensures Selected(q, r) <==> Counts(q, r)
  {
    hide DayNumber, Format, TextBefore, BucketOf, Before;
    TextOrder(r.day, q.from);
    TextOrder(q.to, r.day);
    BeforeNumber(r.day, q.from);
    BeforeNumber(q.to, r.day);
  }

  // One more row adds its value to the totals exactly if it counts.
  lemma TotalsByRow(q: Query, rows: seq<Row>, r: Row)
    requires Sound(q) && Readable(rows) && HasText(r.day)
    ensures SumTotals(q, []) == 0
    ensures Readable(rows + [r])
    ensures SumTotals(q, rows + [r]) - SumTotals(q, rows) ==
      if r.country == "*" && r.app in q.apps && DayNumber(q.from) <= DayNumber(r.day) <= DayNumber(q.to)
      then r.value else 0
  {
    hide Selected, Sound, DayNumber;
    assert (rows + [r])[..|rows|] == rows;
    SelectedExactly(q, r);
  }

  // It adds the same to the group of its app's key and its day's bucket, and to no other.
  lemma GroupsByRow(q: Query, rows: seq<Row>, r: Row, bucket: string, key: string)
    requires Sound(q) && Readable(rows) && HasText(r.day)
    ensures GroupSum(q, [], (bucket, key)) == 0
    ensures Readable(rows + [r])
    ensures var added := GroupSum(q, rows + [r], (bucket, key)) - GroupSum(q, rows, (bucket, key));
      if r.country == "*" && r.app in q.apps && DayNumber(q.from) <= DayNumber(r.day) <= DayNumber(q.to) then
        HasText(BucketOf(q.bucket, r.day)) &&
          added == if key == q.apps[r.app] && bucket == Format(BucketOf(q.bucket, r.day)) then r.value else 0
      else added == 0
  {
    hide Selected, Sound, DayNumber, SqlBucket, BucketOf, Format;
    assert (rows + [r])[..|rows|] == rows;
    SelectedExactly(q, r);
    if Selected(q, r) {
      SelectedHasText(q, r);
      SqlBucketIsText(q.bucket, r.day);
    }
  }

  lemma {:induction false} CellOfDistinct(points: seq<Point>, bucket: string, key: string)
    requires Distinct(Groups(points))
    ensures forall j :: 0 <= j < |points| && Groups(points)[j] == (bucket, key) ==>
      CellSum(points, key, bucket) == points[j].value
    ensures (bucket, key) !in Groups(points) ==> CellSum(points, key, bucket) == 0
  {
    if points != [] {
      var n := |points| - 1;
      assert Groups(points)[..n] == Groups(points[..n]);
      CellOfDistinct(points[..n], bucket, key);
      assert forall g :: g in Groups(points) <==> g in Groups(points)[..n] || g == Groups(points)[n];
      assert Groups(points)[n] !in Groups(points)[..n];
    }
  }

  lemma {:induction false} NoRowInGroup(q: Query, rows: seq<Row>, group: (string, string))
    requires Sound(q) && Readable(rows) && !HasRow(q, rows, group)
    ensures GroupSum(q, rows, group) == 0
  {
    hide Selected, GroupOf, Sound;
    if rows != [] {
      var n := |rows| - 1;
      assert forall i :: 0 <= i < n ==> rows[..n][i] == rows[i];
      NoRowInGroup(q, rows[..n], group);
    }
  }

  lemma CellIsGroupSum(q: Query, rows: seq<Row>, points: seq<Point>, bucket: string, key: string)
    requires Sound(q) && Readable(rows) && IsGrouping(q, rows, points)
    ensures CellSum(points, key, bucket) == GroupSum(q, rows, (bucket, key))
  {
    hide Selected, GroupOf, Sound, CellSum, GroupSum;
    CellOfDistinct(points, bucket, key);
    if (bucket, key) in Groups(points) {
      var j :| 0 <= j < |points| && Groups(points)[j] == (bucket, key);
    } else {
      NoRowInGroup(q, rows, (bucket, key));
    }
  }

  // Every cell of the dense series is the sum of the rows of its key and bucket, and every
  // app with a row that counts has its line.
  lemma CellsAreGroupSums(q: Query, rows: seq<Row>, points: seq<Point>, buckets: seq<string>, out: seq<Entry>)
    requires Sound(q) && Readable(rows) && IsGrouping(q, rows, points) && IsSeries(out, points, buckets)
    ensures forall j, n :: 0 <= j < |out| && 0 <= n < |buckets| ==>
      |out[j].values| == |buckets| && out[j].values[n] == GroupSum(q, rows, (buckets[n], out[j].key))
    ensures forall i :: 0 <= i < |rows| && Counts(q, rows[i]) ==> HasEntry(out, q.apps[rows[i].app])
  {
    hide Selected, Sound, CellSum, GroupSum, IsGrouping, HasKey, DayNumber, HasEntry;
    forall j, n | 0 <= j < |out| && 0 <= n < |buckets|
      ensures |out[j].values| == |buckets| && out[j].values[n] == GroupSum(q, rows, (buckets[n], out[j].key))
    {
      CellIsGroupSum(q, rows, points, buckets[n], out[j].key);
    }
    forall i | 0 <= i < |rows| && Counts(q, rows[i]) ensures HasEntry(out, q.apps[rows[i].app]) {
      SelectedExactly(q, rows[i]);
      KeyHasPoint(q, rows, points, i);
    }
  }

  lemma KeyHasPoint(q: Query, rows: seq<Row>, points: seq<Point>, i: nat)
    requires Sound(q) && Readable(rows) && IsGrouping(q, rows, points) && i < |rows| && Selected(q, rows[i])
    ensures rows[i].app in q.apps
    ensures exists j :: 0 <= j < |points| && points[j].key == q.apps[rows[i].app]
  {
    hide Sound, GroupSum, SqlBucket;
    var j :| 0 <= j < |points| && Groups(points)[j] == GroupOf(q, rows[i]);
  }
}
