// Ingesting one report instance: each segment is folded on its own, then all rows are upserted.
module AppStoreIngest {
  import F = AppStoreFold
  import opened MetricStore

  // A folded row as a table row; a report carries no active devices and no ANRs.
  function MetricsOf(c: F.Counts): Metrics {
    Metrics(c.downloads, c.redownloads, c.updates, c.uninstalls, 0, c.crashes, 0)
  }

  function TableKey(app: int, k: F.Key): Key<string> {
    Key(app, k.day, k.country)
  }

  function ToRow(m: F.MetricDay): MetricDay<string> {
    MetricDay(TableKey(m.app, m.key), MetricsOf(m.counts))
  }

  function ToRows(days: seq<F.MetricDay>): (rows: seq<MetricDay<string>>)
    ensures |rows| == |days| && forall i :: 0 <= i < |rows| ==> rows[i] == ToRow(days[i])
  {
    seq(|days|, i requires 0 <= i < |days| => ToRow(days[i]))
  }

  // The rows of one segment, in some order: its sum for each day and country it counts.
  ghost predicate IsFolded(rows: seq<MetricDay<string>>, app: int, segment: seq<F.Row>, from: string) {
    && (forall i :: 0 <= i < |rows| ==> IsSum(rows[i], app, segment, from))
    && (forall i, j :: 0 <= i < j < |rows| ==> rows[i].key != rows[j].key)
    && (forall k :: F.HasRow(segment, from, k) ==> HasKey(rows, TableKey(app, k)))
  }

  ghost predicate IsSum(r: MetricDay<string>, app: int, segment: seq<F.Row>, from: string) {
    var k := F.Key(r.key.day, r.key.country);
    r.key.app == app && F.HasRow(segment, from, k) && r.metrics == MetricsOf(F.SumFor(segment, from, k))
  }

  ghost predicate HasKey(rows: seq<MetricDay<string>>, key: Key<string>) {
    exists i :: 0 <= i < |rows| && rows[i].key == key
  }

  ghost predicate AreFolded(parts: seq<seq<MetricDay<string>>>, app: int, segments: seq<seq<F.Row>>, from: string) {
    |parts| == |segments| && forall i :: 0 <= i < |parts| ==> IsFolded(parts[i], app, segments[i], from)
  }

  function Concat<T>(parts: seq<seq<T>>): seq<T> {
    if parts == [] then [] else Concat(parts[..|parts| - 1]) + parts[|parts| - 1]
  }

  lemma ConcatSnoc<T>(parts: seq<seq<T>>, part: seq<T>)
    ensures Concat(parts + [part]) == Concat(parts) + part
  {
    assert (parts + [part])[..|parts|] == parts;
  }

  lemma FoldIsFolded(out: seq<F.MetricDay>, acc: F.Acc, app: int, segment: seq<F.Row>, from: string)
    requires F.IsFold(acc, segment, from) && F.Lists(out, app, acc)
    ensures IsFolded(ToRows(out), app, segment, from)
  {
    hide F.SumFor, F.HasRow;
    var rows := ToRows(out);
    forall i | 0 <= i < |rows| ensures IsSum(rows[i], app, segment, from) {
      assert out[i].key == F.Key(out[i].key.day, out[i].key.country);
    }
    forall k | F.HasRow(segment, from, k) ensures HasKey(rows, TableKey(app, k)) {
      assert k in acc;
      var i :| 0 <= i < |out| && out[i].key == k;
      assert rows[i].key == TableKey(app, k);
    }
  }

  // ingestReport, for one instance: what its segments fold to is upserted in one batch.
  method IngestInstance(store: Store<string>, app: int, segments: seq<seq<F.Row>>, from: string, cols: MetricCols)
    returns (ghost parts: seq<seq<MetricDay<string>>>, n: nat)
    modifies store
    ensures AreFolded(parts, app, segments, from)
    ensures store.metricDays == Upsert(old(store.metricDays), Concat(parts), cols)
    ensures n == |Concat(parts)|
  {
    hide F.IsFold, F.Lists, IsFolded;
    var rows := [];
    parts := [];
    for i := 0 to |segments|
      invariant AreFolded(parts, app, segments[..i], from)
      invariant rows == Concat(parts)
      invariant store.metricDays == old(store.metricDays)
    {
      var out, unknown := F.ToMetricDays(app, segments[i], from);
      ghost var acc :| F.IsFold(acc, segments[i], from) && F.Lists(out, app, acc);
      FoldIsFolded(out, acc, app, segments[i], from);
      ConcatSnoc(parts, ToRows(out));
      parts := parts + [ToRows(out)];
      rows := rows + ToRows(out);
    }
    assert segments[..|segments|] == segments;
    n := 0;
    if rows != [] {
      n := store.UpsertMetricDays(rows, cols);
    } else {
      NothingUpserted(store.metricDays, rows, cols);
    }
  }

  lemma NothingUpserted(t: Table<string>, rows: seq<MetricDay<string>>, cols: MetricCols)
    requires rows == []
    ensures Upsert(t, rows, cols) == t
  {}

  // ---- what the table shows of an instance ----

  // The last segment that counts something for a day and country.
  ghost function LastSegment(segments: seq<seq<F.Row>>, from: string, k: F.Key): (i: int)
    ensures -1 <= i < |segments|
  {
    if segments == [] then -1
    else if F.HasRow(segments[|segments| - 1], from, k) then |segments| - 1
    else LastSegment(segments[..|segments| - 1], from, k)
  }

  // One column of what some rows count for a day and country.
  function Amount(rows: seq<F.Row>, from: string, k: F.Key, c: Column): int {
    Get(MetricsOf(F.SumFor(rows, from, k)), c)
  }

  // The columns of the table are the sums of the fold, one for one.
  lemma AmountsAreSums(rows: seq<F.Row>, from: string, k: F.Key)
    ensures Amount(rows, from, k, Downloads) == F.SumFor(rows, from, k).downloads
    ensures Amount(rows, from, k, Redownloads) == F.SumFor(rows, from, k).redownloads
    ensures Amount(rows, from, k, Updates) == F.SumFor(rows, from, k).updates
    ensures Amount(rows, from, k, Uninstalls) == F.SumFor(rows, from, k).uninstalls
    ensures Amount(rows, from, k, Crashes) == F.SumFor(rows, from, k).crashes
    ensures Amount(rows, from, k, ActiveDevices) == Amount(rows, from, k, Anrs) == 0
  {}

  lemma {:induction false} LastForJoined(a: seq<MetricDay<string>>, b: seq<MetricDay<string>>, key: Key<string>)
    ensures LastFor(a + b, key) == if LastFor(b, key) >= 0 then |a| + LastFor(b, key) else LastFor(a, key)
  {
    if b == [] {
      assert a + b == a;
    } else {
      assert (a + b)[..|a + b| - 1] == a + b[..|b| - 1];
      LastForJoined(a, b[..|b| - 1], key);
    }
  }

  lemma FoldedLast(rows: seq<MetricDay<string>>, app: int, segment: seq<F.Row>, from: string, k: F.Key)
    requires IsFolded(rows, app, segment, from)
    ensures var i := LastFor(rows, TableKey(app, k));
      if F.HasRow(segment, from, k) then i >= 0 && rows[i].metrics == MetricsOf(F.SumFor(segment, from, k)) else i == -1
  {
    hide F.SumFor, F.HasRow, LastFor;
    assert F.HasRow(segment, from, k) ==> HasKey(rows, TableKey(app, k));
    var i := LastFor(rows, TableKey(app, k));
    if i >= 0 {
      assert IsSum(rows[i], app, segment, from);
      assert k == F.Key(k.day, k.country);
    }
  }

  // The last row of the batch for a day and country is that of the last segment counting it.
  lemma {:induction false} LastOfBatch(parts: seq<seq<MetricDay<string>>>, app: int, segments: seq<seq<F.Row>>,
        from: string, k: F.Key)
    requires AreFolded(parts, app, segments, from)
    ensures var i := LastFor(Concat(parts), TableKey(app, k)); var l := LastSegment(segments, from, k);
      if l >= 0 then i >= 0 && Concat(parts)[i].metrics == MetricsOf(F.SumFor(segments[l], from, k)) else i == -1
  {
    hide F.SumFor, F.HasRow, IsFolded, LastFor;
    if segments == [] {
      LastForNone(TableKey(app, k));
    } else {
      var n := |segments| - 1;
      LastOfBatch(parts[..n], app, segments[..n], from, k);
      FoldedLast(parts[n], app, segments[n], from, k);
      LastForJoined(Concat(parts[..n]), parts[n], TableKey(app, k));
    }
  }

  lemma LastForNone(key: Key<string>)
    ensures LastFor([], key) == -1
  {}

  // The first segment that counts something for a day and country.
  ghost function FirstSegment(segments: seq<seq<F.Row>>, from: string, k: F.Key): (i: int)
    ensures 0 <= i <= |segments|
  {
    if segments == [] then 0
    else
      var n := |segments| - 1;
      var i := FirstSegment(segments[..n], from, k);
      if i < n || F.HasRow(segments[n], from, k) then i else n + 1
  }

  lemma {:induction false} FirstForJoined(a: seq<MetricDay<string>>, b: seq<MetricDay<string>>, key: Key<string>)
    ensures FirstFor(a + b, key) == if FirstFor(a, key) < |a| then FirstFor(a, key) else |a| + FirstFor(b, key)
  {
    if a == [] {
      assert a + b == b;
    } else {
      assert (a + b)[1..] == a[1..] + b;
      FirstForJoined(a[1..], b, key);
    }
  }

  lemma FoldedFirst(rows: seq<MetricDay<string>>, app: int, segment: seq<F.Row>, from: string, k: F.Key)
    requires IsFolded(rows, app, segment, from)
    ensures var i := FirstFor(rows, TableKey(app, k));
      if F.HasRow(segment, from, k) then i < |rows| && rows[i].metrics == MetricsOf(F.SumFor(segment, from, k))
      else i == |rows|
  {
    hide F.SumFor, F.HasRow, FirstFor;
    assert F.HasRow(segment, from, k) ==> HasKey(rows, TableKey(app, k));
    var i := FirstFor(rows, TableKey(app, k));
    if i < |rows| {
      assert IsSum(rows[i], app, segment, from);
      assert k == F.Key(k.day, k.country);
    }
  }

  // The first row of the batch for a day and country is that of the first segment counting it.
  lemma {:induction false} FirstOfBatch(parts: seq<seq<MetricDay<string>>>, app: int, segments: seq<seq<F.Row>>,
        from: string, k: F.Key)
    requires AreFolded(parts, app, segments, from)
    ensures var i := FirstFor(Concat(parts), TableKey(app, k)); var f := FirstSegment(segments, from, k);
      if f < |segments| then
        i < |Concat(parts)| && Concat(parts)[i].metrics == MetricsOf(F.SumFor(segments[f], from, k))
      else i == |Concat(parts)|
  {
    hide F.SumFor, F.HasRow, IsFolded, FirstFor;
    if segments != [] {
      var n := |segments| - 1;
      FirstOfBatch(parts[..n], app, segments[..n], from, k);
      FoldedFirst(parts[n], app, segments[n], from, k);
      FirstForJoined(Concat(parts[..n]), parts[n], TableKey(app, k));
    }
  }

  // ---- the instance as one list ----

  lemma {:induction false} AmountJoined(a: seq<F.Row>, b: seq<F.Row>, from: string, k: F.Key, c: Column)
    ensures Amount(a + b, from, k, c) == Amount(a, from, k, c) + Amount(b, from, k, c)
  {
    if b == [] {
      assert a + b == a;
    } else {
      var n := |b| - 1;
      AmountJoined(a, b[..n], from, k, c);
      assert a + b == (a + b[..n]) + [b[n]] && b == b[..n] + [b[n]];
      AmountStep(a + b[..n], b[n], from, k, c);
      AmountStep(b[..n], b[n], from, k, c);
    }
  }

  lemma AmountStep(rows: seq<F.Row>, r: F.Row, from: string, k: F.Key, c: Column)
    ensures Amount(rows + [r], from, k, c) ==
      Amount(rows, from, k, c) + if F.BelongsTo(r, from, k) then Get(MetricsOf(F.CountsOf(r)), c) else 0
  {
    F.KeysStep(rows, r, from, k);
  }

  lemma NothingCounted(rows: seq<F.Row>, from: string, k: F.Key, c: Column)
    requires !F.HasRow(rows, from, k)
    ensures Amount(rows, from, k, c) == 0
  {
    F.NoRows(rows, from, k);
  }

  // The whole instance counts what the last segment does and what the segments before it do.
  lemma {:induction false} AmountUpToLast(segments: seq<seq<F.Row>>, from: string, k: F.Key, c: Column)
    requires LastSegment(segments, from, k) >= 0
    ensures var l := LastSegment(segments, from, k);
      Amount(Concat(segments), from, k, c)
        == Amount(Concat(segments[..l]), from, k, c) + Amount(segments[l], from, k, c)
  {
    hide Amount, F.HasRow;
    var n := |segments| - 1;
    AmountJoined(Concat(segments[..n]), segments[n], from, k, c);
    if !F.HasRow(segments[n], from, k) {
      NothingCounted(segments[n], from, k, c);
      AmountUpToLast(segments[..n], from, k, c);
      var l := LastSegment(segments, from, k);
      assert segments[..n][..l] == segments[..l];
    }
  }

  ghost predicate CountedIn(segments: seq<seq<F.Row>>, i: nat, from: string, k: F.Key) {
    i < |segments| && F.HasRow(segments[i], from, k)
  }

  lemma {:induction false} LastIsLast(segments: seq<seq<F.Row>>, from: string, k: F.Key, j: nat)
    ensures CountedIn(segments, j, from, k) ==> j <= LastSegment(segments, from, k)
    ensures LastSegment(segments, from, k) >= 0 ==> CountedIn(segments, LastSegment(segments, from, k), from, k)
  {
    hide F.HasRow;
    if segments != [] {
      LastIsLast(segments[..|segments| - 1], from, k, j);
    }
  }

  lemma {:induction false} FirstIsFirst(segments: seq<seq<F.Row>>, from: string, k: F.Key, j: nat)
    ensures CountedIn(segments, j, from, k) ==> FirstSegment(segments, from, k) <= j
    ensures var f := FirstSegment(segments, from, k); f < |segments| ==> CountedIn(segments, f, from, k)
  {
    hide F.HasRow;
    if segments != [] {
      FirstIsFirst(segments[..|segments| - 1], from, k, j);
    }
  }

  lemma FirstAndLast(segments: seq<seq<F.Row>>, from: string, k: F.Key)
    ensures FirstSegment(segments, from, k) < |segments| <==> LastSegment(segments, from, k) >= 0
  {
    hide F.HasRow, FirstSegment, LastSegment;
    var f, l := FirstSegment(segments, from, k), LastSegment(segments, from, k);
    LastIsLast(segments, from, k, f);
    if l >= 0 {
      FirstIsFirst(segments, from, k, l);
    } else {
      FirstIsFirst(segments, from, k, 0);
    }
  }

  lemma {:induction false} NoneCounted(segments: seq<seq<F.Row>>, from: string, k: F.Key, c: Column)
    requires forall i: nat :: i < |segments| ==> !CountedIn(segments, i, from, k)
    ensures Amount(Concat(segments), from, k, c) == 0
  {
    hide Amount, F.HasRow;
    if segments == [] {
      NothingInNothing(from, k);
      NothingCounted([], from, k, c);
    } else {
      var n := |segments| - 1;
      assert !CountedIn(segments, n, from, k);
      forall i: nat | i < n ensures !CountedIn(segments[..n], i, from, k) {
        assert !CountedIn(segments, i, from, k);
      }
      NoneCounted(segments[..n], from, k, c);
      AmountJoined(Concat(segments[..n]), segments[n], from, k, c);
      NothingCounted(segments[n], from, k, c);
    }
  }

  lemma NothingInNothing(from: string, k: F.Key)
    ensures !F.HasRow([], from, k)
  {}

  // It also counts what the first segment does and what the segments after it do.
  lemma {:induction false} AmountFromFirst(segments: seq<seq<F.Row>>, from: string, k: F.Key, c: Column)
    requires FirstSegment(segments, from, k) < |segments|
    ensures var f := FirstSegment(segments, from, k);
      Amount(Concat(segments), from, k, c)
        == Amount(segments[f], from, k, c) + Amount(Concat(segments[f + 1..]), from, k, c)
  {
    hide Amount, F.HasRow;
    var n, f := |segments| - 1, FirstSegment(segments, from, k);
    var init := segments[..n];
    AmountJoined(Concat(init), segments[n], from, k, c);
    if FirstSegment(init, from, k) < n {
      AmountFromFirst(init, from, k, c);
      assert segments[f + 1..][..n - f - 1] == init[f + 1..];
      AmountJoined(Concat(init[f + 1..]), segments[n], from, k, c);
    } else {
      forall i: nat | i < n ensures !CountedIn(init, i, from, k) {
        FirstIsFirst(init, from, k, i);
      }
      NoneCounted(init, from, k, c);
      assert segments[f + 1..] == [];
      NoneCounted([], from, k, c);
    }
  }

  // ---- exactly what the table shows ----

  // The part of a figure that the table does not show. A column the report is written to is
  // overwritten by each segment. Any other column, as the redownloads that the installs
  // report counts, is written only where a segment creates the row.
  ghost function Lost(t: Table<string>, app: int, segments: seq<seq<F.Row>>, from: string, cols: MetricCols,
                      k: F.Key, c: Column): int {
    if LastSegment(segments, from, k) < 0 then 0
    else if Named(cols, c) then Overwritten(segments, from, k, c)
    else if TableKey(app, k) in t then Amount(Concat(segments), from, k, c) - Get(t[TableKey(app, k)], c)
    else
      FirstAndLast(segments, from, k);
      Amount(Concat(segments[FirstSegment(segments, from, k) + 1..]), from, k, c)
  }

  // The amount of the segments before the last one that counts the key.
  ghost function Overwritten(segments: seq<seq<F.Row>>, from: string, k: F.Key, c: Column): int {
    var l := LastSegment(segments, from, k);
    if l < 0 then 0 else Amount(Concat(segments[..l]), from, k, c)
  }

  // After the upsert a column the report is written to shows the last counting segment's
  // amount; any other the table's old figure or, in a new row, the first segment's amount.
  lemma FigureIs(t: Table<string>, parts: seq<seq<MetricDay<string>>>, app: int, segments: seq<seq<F.Row>>,
        from: string, cols: MetricCols, k: F.Key, c: Column)
    requires AreFolded(parts, app, segments, from) && LastSegment(segments, from, k) >= 0
    ensures FirstSegment(segments, from, k) < |segments|
    ensures var u, key := Upsert(t, Concat(parts), cols), TableKey(app, k);
      && key in u
      && Get(u[key], c) ==
           if Named(cols, c) then Amount(segments[LastSegment(segments, from, k)], from, k, c)
           else if key in t then Get(t[key], c)
           else Amount(segments[FirstSegment(segments, from, k)], from, k, c)
  {
    hide F.SumFor, F.HasRow, AreFolded, LastFor, FirstFor, Upsert, Get, Named, LastSegment, FirstSegment;
    LastOfBatch(parts, app, segments, from, k);
    FirstOfBatch(parts, app, segments, from, k);
    FirstAndLast(segments, from, k);
    LastWriterWins(t, Concat(parts), cols, TableKey(app, k), c);
  }

  // The table falls short of a figure by exactly what is lost of it, in every column.
  lemma FigureStored(t: Table<string>, parts: seq<seq<MetricDay<string>>>, app: int, segments: seq<seq<F.Row>>,
        from: string, cols: MetricCols, k: F.Key, c: Column)
    requires AreFolded(parts, app, segments, from) && LastSegment(segments, from, k) >= 0
    ensures var u := Upsert(t, Concat(parts), cols);
      && TableKey(app, k) in u
      && Get(u[TableKey(app, k)], c)
           == Amount(Concat(segments), from, k, c) - Lost(t, app, segments, from, cols, k, c)
  {
    hide Amount, AreFolded, Upsert, Get, Named, LastSegment, FirstSegment;
    FigureIs(t, parts, app, segments, from, cols, k, c);
    AmountUpToLast(segments, from, k, c);
    AmountFromFirst(segments, from, k, c);
  }

  // ---- exactly when an instance is stored whole ----

  ghost predicate ShowsAll(t: Table<string>, app: int, segments: seq<seq<F.Row>>, from: string, k: F.Key, c: Column) {
    TableKey(app, k) in t && Get(t[TableKey(app, k)], c) == Amount(Concat(segments), from, k, c)
  }

  // The figures of an instance: for each day and country it counts, the columns the report
  // is written to and every other column it counts something in.
  ghost predicate IsFigure(segments: seq<seq<F.Row>>, from: string, cols: MetricCols, k: F.Key, c: Column) {
    LastSegment(segments, from, k) >= 0 && (Named(cols, c) || Amount(Concat(segments), from, k, c) != 0)
  }

  // Every figure of the instance is in the table in full.
  ghost predicate StoredWhole(t: Table<string>, app: int, segments: seq<seq<F.Row>>, from: string, cols: MetricCols) {
    forall k, c :: IsFigure(segments, from, cols, k, c) ==> ShowsAll(t, app, segments, from, k, c)
  }

  ghost predicate NothingLost(t: Table<string>, app: int, segments: seq<seq<F.Row>>, from: string, cols: MetricCols) {
    forall k, c :: IsFigure(segments, from, cols, k, c) ==> Lost(t, app, segments, from, cols, k, c) == 0
  }

  lemma StoredWholeExactly(t: Table<string>, parts: seq<seq<MetricDay<string>>>, app: int,
        segments: seq<seq<F.Row>>, from: string, cols: MetricCols)
    requires AreFolded(parts, app, segments, from)
    ensures StoredWhole(Upsert(t, Concat(parts), cols), app, segments, from, cols) <==>
      NothingLost(t, app, segments, from, cols)
  {
    hide Amount, AreFolded, Upsert, Get, Named, LastSegment, Lost;
    var u := Upsert(t, Concat(parts), cols);
    forall k, c | IsFigure(segments, from, cols, k, c)
      ensures ShowsAll(u, app, segments, from, k, c) <==> Lost(t, app, segments, from, cols, k, c) == 0
    {
      FigureStored(t, parts, app, segments, from, cols, k, c);
    }
  }

  // ---- files that share a day ----

  function RowAmount(r: F.Row, c: Column): int {
    Get(MetricsOf(F.CountsOf(r)), c)
  }

  lemma RowAmountIs(r: F.Row, c: Column)
    ensures RowAmount(r, c) == Get(MetricsOf(F.CountsOf(r)), c)
  {}

  // Counted rows take nothing from a column.
  ghost predicate NonNegative(rows: seq<F.Row>, from: string, c: Column) {
    forall m :: 0 <= m < |rows| && F.Counted(rows[m], from) ==> RowAmount(rows[m], c) >= 0
  }

  ghost predicate AllNonNegative(segments: seq<seq<F.Row>>, from: string, c: Column) {
    forall i :: 0 <= i < |segments| ==> NonNegative(segments[i], from, c)
  }

  lemma {:induction false} AmountAtLeast(rows: seq<F.Row>, from: string, k: F.Key, c: Column)
    requires NonNegative(rows, from, c)
    ensures Amount(rows, from, k, c) >= 0
    ensures forall m :: 0 <= m < |rows| && F.BelongsTo(rows[m], from, k) ==>
      Amount(rows, from, k, c) >= RowAmount(rows[m], c)
  {
    hide Amount, RowAmount;
    if rows == [] {
      NothingCounted(rows, from, k, c);
    } else {
      var n := |rows| - 1;
      assert forall m :: 0 <= m < n ==> rows[..n][m] == rows[m];
      AmountAtLeast(rows[..n], from, k, c);
      assert rows == rows[..n] + [rows[n]];
      AmountStep(rows[..n], rows[n], from, k, c);
      RowAmountIs(rows[n], c);
    }
  }

  // Amounts add up to nothing exactly when each is nothing.
  lemma {:induction false} SegmentAtMost(segments: seq<seq<F.Row>>, from: string, k: F.Key, c: Column)
    requires AllNonNegative(segments, from, c)
    ensures Amount(Concat(segments), from, k, c) >= 0
    ensures forall i :: 0 <= i < |segments| ==>
      Amount(Concat(segments), from, k, c) >= Amount(segments[i], from, k, c)
    ensures Amount(Concat(segments), from, k, c) == 0 <==>
      forall i :: 0 <= i < |segments| ==> Amount(segments[i], from, k, c) == 0
  {
    hide Amount, NonNegative;
    if segments == [] {
      NothingInNothing(from, k);
      NothingCounted([], from, k, c);
    } else {
      var n := |segments| - 1;
      assert forall i :: 0 <= i < n ==> segments[..n][i] == segments[i];
      SegmentAtMost(segments[..n], from, k, c);
      AmountJoined(Concat(segments[..n]), segments[n], from, k, c);
      AmountAtLeast(segments[n], from, k, c);
    }
  }

  // No part of the figure meets another one: a column the report is written to is counted by
  // no segment before the last; any other is in a new row and counted by no segment after the
  // first, or the table has the same figure already.
  ghost predicate Separate(t: Table<string>, app: int, segments: seq<seq<F.Row>>, from: string, cols: MetricCols,
                           k: F.Key, c: Column) {
    if Named(cols, c) then
      forall i :: 0 <= i < LastSegment(segments, from, k) ==> Amount(segments[i], from, k, c) == 0
    else if TableKey(app, k) in t then
      Get(t[TableKey(app, k)], c) == Amount(Concat(segments), from, k, c)
    else
      forall i :: FirstSegment(segments, from, k) < i < |segments| ==> Amount(segments[i], from, k, c) == 0
  }

  lemma LostUnlessSeparate(t: Table<string>, app: int, segments: seq<seq<F.Row>>, from: string, cols: MetricCols,
        k: F.Key, c: Column)
    requires AllNonNegative(segments, from, c) && LastSegment(segments, from, k) >= 0
    ensures Lost(t, app, segments, from, cols, k, c) == 0 <==> Separate(t, app, segments, from, cols, k, c)
  {
    hide Amount, NonNegative, LastSegment, FirstSegment, Named, Get, Concat;
    FirstAndLast(segments, from, k);
    var l, f := LastSegment(segments, from, k), FirstSegment(segments, from, k);
    if Named(cols, c) {
      assert forall i :: 0 <= i < l ==> segments[..l][i] == segments[i];
      SegmentAtMost(segments[..l], from, k, c);
    } else {
      var rest := segments[f + 1..];
      SegmentAtMost(rest, from, k, c);
      assert forall i :: f < i < |segments| ==> segments[i] == rest[i - f - 1];
      assert forall j :: 0 <= j < |rest| ==> rest[j] == segments[j + f + 1];
    }
  }

  // Where counts are not negative, an instance is stored whole just when every figure is
  // separate.
  lemma StoredWholeIfSeparate(t: Table<string>, parts: seq<seq<MetricDay<string>>>, app: int,
        segments: seq<seq<F.Row>>, from: string, cols: MetricCols)
    requires AreFolded(parts, app, segments, from) && forall c :: AllNonNegative(segments, from, c)
    ensures StoredWhole(Upsert(t, Concat(parts), cols), app, segments, from, cols) <==>
      forall k, c :: IsFigure(segments, from, cols, k, c) ==> Separate(t, app, segments, from, cols, k, c)
  {
    hide AreFolded, StoredWhole, Upsert, AllNonNegative, Lost, Separate, LastSegment, Amount, Named;
    StoredWholeExactly(t, parts, app, segments, from, cols);
    forall k, c | IsFigure(segments, from, cols, k, c)
      ensures Lost(t, app, segments, from, cols, k, c) == 0 <==> Separate(t, app, segments, from, cols, k, c)
    {
      LostUnlessSeparate(t, app, segments, from, cols, k, c);
    }
  }

  // ---- the columns a report is written to ----

  // Every figure of those columns is in the table in full.
  ghost predicate NamedWhole(t: Table<string>, app: int, segments: seq<seq<F.Row>>, from: string, cols: MetricCols) {
    forall k, c :: LastSegment(segments, from, k) >= 0 && Named(cols, c) ==> ShowsAll(t, app, segments, from, k, c)
  }

  ghost predicate NothingOverwritten(segments: seq<seq<F.Row>>, from: string, cols: MetricCols) {
    forall k, c :: Named(cols, c) ==> Overwritten(segments, from, k, c) == 0
  }

  lemma NamedWholeExactly(t: Table<string>, parts: seq<seq<MetricDay<string>>>, app: int,
        segments: seq<seq<F.Row>>, from: string, cols: MetricCols)
    requires AreFolded(parts, app, segments, from)
    ensures NamedWhole(Upsert(t, Concat(parts), cols), app, segments, from, cols) <==>
      NothingOverwritten(segments, from, cols)
  {
    hide Amount, AreFolded, Upsert, Get, Named, LastSegment;
    var u := Upsert(t, Concat(parts), cols);
    forall k, c | Named(cols, c) && LastSegment(segments, from, k) >= 0
      ensures ShowsAll(u, app, segments, from, k, c) <==> Overwritten(segments, from, k, c) == 0
    {
      FigureStored(t, parts, app, segments, from, cols, k, c);
    }
  }

  // Two segments count something for the same day and country, or for the same day.
  ghost predicate CountedTwice(segments: seq<seq<F.Row>>, from: string) {
    exists i: nat, j: nat, k :: i < j && CountedIn(segments, i, from, k) && CountedIn(segments, j, from, k)
  }

  // A counted row adds something to a named column and takes nothing from any.
  ghost predicate Adds(r: F.Row, cols: MetricCols) {
    (forall c :: Named(cols, c) ==> RowAmount(r, c) >= 0) && exists c :: Named(cols, c) && RowAmount(r, c) > 0
  }

  ghost predicate AllAdd(rows: seq<F.Row>, from: string, cols: MetricCols) {
    forall m :: 0 <= m < |rows| && F.Counted(rows[m], from) ==> Adds(rows[m], cols)
  }

  ghost predicate AllSegmentsAdd(segments: seq<seq<F.Row>>, from: string, cols: MetricCols) {
    forall i :: 0 <= i < |segments| ==> AllAdd(segments[i], from, cols)
  }

  // Nothing is overwritten when no day and country is counted by two segments.
  lemma SeparateKeepAll(segments: seq<seq<F.Row>>, from: string, cols: MetricCols)
    requires !CountedTwice(segments, from)
    ensures NothingOverwritten(segments, from, cols)
  {
    hide Amount, F.HasRow, LastSegment, Named;
    forall k, c | Named(cols, c) ensures Overwritten(segments, from, k, c) == 0 {
      var l := LastSegment(segments, from, k);
      LastIsLast(segments, from, k, 0);
      if l >= 0 {
        forall i: nat | i < l ensures !CountedIn(segments[..l], i, from, k) {
          assert !CountedIn(segments, i, from, k);
        }
        NoneCounted(segments[..l], from, k, c);
      }
    }
  }

  lemma SharedLoses(segments: seq<seq<F.Row>>, from: string, cols: MetricCols, i: nat, j: nat, k: F.Key)
    requires AllSegmentsAdd(segments, from, cols)
    requires i < j && CountedIn(segments, i, from, k) && CountedIn(segments, j, from, k)
    ensures !NothingOverwritten(segments, from, cols)
  {
    hide Amount, LastSegment, Named, F.BelongsTo, RowAmount;
    LastIsLast(segments, from, k, j);
    var l := LastSegment(segments, from, k);
    var m :| 0 <= m < |segments[i]| && F.BelongsTo(segments[i][m], from, k);
    BelongsIsCounted(segments[i][m], from, k);
    assert Adds(segments[i][m], cols);
    var c :| Named(cols, c) && RowAmount(segments[i][m], c) > 0;
    AddsTakeNothing(segments, from, cols, c);
    AmountAtLeast(segments[i], from, k, c);
    assert segments[..l][i] == segments[i];
    SegmentAtMost(segments[..l], from, k, c);
    assert Overwritten(segments, from, k, c) > 0;
  }

  lemma AddsTakeNothing(segments: seq<seq<F.Row>>, from: string, cols: MetricCols, c: Column)
    requires AllSegmentsAdd(segments, from, cols) && Named(cols, c)
    ensures AllNonNegative(segments, from, c)
  {
    hide Named, RowAmount;
    forall i | 0 <= i < |segments| ensures NonNegative(segments[i], from, c) {
      assert AllAdd(segments[i], from, cols);
    }
  }

  lemma BelongsIsCounted(r: F.Row, from: string, k: F.Key)
    requires F.BelongsTo(r, from, k)
    ensures F.Counted(r, from)
  {}

  // For rows that add something to these columns, they are stored whole just when no two
  // segments count the same day.
  lemma NamedWholeIfSeparate(t: Table<string>, parts: seq<seq<MetricDay<string>>>, app: int,
        segments: seq<seq<F.Row>>, from: string, cols: MetricCols)
    requires AreFolded(parts, app, segments, from) && AllSegmentsAdd(segments, from, cols)
    ensures NamedWhole(Upsert(t, Concat(parts), cols), app, segments, from, cols) <==> !CountedTwice(segments, from)
  {
    hide AreFolded, NamedWhole, NothingOverwritten, AllSegmentsAdd, Upsert;
    NamedWholeExactly(t, parts, app, segments, from, cols);
    if CountedTwice(segments, from) {
      var i: nat, j: nat, k :| i < j && CountedIn(segments, i, from, k) && CountedIn(segments, j, from, k);
      SharedLoses(segments, from, cols, i, j, k);
    } else {
      SeparateKeepAll(segments, from, cols);
    }
  }

  // ---- inputs that lose figures ----

  // What a segment of one row folds to.
  function OneDay(app: int, r: F.Row): seq<MetricDay<string>> {
    var m := MetricsOf(F.CountsOf(r));
    [MetricDay(Key(app, r.date, F.Territory(r.territory)), m), MetricDay(Key(app, r.date, "*"), m)]
  }

  lemma OneRowSum(r: F.Row, k: F.Key)
    requires r.unknownType == ""
    ensures F.HasRow([r], "", k) <==> k.day == r.date && (k.country == "*" || k.country == F.Territory(r.territory))
    ensures F.HasRow([r], "", k) ==> F.SumFor([r], "", k) == F.CountsOf(r)
  {
    hide F.Territory;
    assert [r] == [] + [r];
    F.KeysStep([], r, "", k);
    NothingInNothing("", k);
  }

  lemma OneRowFolded(app: int, r: F.Row)
    requires r.unknownType == ""
    ensures IsFolded(OneDay(app, r), app, [r], "")
  {
    hide F.Territory, F.CountsOf, F.HasRow, F.SumFor;
    var rows := OneDay(app, r);
    forall i | 0 <= i < |rows| ensures IsSum(rows[i], app, [r], "") {
      OneRowSum(r, F.Key(r.date, rows[i].key.country));
    }
    forall k | F.HasRow([r], "", k) ensures HasKey(rows, TableKey(app, k)) {
      OneRowSum(r, k);
      assert rows[if k.country == "*" then 1 else 0].key == TableKey(app, k);
    }
    assert rows[0].key != rows[1].key;
  }

  function DownloadRow(territory: string): F.Row {
    F.Row("2024-01-01", territory, 1, 0, 0, 0, 0, 0, "")
  }

  lemma OneDownloadAdds(territory: string)
    ensures AllAdd([DownloadRow(territory)], "", MetricCols(true, false, false, false))
  {
    assert Named(MetricCols(true, false, false, false), Downloads) && RowAmount(DownloadRow(territory), Downloads) == 1;
  }

  // Two segments with one download each, on one day in two countries: the total row shows one.
  lemma SharedDayIsShort(t: Table<string>, app: int)
    ensures var segments := [[DownloadRow("US")], [DownloadRow("DE")]];
      var parts := [OneDay(app, DownloadRow("US")), OneDay(app, DownloadRow("DE"))];
      var cols := MetricCols(true, false, false, false);
      && AreFolded(parts, app, segments, "") && AllSegmentsAdd(segments, "", cols)
      && !NamedWhole(Upsert(t, Concat(parts), cols), app, segments, "", cols)
      && !StoredWhole(Upsert(t, Concat(parts), cols), app, segments, "", cols)
  {
    hide IsFolded, AllAdd, Upsert, F.HasRow, F.Territory, OneDay, Concat, ShowsAll, LastSegment, Amount, F.SumFor;
    var segments := [[DownloadRow("US")], [DownloadRow("DE")]];
    var parts := [OneDay(app, DownloadRow("US")), OneDay(app, DownloadRow("DE"))];
    var cols := MetricCols(true, false, false, false);
    OneRowFolded(app, DownloadRow("US"));
    OneRowFolded(app, DownloadRow("DE"));
    OneDownloadAdds("US");
    OneDownloadAdds("DE");
    NamedWholeIfSeparate(t, parts, app, segments, "", cols);
    var k := F.Key("2024-01-01", "*");
    OneRowSum(DownloadRow("US"), k);
    OneRowSum(DownloadRow("DE"), k);
    assert CountedIn(segments, 0, "", k) && CountedIn(segments, 1, "", k);
    WholeIsNamed(Upsert(t, Concat(parts), cols), app, segments, "", cols);
  }

  lemma WholeIsNamed(t: Table<string>, app: int, segments: seq<seq<F.Row>>, from: string, cols: MetricCols)
    ensures StoredWhole(t, app, segments, from, cols) ==> NamedWhole(t, app, segments, from, cols)
  {
    hide ShowsAll, LastSegment, Amount, Named;
    assert forall k, c ::
      LastSegment(segments, from, k) >= 0 && Named(cols, c) ==> IsFigure(segments, from, cols, k, c);
  }

  function InstallRow(installs: int): F.Row {
    F.Row("2024-01-01", "US", 0, 0, 0, 0, installs, 0, "")
  }

  // One segment of the installs report, for a day the table knows: the installs are counted
  // as redownloads, which that report is not written to, so none of them arrive.
  lemma InstallsAreLost(t: Table<string>, app: int, installs: int)
    requires Key(app, "2024-01-01", "*") in t && installs != 0
    requires t[Key(app, "2024-01-01", "*")].redownloads != installs
    ensures var key := Key(app, "2024-01-01", "*"); var segments := [[InstallRow(installs)]];
      var parts := [OneDay(app, InstallRow(installs))]; var cols := MetricCols(false, true, false, false);
      var u := Upsert(t, Concat(parts), cols);
      && AreFolded(parts, app, segments, "") && !CountedTwice(segments, "")
      && Amount(Concat(segments), "", F.Key("2024-01-01", "*"), Redownloads) == installs
      && key in u && u[key].redownloads == t[key].redownloads && !StoredWhole(u, app, segments, "", cols)
  {
    hide IsFolded, Upsert, F.HasRow, F.Territory, OneDay, F.SumFor;
    var r, k, cols := InstallRow(installs), F.Key("2024-01-01", "*"), MetricCols(false, true, false, false);
    var segments, parts := [[r]], [OneDay(app, r)];
    OneRowFolded(app, r);
    OneRowSum(r, k);
    assert segments[..0] == [];
    assert Concat(segments) == [] + [r] == [r];
    assert LastSegment(segments, "", k) == 0;
    FigureIs(t, parts, app, segments, "", cols, k, Redownloads);
    assert IsFigure(segments, "", cols, k, Redownloads);
    assert !ShowsAll(Upsert(t, Concat(parts), cols), app, segments, "", k, Redownloads);
  }

  function CrashRow(crashes: int): F.Row {
    F.Row("2024-01-01", "US", 0, 0, 0, 0, 0, crashes, "")
  }

  lemma FirstOfDay(app: int, r: F.Row)
    ensures var key := Key(app, r.date, "*"); var i := FirstFor(OneDay(app, r), key);
      i < |OneDay(app, r)| && OneDay(app, r)[i].metrics == MetricsOf(F.CountsOf(r))
  {
    hide F.Territory, F.CountsOf, FirstFor;
    assert OneDay(app, r)[1].key == Key(app, r.date, "*");
  }

  // The installs and the crash report of a new day leave different tables in the two orders.
  lemma ReportOrderMatters(app: int, installs: int, crashes: int)
    requires installs != 0
    ensures var r1, r2 := OneDay(app, InstallRow(installs)), OneDay(app, CrashRow(crashes));
      var c1, c2 := MetricCols(false, true, false, false), MetricCols(false, false, false, true);
      DisjointCols(c1, c2) && Upsert(Upsert(map[], r1, c1), r2, c2) != Upsert(Upsert(map[], r2, c2), r1, c1)
  {
    hide Upsert, OneDay, FirstFor;
    var r1, r2 := OneDay(app, InstallRow(installs)), OneDay(app, CrashRow(crashes));
    var c1, c2 := MetricCols(false, true, false, false), MetricCols(false, false, false, true);
    var key := Key(app, "2024-01-01", "*");
    FirstOfDay(app, InstallRow(installs));
    FirstOfDay(app, CrashRow(crashes));
    assert Get(r1[FirstFor(r1, key)].metrics, Redownloads) != Get(r2[FirstFor(r2, key)].metrics, Redownloads);
    assert !FirstsAgree(r1, c1, r2, c2, key);
    BatchesCommuteExactly(map[], r1, c1, r2, c2);
  }
}
