// The metric_days table and its upsert.
module MetricStore {

  // Days are numbers in one source and texts in the other.
  datatype Key<D> = Key(app: int, day: D, country: string)

  // The counters of a row; an active_devices of NULL is 0 here.
  datatype Metrics = Metrics(
    downloads: int, redownloads: int, updates: int, uninstalls: int,
    activeDevices: int, crashes: int, anrs: int)

  const NO_METRICS := Metrics(0, 0, 0, 0, 0, 0, 0)

  datatype MetricDay<D> = MetricDay(key: Key<D>, metrics: Metrics)

  type Table<D(==)> = map<Key<D>, Metrics>

  // Which column groups a batch is authoritative for.
  datatype MetricCols = MetricCols(downloads: bool, uninstalls: bool, activeDevices: bool, crashes: bool)

  datatype Column = Downloads | Redownloads | Updates | Uninstalls | ActiveDevices | Crashes | Anrs

  function Get(m: Metrics, c: Column): int {
    match c
    case Downloads => m.downloads
    case Redownloads => m.redownloads
    case Updates => m.updates
    case Uninstalls => m.uninstalls
    case ActiveDevices => m.activeDevices
    case Crashes => m.crashes
    case Anrs => m.anrs
  }

  predicate Named(cols: MetricCols, c: Column) {
    match c
    case Downloads => cols.downloads
    case Redownloads => cols.downloads
    case Updates => cols.downloads
    case Uninstalls => cols.uninstalls
    case ActiveDevices => cols.activeDevices
    case Crashes => cols.crashes
    case Anrs => cols.crashes
  }

  lemma MetricsEqual(a: Metrics, b: Metrics)
    requires forall c :: Get(a, c) == Get(b, c)
    ensures a == b
  {
    assert Get(a, Downloads) == Get(b, Downloads) && Get(a, Redownloads) == Get(b, Redownloads);
    assert Get(a, Updates) == Get(b, Updates) && Get(a, Uninstalls) == Get(b, Uninstalls);
    assert Get(a, ActiveDevices) == Get(b, ActiveDevices) && Get(a, Crashes) == Get(b, Crashes);
    assert Get(a, Anrs) == Get(b, Anrs);
  }

  // ---- the upsert, statement by statement ----

  // DO UPDATE SET: only the named columns are taken from the new row.
  function Merge(have: Metrics, row: Metrics, cols: MetricCols): (m: Metrics)
    ensures forall c :: Get(m, c) == if Named(cols, c) then Get(row, c) else Get(have, c)
  {
    var m := have;
    var m := if !cols.downloads then m else
      m.(downloads := row.downloads, redownloads := row.redownloads, updates := row.updates);
    var m := if cols.uninstalls then m.(uninstalls := row.uninstalls) else m;
    var m := if cols.activeDevices then m.(activeDevices := row.activeDevices) else m;
    if cols.crashes then m.(crashes := row.crashes, anrs := row.anrs) else m
  }

  // INSERT ... ON CONFLICT(app_id, day, country) DO UPDATE
  function UpsertRow<D(==)>(t: Table<D>, row: MetricDay<D>, cols: MetricCols): Table<D> {
    if row.key in t then t[row.key := Merge(t[row.key], row.metrics, cols)] else t[row.key := row.metrics]
  }

  function Upsert<D(==)>(t: Table<D>, rows: seq<MetricDay<D>>, cols: MetricCols): Table<D> {
    if rows == [] then t else UpsertRow(Upsert(t, rows[..|rows| - 1], cols), rows[|rows| - 1], cols)
  }

  class Store<D(==)> {
    var metricDays: Table<D>

    method UpsertMetricDays(rows: seq<MetricDay<D>>, cols: MetricCols) returns (n: nat)
      modifies this
      ensures metricDays == Upsert(old(metricDays), rows, cols)
      ensures n == |rows|
    {
      n := 0;
      for i := 0 to |rows|
        invariant metricDays == Upsert(old(metricDays), rows[..i], cols)
        invariant n == i
      {
        var r := rows[i];
        assert rows[..i + 1][..i] == rows[..i];
        if r.key in metricDays {
          metricDays := metricDays[r.key := Merge(metricDays[r.key], r.metrics, cols)];
        } else {
          metricDays := metricDays[r.key := r.metrics];
        }
        n := n + 1;
      }
      assert rows[..|rows|] == rows;
    }
  }

  // ---- a per-column last-writer map ----

  // The last row of a batch for a key, and the first.
  function LastFor<D(==)>(rows: seq<MetricDay<D>>, k: Key<D>): (i: int)
    ensures -1 <= i < |rows|
    ensures i >= 0 ==> rows[i].key == k
    ensures forall j :: i < j < |rows| ==> rows[j].key != k
  {
    if rows == [] then -1
    else if rows[|rows| - 1].key == k then |rows| - 1
    else LastFor(rows[..|rows| - 1], k)
  }

  function FirstFor<D(==)>(rows: seq<MetricDay<D>>, k: Key<D>): (i: int)
    ensures 0 <= i <= |rows|
    ensures i < |rows| ==> rows[i].key == k
    ensures forall j :: 0 <= j < i ==> rows[j].key != k
  {
    if rows == [] then 0
    else if rows[0].key == k then 0
    else 1 + FirstFor(rows[1..], k)
  }

  // After a batch, a named column holds what the last row for its key says; any other
  // column keeps its value, or comes from the row that first created the key.
  lemma {:induction false} LastWriterWins<D(!new)>(t: Table<D>, rows: seq<MetricDay<D>>, cols: MetricCols,
        k: Key<D>, c: Column)
    ensures LastFor(rows, k) >= 0 <==> FirstFor(rows, k) < |rows|
    ensures k in Upsert(t, rows, cols) <==> k in t || LastFor(rows, k) >= 0
    ensures k in Upsert(t, rows, cols) ==>
      Get(Upsert(t, rows, cols)[k], c) ==
        if LastFor(rows, k) >= 0 && Named(cols, c) then Get(rows[LastFor(rows, k)].metrics, c)
        else if k in t then Get(t[k], c)
        else Get(rows[FirstFor(rows, k)].metrics, c)
  {
    hide Get, Named, Merge;
    if rows != [] {
      var n := |rows| - 1;
      LastWriterWins(t, rows[..n], cols, k, c);
      FirstIn(rows, k);
      var before := Upsert(t, rows[..n], cols);
      assert Upsert(t, rows, cols) == UpsertRow(before, rows[n], cols);
    }
  }

  // The same field by field: each group of columns follows its own switch.
  lemma GroupsOfColumns<D(!new)>(t: Table<D>, row: MetricDay<D>, cols: MetricCols)
    ensures row.key in UpsertRow(t, row, cols)
    ensures var m, n := UpsertRow(t, row, cols)[row.key], row.metrics;
      if row.key !in t then m == n
      else
        var have := t[row.key];
        && m.downloads == (if cols.downloads then n.downloads else have.downloads)
        && m.redownloads == (if cols.downloads then n.redownloads else have.redownloads)
        && m.updates == (if cols.downloads then n.updates else have.updates)
        && m.uninstalls == (if cols.uninstalls then n.uninstalls else have.uninstalls)
        && m.activeDevices == (if cols.activeDevices then n.activeDevices else have.activeDevices)
        && m.crashes == (if cols.crashes then n.crashes else have.crashes)
        && m.anrs == (if cols.crashes then n.anrs else have.anrs)
    ensures forall k :: k != row.key ==>
      (k in UpsertRow(t, row, cols) <==> k in t) && (k in t ==> UpsertRow(t, row, cols)[k] == t[k])
  {}

  lemma FirstIn<D(!new)>(rows: seq<MetricDay<D>>, k: Key<D>)
    requires rows != []
    ensures var init := rows[..|rows| - 1];
      FirstFor(rows, k) == if FirstFor(init, k) < |init| then FirstFor(init, k)
                           else if rows[|rows| - 1].key == k then |rows| - 1 else |rows|
  {}

  lemma TablesEqual<D(!new)>(a: Table<D>, b: Table<D>)
    requires forall k :: k in a <==> k in b
    requires forall k, c :: k in a && k in b ==> Get(a[k], c) == Get(b[k], c)
    ensures a == b
  {
    forall k | k in a ensures a[k] == b[k] {
      MetricsEqual(a[k], b[k]);
    }
  }

  // Replaying a batch, repeated keys included, changes nothing.
  lemma ReplayChangesNothing<D(!new)>(t: Table<D>, rows: seq<MetricDay<D>>, cols: MetricCols)
    ensures Upsert(Upsert(t, rows, cols), rows, cols) == Upsert(t, rows, cols)
  {
    var once := Upsert(t, rows, cols);
    forall k ensures k in Upsert(once, rows, cols) <==> k in once {
      LastWriterWins(t, rows, cols, k, Downloads);
      LastWriterWins(once, rows, cols, k, Downloads);
    }
    forall k, c
      ensures k in once && k in Upsert(once, rows, cols) ==> Get(Upsert(once, rows, cols)[k], c) == Get(once[k], c)
    {
      LastWriterWins(t, rows, cols, k, c);
      LastWriterWins(once, rows, cols, k, c);
    }
    TablesEqual(Upsert(once, rows, cols), once);
  }

  ghost predicate DisjointCols(a: MetricCols, b: MetricCols) {
    forall c :: !(Named(a, c) && Named(b, c))
  }

  // Rows that carry nothing outside their groups.
  ghost predicate OnlyNamed<D(!new)>(rows: seq<MetricDay<D>>, cols: MetricCols) {
    forall i, c :: 0 <= i < |rows| && !Named(cols, c) ==> Get(rows[i].metrics, c) == 0
  }

  // The first rows of the two batches for a key agree outside both groups.
  ghost predicate FirstsAgree<D>(r1: seq<MetricDay<D>>, c1: MetricCols, r2: seq<MetricDay<D>>, c2: MetricCols,
                                 k: Key<D>)
    requires FirstFor(r1, k) < |r1| && FirstFor(r2, k) < |r2|
  {
    forall c :: !Named(c1, c) && !Named(c2, c) ==>
      Get(r1[FirstFor(r1, k)].metrics, c) == Get(r2[FirstFor(r2, k)].metrics, c)
  }

  // They do wherever both batches create a key.
  ghost predicate NewRowsAgree<D(!new)>(t: Table<D>, r1: seq<MetricDay<D>>, c1: MetricCols, r2: seq<MetricDay<D>>,
                                        c2: MetricCols)
  {
    forall k :: k !in t && FirstFor(r1, k) < |r1| && FirstFor(r2, k) < |r2| ==> FirstsAgree(r1, c1, r2, c2, k)
  }

  lemma SameKeys<D(!new)>(t: Table<D>, r1: seq<MetricDay<D>>, c1: MetricCols, r2: seq<MetricDay<D>>, c2: MetricCols,
                          k: Key<D>)
    ensures k in Upsert(Upsert(t, r1, c1), r2, c2) <==> k in t || FirstFor(r1, k) < |r1| || FirstFor(r2, k) < |r2|
  {
    hide Upsert, LastFor, FirstFor;
    LastWriterWins(t, r1, c1, k, Downloads);
    LastWriterWins(Upsert(t, r1, c1), r2, c2, k, Downloads);
  }

  // The two orders differ in a column only where both batches create the row and the column
  // is in neither group.
  lemma OrdersDiffer<D(!new)>(t: Table<D>, r1: seq<MetricDay<D>>, c1: MetricCols, r2: seq<MetricDay<D>>,
        c2: MetricCols, k: Key<D>, c: Column)
    requires DisjointCols(c1, c2)
    requires k in Upsert(Upsert(t, r1, c1), r2, c2) && k in Upsert(Upsert(t, r2, c2), r1, c1)
    ensures Get(Upsert(Upsert(t, r1, c1), r2, c2)[k], c) == Get(Upsert(Upsert(t, r2, c2), r1, c1)[k], c) <==>
      (k !in t && FirstFor(r1, k) < |r1| && FirstFor(r2, k) < |r2| && !Named(c1, c) && !Named(c2, c) ==>
        Get(r1[FirstFor(r1, k)].metrics, c) == Get(r2[FirstFor(r2, k)].metrics, c))
  {
    hide Upsert, LastFor, FirstFor, Get, Named;
    LastWriterWins(t, r1, c1, k, c);
    LastWriterWins(t, r2, c2, k, c);
    LastWriterWins(Upsert(t, r1, c1), r2, c2, k, c);
    LastWriterWins(Upsert(t, r2, c2), r1, c1, k, c);
  }

  // Batches of different groups may arrive in either order exactly when the rows they both
  // create agree outside the groups.
  lemma BatchesCommuteExactly<D(!new)>(t: Table<D>, r1: seq<MetricDay<D>>, c1: MetricCols, r2: seq<MetricDay<D>>,
        c2: MetricCols)
    requires DisjointCols(c1, c2)
    ensures Upsert(Upsert(t, r1, c1), r2, c2) == Upsert(Upsert(t, r2, c2), r1, c1) <==>
      NewRowsAgree(t, r1, c1, r2, c2)
  {
    hide Upsert, LastFor, FirstFor, Get, Named, DisjointCols;
    var a, b := Upsert(Upsert(t, r1, c1), r2, c2), Upsert(Upsert(t, r2, c2), r1, c1);
    forall k ensures k in a <==> k in b {
      SameKeys(t, r1, c1, r2, c2, k);
      SameKeys(t, r2, c2, r1, c1, k);
    }
    if NewRowsAgree(t, r1, c1, r2, c2) {
      forall k, c ensures k in a && k in b ==> Get(a[k], c) == Get(b[k], c) {
        if k in a {
          OrdersDiffer(t, r1, c1, r2, c2, k, c);
        }
      }
      TablesEqual(a, b);
    }
    if a == b {
      forall k | k !in t && FirstFor(r1, k) < |r1| && FirstFor(r2, k) < |r2| ensures FirstsAgree(r1, c1, r2, c2, k) {
        SameKeys(t, r1, c1, r2, c2, k);
        forall c | !Named(c1, c) && !Named(c2, c)
          ensures Get(r1[FirstFor(r1, k)].metrics, c) == Get(r2[FirstFor(r2, k)].metrics, c)
        {
          OrdersDiffer(t, r1, c1, r2, c2, k, c);
        }
      }
    }
  }

  // In particular, batches whose rows carry nothing outside their groups may.
  lemma BatchesCommute<D(!new)>(t: Table<D>, r1: seq<MetricDay<D>>, c1: MetricCols, r2: seq<MetricDay<D>>,
        c2: MetricCols)
    requires DisjointCols(c1, c2) && OnlyNamed(r1, c1) && OnlyNamed(r2, c2)
    ensures Upsert(Upsert(t, r1, c1), r2, c2) == Upsert(Upsert(t, r2, c2), r1, c1)
  {
    hide Upsert, FirstFor, Get, Named;
    BatchesCommuteExactly(t, r1, c1, r2, c2);
  }
}
