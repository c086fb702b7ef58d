// Google Play ingestion for one app: months and unchanged files are skipped, and an
// error-free run still leaves everything a complete download would have stored.
module PlayIngest {
  import opened MetricStore
  import opened Texts
  import opened Wrappers

  datatype Kind = InstallsOverview | InstallsCountry | CrashesOverview | RatingsOverview | RatingsCountry | Reviews

  // A report object's name: for one app, its kind and month.
  datatype Name = Name(kind: Kind, month: int)

  datatype Object = Object(name: Name, generation: string)

  // One line of a statistics file. Days are day numbers.
  datatype StatRow = StatRow(
    day: int, country: string,
    userInstalls: int, deviceUpgrades: int, userUninstalls: int, activeDevices: Option<int>,
    crashes: int, anrs: int)

  // What is behind each listed generation of each file.
  type Contents = map<Object, seq<StatRow>>

  datatype Mode = Full | Delta

  // One run for this app: the listing, the calendar, the files whose download, parse
  // or upsert fails, the object before which a cancellation is noticed, if any, whether
  // writing the checkpoint fails, and which reads fail. SyncApp takes a checkpoint or a
  // generation it cannot read for an absent one.
  datatype Run = Run(
    mode: Mode, objects: seq<Object>, currentMonth: int, previousMonth: int,
    failing: set<Name>, cancelAt: Option<nat>, checkpointFails: bool,
    checkpointUnread: bool, marksUnread: set<Name>)

  // The app's part of the database.
  datatype Db = Db(table: Table<int>, checkpoint: Option<int>, ingested: map<Name, string>)

  // The setting and the calendar, fixed over a history: App Store launch day, overlap
  // in days, and the month of each day.
  datatype World = World(app: int, launch: int, overlap: nat, monthOf: int -> int, contents: Contents)

  // ---- osync.DeltaFrom ----

  function DeltaFrom(w: World, mode: Mode, checkpoint: Option<int>): int {
    if mode.Full? || checkpoint.None? then w.launch else checkpoint.value - w.overlap
  }

  // ---- toMetricDays ----

  function CountryOf(kind: Kind, r: StatRow): string {
    if kind.InstallsCountry? then (if r.country == "" then "ZZ" else ToUpper(r.country)) else "*"
  }

  function KeyOf(w: World, kind: Kind, r: StatRow): Key<int> {
    Key(w.app, r.day, CountryOf(kind, r))
  }

  function MetricsOf(kind: Kind, r: StatRow): Metrics {
    if kind.CrashesOverview? then NO_METRICS.(crashes := r.crashes, anrs := r.anrs)
    else if kind.InstallsOverview? || kind.InstallsCountry? then
      NO_METRICS.(downloads := r.userInstalls, updates := r.deviceUpgrades, uninstalls := r.userUninstalls,
                  activeDevices := if r.activeDevices.Some? then r.activeDevices.value else 0)
    else NO_METRICS
  }

  function ColsOf(kind: Kind, r: StatRow): MetricCols {
    if kind.CrashesOverview? then MetricCols(false, false, false, true)
    else if kind.InstallsOverview? || kind.InstallsCountry? then MetricCols(true, true, r.activeDevices.Some?, false)
    else MetricCols(false, false, false, false)
  }

  function DaysFrom(w: World, kind: Kind, rows: seq<StatRow>, from: int): seq<MetricDay<int>> {
    if rows == [] then []
    else
      var r := rows[|rows| - 1];
      DaysFrom(w, kind, rows[..|rows| - 1], from) +
        if r.day < from then [] else [MetricDay(KeyOf(w, kind, r), MetricsOf(kind, r))]
  }

  // The groups follow the last row taken, as the loop overwrites them each time.
  function ColsFrom(kind: Kind, rows: seq<StatRow>, from: int): MetricCols {
    if rows == [] then MetricCols(false, false, false, false)
    else
      var r := rows[|rows| - 1];
      if r.day < from then ColsFrom(kind, rows[..|rows| - 1], from) else ColsOf(kind, r)
  }

  // The country column of a report as the table spells it.
  ghost predicate Spells(code: string, country: string) {
    if country == "" then code == "ZZ"
    else
      && |code| == |country|
      && forall i :: 0 <= i < |code| ==>
        code[i] == if 'a' <= country[i] <= 'z' then (country[i] as int - 32) as char else country[i]
  }

  // The lines dated on or after a day.
  function Taken(rows: seq<StatRow>, from: int): seq<StatRow> {
    if rows == [] then []
    else
      var r := rows[|rows| - 1];
      Taken(rows[..|rows| - 1], from) + if r.day < from then [] else [r]
  }

  // The row of the table that a line becomes.
  ghost predicate IsDayOf(w: World, kind: Kind, r: StatRow, d: MetricDay<int>) {
    && d.key.app == w.app && d.key.day == r.day
    && (if kind.InstallsCountry? then Spells(d.key.country, r.country) else d.key.country == "*")
    && (kind.InstallsOverview? || kind.InstallsCountry? ==> d.metrics == Metrics(
          r.userInstalls, 0, r.deviceUpgrades, r.userUninstalls,
          (if r.activeDevices.Some? then r.activeDevices.value else 0), 0, 0))
    && (kind.CrashesOverview? ==> d.metrics == Metrics(0, 0, 0, 0, 0, r.crashes, r.anrs))
  }

  lemma {:induction false} DaysAreLines(w: World, kind: Kind, rows: seq<StatRow>, from: int)
    ensures var days, taken := DaysFrom(w, kind, rows, from), Taken(rows, from);
      |days| == |taken| && forall i :: 0 <= i < |days| ==> IsDayOf(w, kind, taken[i], days[i])
  {
    hide KeyOf, MetricsOf, IsDayOf;
    if rows != [] {
      DaysAreLines(w, kind, rows[..|rows| - 1], from);
      LineBecomes(w, kind, rows[|rows| - 1]);
    }
  }

  lemma LineBecomes(w: World, kind: Kind, r: StatRow)
    ensures IsDayOf(w, kind, r, MetricDay(KeyOf(w, kind, r), MetricsOf(kind, r)))
  {}

  method ToMetricDays(w: World, kind: Kind, rows: seq<StatRow>, from: int)
    returns (out: seq<MetricDay<int>>, cols: MetricCols)
    ensures out == DaysFrom(w, kind, rows, from) && cols == ColsFrom(kind, rows, from)
    ensures |out| == |Taken(rows, from)|
    ensures forall i :: 0 <= i < |out| ==> IsDayOf(w, kind, Taken(rows, from)[i], out[i])
  {
    hide IsDayOf;
    DaysAreLines(w, kind, rows, from);
    out := [];
    cols := MetricCols(false, false, false, false);
    for i := 0 to |rows|
      invariant out == DaysFrom(w, kind, rows[..i], from) && cols == ColsFrom(kind, rows[..i], from)
    {
      var r := rows[i];
      assert rows[..i + 1][..i] == rows[..i];
      if r.day >= from {
        out := out + [MetricDay(KeyOf(w, kind, r), MetricsOf(kind, r))];
        cols := ColsOf(kind, r);
      }
    }
    assert rows[..|rows|] == rows;
  }

  // ---- SyncApp ----

  predicate IsMetric(kind: Kind) {
    kind.InstallsOverview? || kind.InstallsCountry? || kind.CrashesOverview?
  }

  function Generation(db: Db, n: Name): string {
    if n in db.ingested then db.ingested[n] else ""
  }

  function ReadGeneration(db: Db, run: Run, n: Name): string {
    if n in run.marksUnread then "" else Generation(db, n)
  }

  function ReadCheckpoint(db: Db, run: Run): Option<int> {
    if run.checkpointUnread then None else db.checkpoint
  }

  predicate Skips(db: Db, run: Run, o: Object, fromMonth: int) {
    || o.name.month < fromMonth
    || (run.mode.Delta? && o.name.month != run.currentMonth && o.name.month != run.previousMonth
        && ReadGeneration(db, run, o.name) == o.generation)
  }

  function RowsOf(w: World, o: Object): seq<StatRow> {
    if o in w.contents then w.contents[o] else []
  }

  function MaxDay(a: Option<int>, b: Option<int>): Option<int> {
    if a.None? then b else if b.None? then a else if a.value > b.value then a else b
  }

  function LatestDay(days: seq<MetricDay<int>>): Option<int> {
    if days == [] then None else MaxDay(LatestDay(days[..|days| - 1]), Some(days[|days| - 1].key.day))
  }

  // The state of the loop over objects.
  datatype Progress = Progress(db: Db, maxDay: Option<int>, failed: bool)

  // One object: skipped, failed, or stored and marked in one transaction.
  function Ingest(w: World, run: Run, from: int, p: Progress, o: Object): Progress {
    if Skips(p.db, run, o, w.monthOf(from)) then p
    else if o.name in run.failing then p.(failed := true)
    else if IsMetric(o.name.kind) then
      var days := DaysFrom(w, o.name.kind, RowsOf(w, o), from);
      var cols := ColsFrom(o.name.kind, RowsOf(w, o), from);
      Progress(p.db.(table := Upsert(p.db.table, days, cols), ingested := p.db.ingested[o.name := o.generation]),
        MaxDay(p.maxDay, LatestDay(days)), p.failed)
    else if o.name.kind.RatingsCountry? then p
    else p.(db := p.db.(ingested := p.db.ingested[o.name := o.generation]))
  }

  function IngestAll(w: World, run: Run, from: int, p: Progress, objects: seq<Object>): Progress {
    if objects == [] then p
    else Ingest(w, run, from, IngestAll(w, run, from, p, objects[..|objects| - 1]), objects[|objects| - 1])
  }

  // The checkpoint becomes the later of the latest day stored and the checkpoint read, even
  // if some file failed.
  function Finish(p: Progress, read: Option<int>): Db {
    if p.maxDay.None? then p.db else p.db.(checkpoint := MaxDay(p.maxDay, read))
  }

  function Reached(run: Run): seq<Object> {
    if run.cancelAt.Some? && run.cancelAt.value < |run.objects| then run.objects[..run.cancelAt.value] else run.objects
  }

  predicate Cancelled(run: Run) {
    run.cancelAt.Some? && run.cancelAt.value < |run.objects|
  }

  function From(w: World, db: Db, run: Run): int {
    DeltaFrom(w, run.mode, ReadCheckpoint(db, run))
  }

  function LoopEnd(w: World, db: Db, run: Run): Progress {
    IngestAll(w, run, From(w, db, run), Progress(db, None, false), Reached(run))
  }

  function ApplyRun(w: World, db: Db, run: Run): Db {
    if Cancelled(run) || run.checkpointFails then LoopEnd(w, db, run).db
    else Finish(LoopEnd(w, db, run), ReadCheckpoint(db, run))
  }

  class Ingester {
    const w: World
    var table: Table<int>
    var checkpoint: Option<int>
    var ingested: map<Name, string>

    constructor (w: World)
      ensures this.w == w && View() == Db(map[], None, map[])
    {
      this.w := w;
      table, checkpoint, ingested := map[], None, map[];
    }

    ghost function View(): Db
      reads this
    {
      Db(table, checkpoint, ingested)
    }

    // ok: the returned error is nil.
    method SyncApp(run: Run) returns (ok: bool)
      modifies this
      ensures View() == ApplyRun(w, old(View()), run)
      ensures ok == (
        && !Cancelled(run) && !LoopEnd(w, old(View()), run).failed
        && !(run.checkpointFails && LoopEnd(w, old(View()), run).maxDay.Some?))
    {
      var cp := if run.checkpointUnread then None else checkpoint;
      var from := DeltaFrom(w, run.mode, cp);
      var fromMonth := w.monthOf(from);
      var maxDay: Option<int> := None;
      ok := true;
      ghost var start := Progress(View(), None, false);
      assert Reached(run) == [] ==> LoopEnd(w, View(), run) == start;
      for i := 0 to |run.objects|
        invariant i <= |Reached(run)|
        invariant Progress(View(), maxDay, !ok) == IngestAll(w, run, from, start, run.objects[..i])
      {
        if run.cancelAt == Some(i) {
          assert run.objects[..i] == Reached(run);
          return false;
        }
        var o := run.objects[i];
        assert run.objects[..i + 1][..i] == run.objects[..i];
        if !Skips(Db(table, checkpoint, ingested), run, o, fromMonth) {
          if o.name in run.failing {
            ok := false;
          } else if IsMetric(o.name.kind) {
            var days, cols := ToMetricDays(w, o.name.kind, RowsOf(w, o), from);
            table := Upsert(table, days, cols);
            ingested := ingested[o.name := o.generation];
            maxDay := MaxDay(maxDay, LatestDay(days));
          } else if !o.name.kind.RatingsCountry? {
            ingested := ingested[o.name := o.generation];
          }
        }
      }
      assert run.objects[..|run.objects|] == Reached(run);
      if maxDay.Some? {
        if run.checkpointFails {
          ok := false;
        } else {
          checkpoint := MaxDay(maxDay, cp);
        }
      }
    }
  }

  // ---- what the store guarantees ----

  // Months follow days, every file holds only its own month, and no country column
  // reads "*", the country of the overview rows.
  ghost predicate WorldOk(w: World) {
    && (forall a, b :: a <= b ==> w.monthOf(a) <= w.monthOf(b))
    && (forall o :: o in w.contents ==> forall i :: 0 <= i < |w.contents[o]| ==> RowOk(w, o.name, w.contents[o][i]))
  }

  predicate RowOk(w: World, n: Name, r: StatRow) {
    w.monthOf(r.day) == n.month && (n.kind.InstallsCountry? ==> CountryOf(n.kind, r) != "*")
  }

  // A listing names each file once; generations are never empty strings.
  ghost predicate RunOk(run: Run) {
    && (forall i :: 0 <= i < |run.objects| ==> run.objects[i].generation != "")
    && (forall i, j :: 0 <= i < j < |run.objects| ==> run.objects[i].name != run.objects[j].name)
  }

  // ---- what is stored ----

  // The figures a file is the source of.
  predicate Figure(kind: Kind, c: Column) {
    if kind.CrashesOverview? then c.Crashes? || c.Anrs?
    else (kind.InstallsOverview? || kind.InstallsCountry?) && (c.Downloads? || c.Updates? || c.Uninstalls?)
  }

  // Row i of the file is the last one for its key.
  predicate IsLast(w: World, kind: Kind, rows: seq<StatRow>, i: nat)
    requires i < |rows|
  {
    forall j :: i < j < |rows| ==> KeyOf(w, kind, rows[j]) != KeyOf(w, kind, rows[i])
  }

  ghost predicate Shows(w: World, t: Table<int>, kind: Kind, r: StatRow) {
    var k := KeyOf(w, kind, r);
    k in t && forall c :: Figure(kind, c) ==> Get(t[k], c) == Get(MetricsOf(kind, r), c)
  }

  // Every figure of the file dated on or after `from` is in the table.
  ghost predicate Holds(w: World, t: Table<int>, o: Object, from: int) {
    var rows := RowsOf(w, o);
    forall i :: 0 <= i < |rows| && from <= rows[i].day && IsLast(w, o.name.kind, rows, i) ==>
      Shows(w, t, o.name.kind, rows[i])
  }

  lemma {:induction false} LastDay(w: World, kind: Kind, rows: seq<StatRow>, from: int, i: nat)
    requires i < |rows| && from <= rows[i].day && IsLast(w, kind, rows, i)
    ensures var days := DaysFrom(w, kind, rows, from);
      var d := LastFor(days, KeyOf(w, kind, rows[i]));
      d >= 0 && days[d].metrics == MetricsOf(kind, rows[i])
  {
    hide KeyOf, MetricsOf;
    var n := |rows| - 1;
    var days := DaysFrom(w, kind, rows, from);
    if i < n {
      LastDay(w, kind, rows[..n], from, i);
      var before := DaysFrom(w, kind, rows[..n], from);
      assert days == before || (|days| == |before| + 1 && days[..|before|] == before);
    }
  }

  lemma {:induction false} FiguresNamed(kind: Kind, rows: seq<StatRow>, from: int, i: nat, c: Column)
    requires i < |rows| && from <= rows[i].day && Figure(kind, c)
    ensures Named(ColsFrom(kind, rows, from), c)
  {
    var n := |rows| - 1;
    if i < n {
      FiguresNamed(kind, rows[..n], from, i, c);
    }
  }

  // Upserting a file stores its figures.
  lemma IngestStores(w: World, t: Table<int>, o: Object, from: int)
    ensures var rows := RowsOf(w, o);
      Holds(w, Upsert(t, DaysFrom(w, o.name.kind, rows, from), ColsFrom(o.name.kind, rows, from)), o, from)
  {
    hide MetricsOf, KeyOf, DaysFrom, ColsFrom, Upsert, Figure;
    var rows, kind := RowsOf(w, o), o.name.kind;
    var days, cols := DaysFrom(w, kind, rows, from), ColsFrom(kind, rows, from);
    forall i | 0 <= i < |rows| && from <= rows[i].day && IsLast(w, kind, rows, i)
      ensures Shows(w, Upsert(t, days, cols), kind, rows[i])
    {
      LastDay(w, kind, rows, from, i);
      var k := KeyOf(w, kind, rows[i]);
      LastWriterWins(t, days, cols, k, Downloads);
      forall c | Figure(kind, c) ensures Get(Upsert(t, days, cols)[k], c) == Get(MetricsOf(kind, rows[i]), c) {
        FiguresNamed(kind, rows, from, i, c);
        LastWriterWins(t, days, cols, k, c);
      }
    }
  }

  // ---- the stored figures, field by field ----

  // The file's lines for the whole store: the last line of a day counts.
  ghost predicate LastOfDay(rows: seq<StatRow>, i: nat)
    requires i < |rows|
  {
    forall j :: i < j < |rows| ==> rows[j].day != rows[i].day
  }

  ghost predicate LastOfCountry(rows: seq<StatRow>, i: nat, code: string)
    requires i < |rows|
  {
    forall j :: i < j < |rows| ==> !(rows[j].day == rows[i].day && Spells(code, rows[j].country))
  }

  ghost predicate ShowsInstalls(t: Table<int>, k: Key<int>, r: StatRow) {
    && k in t && t[k].downloads == r.userInstalls && t[k].updates == r.deviceUpgrades
    && t[k].uninstalls == r.userUninstalls
  }

  ghost predicate ShowsCrashes(t: Table<int>, k: Key<int>, r: StatRow) {
    k in t && t[k].crashes == r.crashes && t[k].anrs == r.anrs
  }

  // The table shows the installs of an overview or country file, or the crashes of a crashes
  // file, from a day on.
  ghost predicate FiguresStored(w: World, t: Table<int>, o: Object, from: int) {
    var rows := RowsOf(w, o);
    match o.name.kind
    case InstallsOverview =>
      forall i :: 0 <= i < |rows| && from <= rows[i].day && LastOfDay(rows, i) ==>
        ShowsInstalls(t, Key(w.app, rows[i].day, "*"), rows[i])
    case InstallsCountry =>
      forall i, code ::
        0 <= i < |rows| && from <= rows[i].day && Spells(code, rows[i].country) && LastOfCountry(rows, i, code) ==>
          ShowsInstalls(t, Key(w.app, rows[i].day, code), rows[i])
    case CrashesOverview =>
      forall i :: 0 <= i < |rows| && from <= rows[i].day && LastOfDay(rows, i) ==>
        ShowsCrashes(t, Key(w.app, rows[i].day, "*"), rows[i])
    case _ => true
  }

  lemma SpellsCountry(code: string, r: StatRow)
    ensures Spells(code, r.country) <==> code == CountryOf(InstallsCountry, r)
  {
    var up := CountryOf(InstallsCountry, r);
    if r.country != "" && Spells(code, r.country) {
      forall i | 0 <= i < |code| ensures code[i] == up[i] {}
    }
  }

  lemma LastForKey(w: World, kind: Kind, rows: seq<StatRow>, i: nat)
    requires i < |rows|
    ensures kind.InstallsOverview? || kind.CrashesOverview? ==> (LastOfDay(rows, i) <==> IsLast(w, kind, rows, i))
    ensures kind.InstallsCountry? ==>
      (LastOfCountry(rows, i, CountryOf(kind, rows[i])) <==> IsLast(w, kind, rows, i))
  {
    if kind.InstallsCountry? {
      hide CountryOf, Spells;
      var code := CountryOf(kind, rows[i]);
      forall j | 0 <= j < |rows| ensures Spells(code, rows[j].country) <==> code == CountryOf(kind, rows[j]) {
        SpellsCountry(code, rows[j]);
      }
    }
  }

  lemma ShownFigures(w: World, t: Table<int>, kind: Kind, r: StatRow)
    requires Shows(w, t, kind, r)
    ensures kind.InstallsOverview? ==> ShowsInstalls(t, Key(w.app, r.day, "*"), r)
    ensures kind.InstallsCountry? ==> ShowsInstalls(t, Key(w.app, r.day, CountryOf(kind, r)), r)
    ensures kind.CrashesOverview? ==> ShowsCrashes(t, Key(w.app, r.day, "*"), r)
  {
    var k := KeyOf(w, kind, r);
    if kind.CrashesOverview? {
      assert Figure(kind, Crashes) && Figure(kind, Anrs);
    } else if kind.InstallsOverview? || kind.InstallsCountry? {
      assert Figure(kind, Downloads) && Figure(kind, Updates) && Figure(kind, Uninstalls);
    }
  }

  // What holding a file's figures means, column by column.
  lemma HeldFigures(w: World, t: Table<int>, o: Object, from: int)
    requires Holds(w, t, o, from)
    ensures FiguresStored(w, t, o, from)
  {
    hide Shows, CountryOf, Spells, LastOfDay, LastOfCountry, IsLast, ShowsInstalls, ShowsCrashes;
    var rows, kind := RowsOf(w, o), o.name.kind;
    forall i | 0 <= i < |rows| && from <= rows[i].day && IsLast(w, kind, rows, i)
      ensures kind.InstallsOverview? ==> ShowsInstalls(t, Key(w.app, rows[i].day, "*"), rows[i])
      ensures kind.InstallsCountry? ==> ShowsInstalls(t, Key(w.app, rows[i].day, CountryOf(kind, rows[i])), rows[i])
      ensures kind.CrashesOverview? ==> ShowsCrashes(t, Key(w.app, rows[i].day, "*"), rows[i])
    {
      ShownFigures(w, t, kind, rows[i]);
    }
    forall i | 0 <= i < |rows|
      ensures kind.InstallsOverview? || kind.CrashesOverview? ==> (LastOfDay(rows, i) <==> IsLast(w, kind, rows, i))
      ensures kind.InstallsCountry? ==>
        (LastOfCountry(rows, i, CountryOf(kind, rows[i])) <==> IsLast(w, kind, rows, i))
    {
      LastForKey(w, kind, rows, i);
    }
    forall i, code | 0 <= i < |rows| && Spells(code, rows[i].country)
      ensures code == CountryOf(InstallsCountry, rows[i])
    {
      SpellsCountry(code, rows[i]);
    }
  }

  // Ratings and reviews have no figures in the table.
  lemma NoFigures(w: World, t: Table<int>, o: Object, from: int)
    requires !(o.name.kind.InstallsOverview? || o.name.kind.InstallsCountry? || o.name.kind.CrashesOverview?)
    ensures FiguresStored(w, t, o, from)
  {}

  // Upserting a file leaves, for every last line of a day (and country) from the first day on,
  // a row with that line's installs, upgrades and uninstalls, or its crashes and ANRs.
  lemma IngestStoresFigures(w: World, t: Table<int>, o: Object, from: int)
    ensures var rows := RowsOf(w, o);
      FiguresStored(w, Upsert(t, DaysFrom(w, o.name.kind, rows, from), ColsFrom(o.name.kind, rows, from)), o, from)
  {
    hide Holds, FiguresStored, DaysFrom, ColsFrom, Upsert;
    IngestStores(w, t, o, from);
    HeldFigures(w, AfterFile(w, t, o, from), o, from);
  }

  // Active devices follow the last line taken: where it has a count, every row shows its own
  // line's count, 0 for none; where it has none, rows that were there keep theirs.
  lemma ActiveDevicesStored(w: World, t: Table<int>, o: Object, from: int, i: nat, last: nat)
    requires o.name.kind.InstallsOverview? || o.name.kind.InstallsCountry?
    requires var rows := RowsOf(w, o);
      && i < |rows| && from <= rows[i].day && IsLast(w, o.name.kind, rows, i)
      && last < |rows| && from <= rows[last].day && (forall j :: last < j < |rows| ==> rows[j].day < from)
    ensures var rows := RowsOf(w, o);
      var k, u := KeyOf(w, o.name.kind, rows[i]), AfterFile(w, t, o, from);
      && k in u
      && (rows[last].activeDevices.Some? ==>
            u[k].activeDevices == if rows[i].activeDevices.Some? then rows[i].activeDevices.value else 0)
      && (rows[last].activeDevices.None? && k in t ==> u[k].activeDevices == t[k].activeDevices)
  {
    hide KeyOf, DaysFrom, ColsFrom, Upsert;
    var rows, kind := RowsOf(w, o), o.name.kind;
    LastDay(w, kind, rows, from, i);
    LastTaken(kind, rows, from, last);
    LastWriterWins(t, DaysFrom(w, kind, rows, from), ColsFrom(kind, rows, from), KeyOf(w, kind, rows[i]),
      ActiveDevices);
  }

  lemma {:induction false} LastTaken(kind: Kind, rows: seq<StatRow>, from: int, last: nat)
    requires last < |rows| && from <= rows[last].day && (forall j :: last < j < |rows| ==> rows[j].day < from)
    ensures ColsFrom(kind, rows, from) == ColsOf(kind, rows[last])
  {
    if last < |rows| - 1 {
      LastTaken(kind, rows[..|rows| - 1], from, last);
    }
  }

  // Where a day of the batch comes from.
  lemma {:induction false} DayOrigin(w: World, kind: Kind, rows: seq<StatRow>, from: int, d: nat) returns (i: nat)
    requires d < |DaysFrom(w, kind, rows, from)|
    ensures i < |rows| && DaysFrom(w, kind, rows, from)[d] ==
      MetricDay(KeyOf(w, kind, rows[i]), MetricsOf(kind, rows[i]))
  {
    hide KeyOf, MetricsOf;
    var n := |rows| - 1;
    var before := DaysFrom(w, kind, rows[..n], from);
    if d < |before| {
      i := DayOrigin(w, kind, rows[..n], from, d);
    } else {
      i := n;
    }
  }

  lemma {:induction false} NamedOnlyFigures(kind: Kind, rows: seq<StatRow>, from: int, other: Kind, c: Column)
    requires Named(ColsFrom(kind, rows, from), c) && Figure(other, c)
    ensures kind.CrashesOverview? <==> other.CrashesOverview?
  {
    if rows != [] && rows[|rows| - 1].day < from {
      NamedOnlyFigures(kind, rows[..|rows| - 1], from, other, c);
    }
  }

  // Files with different names never store the same figure.
  lemma FilesAreApart(w: World, a: Object, r: StatRow, b: Object, q: StatRow)
    requires WorldOk(w) && a.name != b.name && IsMetric(a.name.kind) && IsMetric(b.name.kind)
    requires r in RowsOf(w, a) && q in RowsOf(w, b) && KeyOf(w, a.name.kind, r) == KeyOf(w, b.name.kind, q)
    ensures a.name.kind.CrashesOverview? != b.name.kind.CrashesOverview?
  {
    RowIsOk(w, a, r);
    RowIsOk(w, b, q);
  }

  lemma RowIsOk(w: World, a: Object, r: StatRow)
    requires WorldOk(w) && r in RowsOf(w, a)
    ensures RowOk(w, a.name, r)
  {
    var i :| 0 <= i < |RowsOf(w, a)| && RowsOf(w, a)[i] == r;
    assert a in w.contents;
  }

  // A figure as a reader sees it: an absent row reads as 0.
  function Value(t: Table<int>, k: Key<int>, c: Column): int {
    if k in t then Get(t[k], c) else 0
  }

  // The figures file o is the source of read alike in t and u, and no row is gone.
  ghost predicate SameFigures(w: World, t: Table<int>, u: Table<int>, o: Object) {
    && t.Keys <= u.Keys
    && forall r, c :: r in RowsOf(w, o) && Figure(o.name.kind, c) ==> SameFigure(w, t, u, o, r, c)
  }

  predicate SameFigure(w: World, t: Table<int>, u: Table<int>, o: Object, r: StatRow, c: Column) {
    Value(u, KeyOf(w, o.name.kind, r), c) == Value(t, KeyOf(w, o.name.kind, r), c)
  }

  lemma ZeroElsewhere(kind: Kind, r: StatRow, other: Kind, c: Column)
    requires Figure(other, c) && kind.CrashesOverview? != other.CrashesOverview?
    ensures Get(MetricsOf(kind, r), c) == 0
  {}

  function AfterFile(w: World, t: Table<int>, o: Object, from: int): Table<int> {
    Upsert(t, DaysFrom(w, o.name.kind, RowsOf(w, o), from), ColsFrom(o.name.kind, RowsOf(w, o), from))
  }

  // Another file's upsert leaves a figure's value as it was.
  lemma OtherKeepsFigure(w: World, t: Table<int>, a: Object, r: StatRow, c: Column, o: Object, from: int)
    requires WorldOk(w) && a.name != o.name && IsMetric(a.name.kind) && IsMetric(o.name.kind)
    requires r in RowsOf(w, a) && Figure(a.name.kind, c)
    ensures SameFigure(w, t, AfterFile(w, t, o, from), a, r, c)
  {
    hide MetricsOf, KeyOf, DaysFrom, ColsFrom, Upsert, Figure, WorldOk, Get, Named;
    var k, kind := KeyOf(w, a.name.kind, r), o.name.kind;
    var days, cols := DaysFrom(w, kind, RowsOf(w, o), from), ColsFrom(kind, RowsOf(w, o), from);
    LastWriterWins(t, days, cols, k, c);
    if LastFor(days, k) >= 0 {
      var j := DayOrigin(w, kind, RowsOf(w, o), from, LastFor(days, k));
      FilesAreApart(w, a, r, o, RowsOf(w, o)[j]);
      if Named(cols, c) {
        NamedOnlyFigures(kind, RowsOf(w, o), from, a.name.kind, c);
        assert false;
      }
      var i := DayOrigin(w, kind, RowsOf(w, o), from, FirstFor(days, k));
      ZeroElsewhere(kind, RowsOf(w, o)[i], a.name.kind, c);
    }
  }

  lemma OtherKeepsFigures(w: World, t: Table<int>, a: Object, o: Object, from: int)
    requires WorldOk(w) && a.name != o.name && IsMetric(a.name.kind) && IsMetric(o.name.kind)
    ensures SameFigures(w, t, AfterFile(w, t, o, from), a)
  {
    hide WorldOk, SameFigure, AfterFile, Figure;
    var u := AfterFile(w, t, o, from);
    forall k | k in t ensures k in u {
      RowsStay(w, t, o, from, k);
    }
    forall r, c | r in RowsOf(w, a) && Figure(a.name.kind, c) ensures SameFigure(w, t, u, a, r, c) {
      OtherKeepsFigure(w, t, a, r, c, o, from);
    }
  }

  lemma RowsStay(w: World, t: Table<int>, o: Object, from: int, k: Key<int>)
    requires k in t
    ensures k in AfterFile(w, t, o, from)
  {
    hide DaysFrom, ColsFrom, Upsert;
    LastWriterWins(t, DaysFrom(w, o.name.kind, RowsOf(w, o), from), ColsFrom(o.name.kind, RowsOf(w, o), from), k,
      Downloads);
  }

  // What is shown stays shown while figures read alike.
  lemma SameKeepsHolds(w: World, t: Table<int>, u: Table<int>, o: Object, bound: int)
    requires SameFigures(w, t, u, o) && Holds(w, t, o, bound)
    ensures Holds(w, u, o, bound)
  {
    hide MetricsOf, KeyOf, Figure, Get, IsLast;
    var rows, kind := RowsOf(w, o), o.name.kind;
    forall i | 0 <= i < |rows| && bound <= rows[i].day && IsLast(w, kind, rows, i) ensures Shows(w, u, kind, rows[i]) {
      assert Shows(w, t, kind, rows[i]);
      assert rows[i] in rows;
      forall c | Figure(kind, c) ensures Get(u[KeyOf(w, kind, rows[i])], c) == Get(MetricsOf(kind, rows[i]), c) {
        assert SameFigure(w, t, u, o, rows[i], c);
      }
    }
  }

  lemma IngestKeepsOthers(w: World, t: Table<int>, a: Object, bound: int, o: Object, from: int)
    requires WorldOk(w) && a.name != o.name && IsMetric(a.name.kind) && IsMetric(o.name.kind)
    requires Holds(w, t, a, bound)
    ensures Holds(w, AfterFile(w, t, o, from), a, bound)
  {
    hide WorldOk, Holds, SameFigures, AfterFile;
    OtherKeepsFigures(w, t, a, o, from);
    SameKeepsHolds(w, t, AfterFile(w, t, o, from), a, bound);
  }

  // ---- exactly what one run stores ----

  // The figures of the file dated on or after `from` read as the file says.
  ghost predicate Right(w: World, t: Table<int>, o: Object, from: int) {
    var rows := RowsOf(w, o);
    forall i :: 0 <= i < |rows| && from <= rows[i].day && IsLast(w, o.name.kind, rows, i) ==>
      ReadsRight(w, t, o.name.kind, rows[i])
  }

  ghost predicate ReadsRight(w: World, t: Table<int>, kind: Kind, r: StatRow) {
    forall c :: Figure(kind, c) ==> Value(t, KeyOf(w, kind, r), c) == Get(MetricsOf(kind, r), c)
  }

  lemma HoldsIsRight(w: World, t: Table<int>, o: Object, from: int)
    requires Holds(w, t, o, from)
    ensures Right(w, t, o, from)
  {
    hide MetricsOf, KeyOf, Figure, Get, IsLast;
    var rows, kind := RowsOf(w, o), o.name.kind;
    forall i | 0 <= i < |rows| && from <= rows[i].day && IsLast(w, kind, rows, i)
      ensures ReadsRight(w, t, kind, rows[i])
    {
      assert Shows(w, t, kind, rows[i]);
    }
  }

  lemma SameKeepsRight(w: World, t: Table<int>, u: Table<int>, o: Object, from: int)
    requires SameFigures(w, t, u, o)
    ensures Right(w, t, o, from) <==> Right(w, u, o, from)
  {
    hide MetricsOf, KeyOf, Figure, Get, IsLast, Value;
    var rows, kind := RowsOf(w, o), o.name.kind;
    forall i | 0 <= i < |rows| ensures ReadsRight(w, t, kind, rows[i]) <==> ReadsRight(w, u, kind, rows[i]) {
      assert rows[i] in rows;
      forall c | Figure(kind, c)
        ensures Value(u, KeyOf(w, kind, rows[i]), c) == Value(t, KeyOf(w, kind, rows[i]), c)
      {
        assert SameFigure(w, t, u, o, rows[i], c);
      }
    }
  }

  lemma SameAsItself(w: World, t: Table<int>, o: Object)
    ensures SameFigures(w, t, t, o)
  {}

  lemma SameChains(w: World, t: Table<int>, u: Table<int>, v: Table<int>, o: Object)
    requires SameFigures(w, t, u, o) && SameFigures(w, u, v, o)
    ensures SameFigures(w, t, v, o)
  {
    hide KeyOf, Figure, Value;
    forall r, c | r in RowsOf(w, o) && Figure(o.name.kind, c) ensures SameFigure(w, t, v, o, r, c) {
      assert SameFigure(w, t, u, o, r, c) && SameFigure(w, u, v, o, r, c);
    }
  }

  lemma OtherObject(w: World, run: Run, from: int, p: Progress, o: Object, a: Object)
    requires WorldOk(w) && a.name != o.name && IsMetric(a.name.kind)
    ensures SameFigures(w, p.db.table, Ingest(w, run, from, p, o).db.table, a)
  {
    hide WorldOk, SameFigures, Skips, DaysFrom, ColsFrom, Upsert;
    SameAsItself(w, p.db.table, a);
    if IsMetric(o.name.kind) {
      OtherKeepsFigures(w, p.db.table, a, o, from);
    }
  }

  // Objects of other names leave a file's figures alone, and its mark.
  lemma {:induction false} OtherObjects(w: World, run: Run, from: int, p: Progress, objects: seq<Object>, a: Object)
    requires WorldOk(w) && IsMetric(a.name.kind)
    requires forall i :: 0 <= i < |objects| ==> objects[i].name != a.name
    ensures SameFigures(w, p.db.table, IngestAll(w, run, from, p, objects).db.table, a)
  {
    hide WorldOk, SameFigures, Ingest;
    if objects == [] {
      SameAsItself(w, p.db.table, a);
    } else {
      var n := |objects| - 1;
      var before := IngestAll(w, run, from, p, objects[..n]);
      OtherObjects(w, run, from, p, objects[..n], a);
      OtherObject(w, run, from, before, objects[n], a);
      SameChains(w, p.db.table, before.db.table, Ingest(w, run, from, before, objects[n]).db.table, a);
    }
  }

  lemma {:induction false} OtherMarks(w: World, run: Run, from: int, p: Progress, objects: seq<Object>, n: Name)
    requires forall i :: 0 <= i < |objects| ==> objects[i].name != n
    ensures Generation(IngestAll(w, run, from, p, objects).db, n) == Generation(p.db, n)
  {
    hide Skips;
    if objects != [] {
      OtherMarks(w, run, from, p, objects[..|objects| - 1], n);
    }
  }

  // An object that is downloaded and stored.
  predicate Takes(w: World, db: Db, run: Run, o: Object) {
    !Skips(db, run, o, w.monthOf(From(w, db, run))) && o.name !in run.failing
  }

  ghost predicate Stores(w: World, db: Db, run: Run, k: nat) {
    k < |Reached(run)| && Takes(w, db, run, Reached(run)[k])
  }

  function Loop(w: World, db: Db, run: Run, objects: seq<Object>): Progress {
    IngestAll(w, run, From(w, db, run), Progress(db, None, false), objects)
  }

  ghost predicate DistinctNames(objects: seq<Object>) {
    forall i, j :: 0 <= i < j < |objects| ==> objects[i].name != objects[j].name
  }

  // The loop's state holds file k: stored from `from` on, or its figures as they were.
  ghost predicate Settled(w: World, db: Db, run: Run, t: Table<int>, o: Object) {
    if Takes(w, db, run, o) then Holds(w, t, o, From(w, db, run)) else SameFigures(w, db.table, t, o)
  }

  lemma OwnObject(w: World, db: Db, run: Run, p: Progress, o: Object)
    requires IsMetric(o.name.kind)
    requires SameFigures(w, db.table, p.db.table, o) && Generation(p.db, o.name) == Generation(db, o.name)
    ensures var next := Ingest(w, run, From(w, db, run), p, o);
      && Settled(w, db, run, next.db.table, o)
      && (!Takes(w, db, run, o) && !Skips(db, run, o, w.monthOf(From(w, db, run))) ==> next.failed)
  {
    hide SameFigures, Holds, DaysFrom, ColsFrom, Upsert, From;
    IngestStores(w, p.db.table, o, From(w, db, run));
  }

  lemma LaterObject(w: World, db: Db, run: Run, p: Progress, o: Object, a: Object)
    requires WorldOk(w) && a.name != o.name && IsMetric(a.name.kind) && Settled(w, db, run, p.db.table, a)
    ensures Settled(w, db, run, Ingest(w, run, From(w, db, run), p, o).db.table, a)
  {
    hide WorldOk, SameFigures, Holds, Ingest, Takes, From;
    var next := Ingest(w, run, From(w, db, run), p, o);
    OtherObject(w, run, From(w, db, run), p, o, a);
    if Takes(w, db, run, a) {
      SameKeepsHolds(w, p.db.table, next.db.table, a, From(w, db, run));
    } else {
      SameChains(w, db.table, p.db.table, next.db.table, a);
    }
  }

  lemma {:induction false} LoopSettles(w: World, db: Db, run: Run, objects: seq<Object>, k: nat)
    requires WorldOk(w) && DistinctNames(objects) && k < |objects| && IsMetric(objects[k].name.kind)
    ensures Settled(w, db, run, Loop(w, db, run, objects).db.table, objects[k])
    ensures !Takes(w, db, run, objects[k]) && !Skips(db, run, objects[k], w.monthOf(From(w, db, run)))
      ==> Loop(w, db, run, objects).failed
  {
    hide WorldOk, Settled, Skips, Takes, From, Generation, SameFigures;
    var n := |objects| - 1;
    var before := Loop(w, db, run, objects[..n]);
    if k < n {
      LoopSettles(w, db, run, objects[..n], k);
      LaterObject(w, db, run, before, objects[n], objects[k]);
      FailedStays(w, run, From(w, db, run), before, objects[n]);
    } else {
      OtherObjects(w, run, From(w, db, run), Progress(db, None, false), objects[..n], objects[k]);
      OtherMarks(w, run, From(w, db, run), Progress(db, None, false), objects[..n], objects[k].name);
      OwnObject(w, db, run, before, objects[n]);
    }
  }

  lemma FailedStays(w: World, run: Run, from: int, p: Progress, o: Object)
    ensures p.failed ==> Ingest(w, run, from, p, o).failed
  {}

  lemma RunTable(w: World, db: Db, run: Run)
    ensures ApplyRun(w, db, run).table == Loop(w, db, run, Reached(run)).db.table
    ensures LoopEnd(w, db, run) == Loop(w, db, run, Reached(run))
  {}

  lemma ReachedNames(run: Run, k: nat)
    requires RunOk(run) && k < |run.objects|
    ensures DistinctNames(Reached(run))
    ensures k < |Reached(run)| ==> Reached(run)[k] == run.objects[k]
    ensures k >= |Reached(run)| ==> forall i :: 0 <= i < |Reached(run)| ==> Reached(run)[i].name != run.objects[k].name
    ensures !Cancelled(run) ==> Reached(run) == run.objects
  {}

  // After any run, failed and cancelled ones included, a file it stores is shown from the
  // run's first day on, and any other file reads exactly as before.
  lemma RunStoresExactly(w: World, db: Db, run: Run, k: nat)
    requires WorldOk(w) && RunOk(run) && k < |run.objects| && IsMetric(run.objects[k].name.kind)
    ensures var o := run.objects[k]; var from := From(w, db, run); var after := ApplyRun(w, db, run).table;
      && (Stores(w, db, run, k) ==> Holds(w, after, o, from))
      && (!Stores(w, db, run, k) ==> SameFigures(w, db.table, after, o))
      && (Right(w, after, o, from) <==> Stores(w, db, run, k) || Right(w, db.table, o, from))
  {
    hide WorldOk, Holds, SameFigures, Right, IngestAll, Takes, From, ApplyRun, Reached, RunOk, LoopEnd;
    var o, from := run.objects[k], From(w, db, run);
    RunTable(w, db, run);
    ReachedNames(run, k);
    if k < |Reached(run)| {
      LoopSettles(w, db, run, Reached(run), k);
    } else {
      OtherObjects(w, run, from, Progress(db, None, false), Reached(run), o);
    }
    if Stores(w, db, run, k) {
      HoldsIsRight(w, ApplyRun(w, db, run).table, o, from);
    } else {
      SameKeepsRight(w, db.table, ApplyRun(w, db, run).table, o, from);
    }
  }

  lemma TakenUnlessSkipped(w: World, db: Db, run: Run, k: nat)
    requires WorldOk(w) && RunOk(run) && k < |run.objects| && IsMetric(run.objects[k].name.kind)
    requires !Cancelled(run) && !LoopEnd(w, db, run).failed
    ensures Stores(w, db, run, k) <==> !Skips(db, run, run.objects[k], w.monthOf(From(w, db, run)))
  {
    hide WorldOk, From, Skips, IngestAll, Settled, Reached, RunOk;
    RunTable(w, db, run);
    ReachedNames(run, k);
    LoopSettles(w, db, run, Reached(run), k);
  }

  // The day a run starts from, by its mode and what it read.
  ghost predicate StartsAt(w: World, db: Db, run: Run, from: int) {
    if run.mode.Full? || run.checkpointUnread || db.checkpoint.None? then from == w.launch
    else from == db.checkpoint.value - w.overlap
  }

  // A run looks at a file of a month from its first day's on, unless it is a delta run and
  // the month is neither the current nor the one before and the stored mark is the file's.
  ghost predicate Fetches(w: World, db: Db, run: Run, o: Object, from: int) {
    var n := o.name;
    && w.monthOf(from) <= n.month
    && (run.mode.Full? || n.month == run.currentMonth || n.month == run.previousMonth || n in run.marksUnread
        || n !in db.ingested || db.ingested[n] != o.generation)
  }

  lemma FetchesUnlessSkipped(w: World, db: Db, run: Run, o: Object)
    requires o.generation != ""
    ensures StartsAt(w, db, run, From(w, db, run))
    ensures Fetches(w, db, run, o, From(w, db, run)) <==> !Skips(db, run, o, w.monthOf(From(w, db, run)))
  {}

  lemma OwnMark(w: World, run: Run, from: int, p: Progress, o: Object)
    requires !o.name.kind.RatingsCountry?
    ensures var next := Ingest(w, run, from, p, o); var skips := Skips(p.db, run, o, w.monthOf(from));
      && (!skips && o.name !in run.failing ==> o.name in next.db.ingested && next.db.ingested[o.name] == o.generation)
      && (skips || o.name in run.failing ==> next.db.ingested == p.db.ingested)
      && (next.failed <==> p.failed || (!skips && o.name in run.failing))
  {
    hide Skips;
  }

  lemma OthersMark(w: World, run: Run, from: int, p: Progress, o: Object, n: Name)
    requires o.name != n
    ensures SameMark(p.db, Ingest(w, run, from, p, o).db, n)
  {
    hide Skips;
  }

  ghost predicate SameMark(a: Db, b: Db, n: Name) {
    (n in a.ingested <==> n in b.ingested) && (n in a.ingested ==> a.ingested[n] == b.ingested[n])
  }

  lemma {:induction false} OthersMarks(w: World, run: Run, from: int, p: Progress, objects: seq<Object>, n: Name)
    requires forall i :: 0 <= i < |objects| ==> objects[i].name != n
    ensures SameMark(p.db, IngestAll(w, run, from, p, objects).db, n)
  {
    hide Ingest;
    if objects != [] {
      var m := |objects| - 1;
      OthersMarks(w, run, from, p, objects[..m], n);
      OthersMark(w, run, from, IngestAll(w, run, from, p, objects[..m]), objects[m], n);
    }
  }

  lemma {:induction false} LoopMarks(w: World, db: Db, run: Run, objects: seq<Object>, k: nat)
    requires DistinctNames(objects) && k < |objects| && !objects[k].name.kind.RatingsCountry?
    ensures var o := objects[k]; var after := Loop(w, db, run, objects).db;
      && (Takes(w, db, run, o) ==> o.name in after.ingested && after.ingested[o.name] == o.generation)
      && (!Takes(w, db, run, o) ==> SameMark(db, after, o.name))
  {
    hide Ingest, From, Generation;
    var n, from, start := |objects| - 1, From(w, db, run), Progress(db, None, false);
    var before := Loop(w, db, run, objects[..n]);
    if k < n {
      LoopMarks(w, db, run, objects[..n], k);
      OthersMark(w, run, from, before, objects[n], objects[k].name);
    } else {
      OthersMarks(w, run, from, start, objects[..n], objects[k].name);
      OtherMarks(w, run, from, start, objects[..n], objects[k].name);
      OwnMark(w, run, from, before, objects[n]);
    }
  }

  // The run comes to object k before a cancellation is noticed.
  predicate Reaches(run: Run, k: nat) {
    run.cancelAt.None? || k < run.cancelAt.value
  }

  lemma ReachesPrefix(run: Run, k: nat)
    requires k < |run.objects|
    ensures Reaches(run, k) <==> k < |Reached(run)|
  {}

  // After any run, a file is marked with its generation exactly when the run came to it,
  // fetched it and did not fail on it; otherwise its mark is what it was.
  lemma MarksMoveExactly(w: World, db: Db, run: Run, k: nat, from: int)
    requires RunOk(run) && k < |run.objects| && !run.objects[k].name.kind.RatingsCountry?
    requires StartsAt(w, db, run, from)
    ensures var o := run.objects[k]; var after := ApplyRun(w, db, run);
      if Reaches(run, k) && Fetches(w, db, run, o, from) && o.name !in run.failing then
        o.name in after.ingested && after.ingested[o.name] == o.generation
      else SameMark(db, after, o.name)
  {
    hide IngestAll, Skips, From, Fetches;
    ReachedNames(run, k);
    ReachesPrefix(run, k);
    if k < |Reached(run)| {
      LoopMarks(w, db, run, Reached(run), k);
    } else {
      OthersMarks(w, run, From(w, db, run), Progress(db, None, false), Reached(run), run.objects[k].name);
    }
    FetchesUnlessSkipped(w, db, run, run.objects[k]);
    RunMarks(w, db, run);
  }

  lemma RunMarks(w: World, db: Db, run: Run)
    ensures ApplyRun(w, db, run).ingested == Loop(w, db, run, Reached(run)).db.ingested
  {
    hide IngestAll, From;
  }

  lemma {:induction false} LoopFails(w: World, db: Db, run: Run, objects: seq<Object>)
    requires DistinctNames(objects) && forall i :: 0 <= i < |objects| ==> objects[i].generation != ""
    ensures Loop(w, db, run, objects).failed <==>
      exists i :: 0 <= i < |objects| && Fetches(w, db, run, objects[i], From(w, db, run))
        && objects[i].name in run.failing
  {
    hide Skips, From, Fetches, Generation;
    if objects != [] {
      var n, from, start := |objects| - 1, From(w, db, run), Progress(db, None, false);
      LoopFails(w, db, run, objects[..n]);
      OtherMarks(w, run, from, start, objects[..n], objects[n].name);
      FetchesUnlessSkipped(w, db, run, objects[n]);
      FailsHere(w, run, from, db, Loop(w, db, run, objects[..n]), objects[n]);
    }
  }

  lemma FailsHere(w: World, run: Run, from: int, db: Db, p: Progress, o: Object)
    requires Generation(p.db, o.name) == Generation(db, o.name)
    ensures Ingest(w, run, from, p, o).failed <==>
      p.failed || (!Skips(db, run, o, w.monthOf(from)) && o.name in run.failing)
  {}

  // A run meets an error exactly when a file it fetches fails.
  lemma RunFailsExactly(w: World, db: Db, run: Run, from: int)
    requires RunOk(run) && StartsAt(w, db, run, from)
    ensures LoopEnd(w, db, run).failed <==>
      exists i :: 0 <= i < |run.objects| && Reaches(run, i) && Fetches(w, db, run, run.objects[i], from)
        && run.objects[i].name in run.failing
  {
    hide IngestAll, From, Fetches;
    forall i | 0 <= i < |run.objects| ensures Reaches(run, i) <==> i < |Reached(run)| {
      ReachesPrefix(run, i);
    }
    ReachedDistinct(run);
    StartIs(w, db, run);
    LoopFails(w, db, run, Reached(run));
    ReachedSame(run);
  }

  lemma StartIs(w: World, db: Db, run: Run)
    ensures StartsAt(w, db, run, From(w, db, run))
  {}

  lemma ReachedSame(run: Run)
    ensures |Reached(run)| <= |run.objects| && forall i :: 0 <= i < |Reached(run)| ==> Reached(run)[i] == run.objects[i]
  {}

  // After a run without errors a file reads right from the run's first day on exactly when
  // the file was not skipped or read right before.
  lemma ErrorFreeStoresExactly(w: World, db: Db, run: Run, k: nat)
    requires WorldOk(w) && RunOk(run) && k < |run.objects| && IsMetric(run.objects[k].name.kind)
    requires !Cancelled(run) && !LoopEnd(w, db, run).failed
    ensures var o := run.objects[k]; var from := From(w, db, run);
      Right(w, ApplyRun(w, db, run).table, o, from) <==>
        (Skips(db, run, o, w.monthOf(from)) ==> Right(w, db.table, o, from))
  {
    hide WorldOk, From, Skips, LoopEnd, ApplyRun, Right, Stores, SameFigures, Holds, Cancelled, RunOk;
    RunStoresExactly(w, db, run, k);
    TakenUnlessSkipped(w, db, run, k);
  }

  // ---- exactly when the checkpoint moves ----

  // a is a later checkpoint than b; none is the earliest.
  predicate Later(a: Option<int>, b: Option<int>) {
    a.Some? && (b.None? || b.value < a.value)
  }

  // The days of the metric files among the objects that are stored.
  ghost function StoredDays(w: World, db: Db, run: Run, objects: seq<Object>): set<int> {
    set k, i | 0 <= k < |objects| && IsMetric(objects[k].name.kind) && Takes(w, db, run, objects[k])
      && 0 <= i < |RowsOf(w, objects[k])| && From(w, db, run) <= RowsOf(w, objects[k])[i].day
      :: RowsOf(w, objects[k])[i].day
  }

  ghost predicate IsLatest(m: Option<int>, days: set<int>) {
    if m.None? then days == {} else m.value in days && forall d :: d in days ==> d <= m.value
  }

  function DaysIn(rows: seq<StatRow>, from: int): set<int> {
    set i | 0 <= i < |rows| && from <= rows[i].day :: rows[i].day
  }

  lemma {:induction false} LatestOfFile(w: World, kind: Kind, rows: seq<StatRow>, from: int)
    ensures IsLatest(LatestDay(DaysFrom(w, kind, rows, from)), DaysIn(rows, from))
  {
    hide MetricsOf, IsLatest, MaxDay;
    if rows == [] {
      NoneLatest();
      assert DaysIn(rows, from) == {};
    } else {
      var n, r := |rows| - 1, rows[|rows| - 1];
      LatestOfFile(w, kind, rows[..n], from);
      DaysInNext(rows, from);
      var before := DaysFrom(w, kind, rows[..n], from);
      assert before + [] == before && DaysIn(rows[..n], from) + {} == DaysIn(rows[..n], from);
      if from <= r.day {
        assert DaysFrom(w, kind, rows, from)[..|before|] == before;
        OneLatest(r.day);
        LatestJoined(LatestDay(before), DaysIn(rows[..n], from), Some(r.day), {r.day});
      }
    }
  }

  lemma NoneLatest()
    ensures IsLatest(None, {})
  {}

  lemma OneLatest(d: int)
    ensures IsLatest(Some(d), {d})
  {}

  lemma DaysInNext(rows: seq<StatRow>, from: int)
    requires rows != []
    ensures var n := |rows| - 1;
      DaysIn(rows, from) == DaysIn(rows[..n], from) + if from <= rows[n].day then {rows[n].day} else {}
  {}

  lemma LatestJoined(a: Option<int>, s: set<int>, b: Option<int>, t: set<int>)
    requires IsLatest(a, s) && IsLatest(b, t)
    ensures IsLatest(MaxDay(a, b), s + t)
  {}

  lemma StoredNext(w: World, db: Db, run: Run, objects: seq<Object>)
    requires objects != []
    ensures var n := |objects| - 1; var o := objects[n];
      StoredDays(w, db, run, objects) == StoredDays(w, db, run, objects[..n]) +
        if IsMetric(o.name.kind) && Takes(w, db, run, o) then DaysIn(RowsOf(w, o), From(w, db, run)) else {}
  {
    hide Takes, From;
  }

  // The latest day the loop has seen is the latest day it stored.
  lemma {:induction false} LoopLatest(w: World, db: Db, run: Run, objects: seq<Object>)
    requires DistinctNames(objects)
    ensures IsLatest(Loop(w, db, run, objects).maxDay, StoredDays(w, db, run, objects))
  {
    hide StoredDays, IsLatest, From, Generation, MaxDay, LatestDay, DaysFrom, ColsFrom, Upsert;
    if objects == [] {
      NothingStored(w, db, run);
    } else {
      var n, o, from := |objects| - 1, objects[|objects| - 1], From(w, db, run);
      var before := Loop(w, db, run, objects[..n]);
      LoopLatest(w, db, run, objects[..n]);
      StoredNext(w, db, run, objects);
      OtherMarks(w, run, from, Progress(db, None, false), objects[..n], o.name);
      assert Skips(before.db, run, o, w.monthOf(from)) == Skips(db, run, o, w.monthOf(from));
      if IsMetric(o.name.kind) && Takes(w, db, run, o) {
        LatestOfFile(w, o.name.kind, RowsOf(w, o), from);
        LatestJoined(before.maxDay, StoredDays(w, db, run, objects[..n]),
          LatestDay(DaysFrom(w, o.name.kind, RowsOf(w, o), from)), DaysIn(RowsOf(w, o), from));
      } else {
        assert StoredDays(w, db, run, objects[..n]) + {} == StoredDays(w, db, run, objects[..n]);
      }
    }
  }

  lemma NothingStored(w: World, db: Db, run: Run)
    ensures IsLatest(None, StoredDays(w, db, run, []))
  {}

  lemma {:induction false} LoopKeepsCheckpoint(w: World, db: Db, run: Run, objects: seq<Object>)
    ensures Loop(w, db, run, objects).db.checkpoint == db.checkpoint
  {
    hide Skips, From;
    if objects != [] {
      LoopKeepsCheckpoint(w, db, run, objects[..|objects| - 1]);
    }
  }

  // The checkpoint advances exactly when an uncancelled run can write it and stored a later
  // day, whatever files failed; it moves back exactly when it could not be read and all
  // stored days are earlier.
  lemma CheckpointMovesExactly(w: World, db: Db, run: Run)
    requires RunOk(run)
    ensures var after := ApplyRun(w, db, run).checkpoint; var stored := StoredDays(w, db, run, Reached(run));
      var writes := !Cancelled(run) && !run.checkpointFails;
      && (Later(after, db.checkpoint) <==> writes && exists d :: d in stored && Later(Some(d), db.checkpoint))
      && (Later(db.checkpoint, after) <==>
            writes && run.checkpointUnread && stored != {} && forall d :: d in stored ==> Later(db.checkpoint, Some(d)))
      && (!run.checkpointUnread ==> !Later(db.checkpoint, after))
  {
    hide StoredDays, IngestAll, Reached, Cancelled, From;
    CheckpointAfter(w, db, run);
    var stored := StoredDays(w, db, run, Reached(run));
    var m := LoopEnd(w, db, run).maxDay;
    RunTable(w, db, run);
    ReachedDistinct(run);
    LoopLatest(w, db, run, Reached(run));
    assert m.Some? ==> m.value in stored;
  }

  // The checkpoint written is the latest of the days stored and the checkpoint read.
  lemma CheckpointIsLatest(w: World, db: Db, run: Run)
    requires RunOk(run)
    ensures var after := ApplyRun(w, db, run).checkpoint; var stored := StoredDays(w, db, run, Reached(run));
      if stored == {} || run.checkpointFails || Cancelled(run) then after == db.checkpoint
      else
        && after.Some? && (after.value in stored || (!run.checkpointUnread && after == db.checkpoint))
        && (forall d :: d in stored ==> d <= after.value)
        && (!run.checkpointUnread && db.checkpoint.Some? ==> db.checkpoint.value <= after.value)
  {
    hide StoredDays, IngestAll, Reached, Cancelled, From;
    CheckpointAfter(w, db, run);
    RunTable(w, db, run);
    ReachedDistinct(run);
    LoopLatest(w, db, run, Reached(run));
  }

  lemma CheckpointAfter(w: World, db: Db, run: Run)
    ensures ApplyRun(w, db, run).checkpoint ==
      var m := LoopEnd(w, db, run).maxDay;
      if Cancelled(run) || run.checkpointFails || m.None? then db.checkpoint else MaxDay(m, ReadCheckpoint(db, run))
  {
    hide IngestAll, Reached, Cancelled, From;
    RunTable(w, db, run);
    LoopKeepsCheckpoint(w, db, run, Reached(run));
  }

  lemma ReachedDistinct(run: Run)
    requires RunOk(run)
    ensures DistinctNames(Reached(run))
  {}
}
