// Google Play ingestion over whole histories: an error-free run leaves everything a complete
// download would have stored.
module PlayHistory {
  import opened Arithmetic
  import opened MetricStore
  import opened PlayIngest
  import opened Wrappers

  // ---- the marks ----

  // A file marked as ingested has all figures from the bound on in the table.
  ghost predicate MarksHold(w: World, db: Db, bound: int) {
    forall n :: n in db.ingested && IsMetric(n.kind) ==> Holds(w, db.table, Object(n, db.ingested[n]), bound)
  }

  lemma HoldsLater(w: World, t: Table<int>, o: Object, a: int, b: int)
    requires Holds(w, t, o, a) && a <= b
    ensures Holds(w, t, o, b)
  {
    hide Shows;
  }

  lemma IngestKeepsMarks(w: World, run: Run, from: int, p: Progress, o: Object, bound: int)
    requires WorldOk(w) && from <= bound && MarksHold(w, p.db, bound)
    ensures MarksHold(w, Ingest(w, run, from, p, o).db, bound)
  {
    hide Holds, DaysFrom, ColsFrom, Upsert, WorldOk;
    var next := Ingest(w, run, from, p, o);
    if next.db != p.db && IsMetric(o.name.kind) {
      forall n | n in next.db.ingested && IsMetric(n.kind)
        ensures Holds(w, next.db.table, Object(n, next.db.ingested[n]), bound)
      {
        if n == o.name {
          IngestStores(w, p.db.table, o, from);
          HoldsLater(w, next.db.table, o, from, bound);
        } else {
          IngestKeepsOthers(w, p.db.table, Object(n, p.db.ingested[n]), bound, o, from);
        }
      }
    }
  }

  lemma {:induction false} LoopKeepsMarks(w: World, run: Run, from: int, p: Progress, objects: seq<Object>, bound: int)
    requires WorldOk(w) && from <= bound && MarksHold(w, p.db, bound)
    ensures MarksHold(w, IngestAll(w, run, from, p, objects).db, bound)
  {
    hide MarksHold, WorldOk;
    if objects != [] {
      var n := |objects| - 1;
      LoopKeepsMarks(w, run, from, p, objects[..n], bound);
      IngestKeepsMarks(w, run, from, IngestAll(w, run, from, p, objects[..n]), objects[n], bound);
    }
  }

  lemma MarksLater(w: World, db: Db, a: int, b: int)
    requires MarksHold(w, db, a) && a <= b
    ensures MarksHold(w, db, b)
  {
    hide Holds;
    forall n | n in db.ingested && IsMetric(n.kind) ensures Holds(w, db.table, Object(n, db.ingested[n]), b) {
      HoldsLater(w, db.table, Object(n, db.ingested[n]), a, b);
    }
  }

  // Full, delta, failed and cancelled runs all keep the promise of the marks, from the
  // later of its bound and the run's first day on.
  lemma RunKeepsMarks(w: World, db: Db, run: Run, bound: int)
    requires WorldOk(w) && MarksHold(w, db, bound)
    ensures MarksHold(w, ApplyRun(w, db, run), Max(bound, From(w, db, run)))
  {
    hide WorldOk, Holds, IngestAll, From;
    var later := Max(bound, From(w, db, run));
    MarksLater(w, db, bound, later);
    LoopKeepsMarks(w, run, From(w, db, run), Progress(db, None, false), Reached(run), later);
  }

  lemma PruneKeepsMarks(w: World, db: Db, bound: int, before: int)
    requires MarksHold(w, db, bound)
    ensures MarksHold(w, db.(table := Pruned(db.table, before)), Max(bound, before))
  {
    hide Figure, MetricsOf, IsLast;
    forall n | n in db.ingested && IsMetric(n.kind)
      ensures Holds(w, Pruned(db.table, before), Object(n, db.ingested[n]), Max(bound, before))
    {
      assert Holds(w, db.table, Object(n, db.ingested[n]), bound);
    }
  }

  // ---- histories ----

  // What happens to the app's data: runs, wiping the store's data, and metric retention.
  datatype Event = Sync(run: Run) | Wipe | Prune(before: int)

  const EMPTY := Db(map[], None, map[])

  // PruneMetrics
  function Pruned(t: Table<int>, before: int): Table<int> {
    map k | k in t && k.day >= before :: t[k]
  }

  function ApplyEvent(w: World, db: Db, e: Event): Db {
    match e
    case Sync(run) => ApplyRun(w, db, run)
    case Wipe => EMPTY
    case Prune(before) => db.(table := Pruned(db.table, before))
  }

  function AfterEvents(w: World, events: seq<Event>): Db {
    if events == [] then EMPTY else ApplyEvent(w, AfterEvents(w, events[..|events| - 1]), events[|events| - 1])
  }

  // The first day metrics are kept for: the launch day, or the last cut of retention.
  function KeptFrom(w: World, events: seq<Event>): (day: int)
    ensures w.launch <= day
  {
    if events == [] then w.launch
    else
      var day := KeptFrom(w, events[..|events| - 1]);
      match events[|events| - 1]
      case Sync(_) => day
      case Wipe => w.launch
      case Prune(before) => Max(day, before)
  }

  // The day from which every mark can be relied on: no run started and no cut fell later.
  function TrustedFrom(w: World, events: seq<Event>): (day: int)
    ensures w.launch <= day
  {
    if events == [] then w.launch
    else
      var before := events[..|events| - 1];
      match events[|events| - 1]
      case Sync(run) => Max(TrustedFrom(w, before), From(w, AfterEvents(w, before), run))
      case Wipe => w.launch
      case Prune(day) => Max(TrustedFrom(w, before), day)
  }

  // Whatever runs, resets and cuts came before, a marked file has its figures stored.
  lemma {:induction false} HistoryKeepsMarks(w: World, events: seq<Event>)
    requires WorldOk(w)
    ensures MarksHold(w, AfterEvents(w, events), TrustedFrom(w, events))
  {
    hide WorldOk, ApplyRun, Pruned, From;
    if events != [] {
      var before := events[..|events| - 1];
      HistoryKeepsMarks(w, before);
      match events[|events| - 1]
      case Sync(run) => RunKeepsMarks(w, AfterEvents(w, before), run, TrustedFrom(w, before));
      case Wipe =>
      case Prune(day) => PruneKeepsMarks(w, AfterEvents(w, before), TrustedFrom(w, before), day);
    }
  }

  // Every run could read its checkpoint.
  ghost predicate Readable(events: seq<Event>) {
    forall i :: 0 <= i < |events| && events[i].Sync? ==> !events[i].run.checkpointUnread
  }

  // No run that reads this checkpoint starts later, launch day aside.
  function Bound(w: World, checkpoint: Option<int>): int {
    if checkpoint.None? then w.launch else Max(w.launch, checkpoint.value - w.overlap)
  }

  // With readable checkpoints the marks can be relied on from the next delta run's first day.
  lemma {:induction false} TrustedEarly(w: World, events: seq<Event>)
    requires Readable(events)
    ensures TrustedFrom(w, events) <= Max(KeptFrom(w, events), Bound(w, AfterEvents(w, events).checkpoint))
  {
    hide ApplyRun;
    if events != [] {
      var before := events[..|events| - 1];
      assert forall i :: 0 <= i < |before| ==> before[i] == events[i];
      TrustedEarly(w, before);
      if events[|events| - 1].Sync? {
        CheckpointAfter(w, AfterEvents(w, before), events[|events| - 1].run);
      }
    }
  }

  // ---- an error-free run stores everything ----

  // The day from which an error-free run leaves everything stored.
  ghost function SureFrom(w: World, history: seq<Event>, run: Run): int {
    var from := From(w, AfterEvents(w, history), run);
    if run.mode.Full? then from
    else if Readable(history) && !run.checkpointUnread then Max(KeptFrom(w, history), from)
    else Max(TrustedFrom(w, history), from)
  }

  lemma SkipLosesNothing(w: World, run: Run, db: Db, bound: int, o: Object)
    requires WorldOk(w) && o.generation != "" && IsMetric(o.name.kind)
    requires Skips(db, run, o, w.monthOf(From(w, db, run)))
    requires MarksHold(w, db, bound)
    ensures Holds(w, db.table, o, if run.mode.Full? then From(w, db, run) else Max(bound, From(w, db, run)))
  {
    hide Shows, From;
    var from, rows := From(w, db, run), RowsOf(w, o);
    if o.name.month < w.monthOf(from) {
      forall i | 0 <= i < |rows| ensures rows[i].day < from {
        RowIsOk(w, o, rows[i]);
      }
    } else {
      assert Object(o.name, db.ingested[o.name]) == o;
    }
  }

  lemma SureIsTrusted(w: World, history: seq<Event>, run: Run)
    ensures var from := From(w, AfterEvents(w, history), run);
      from <= SureFrom(w, history, run)
      && (run.mode.Delta? ==> Max(TrustedFrom(w, history), from) <= SureFrom(w, history, run))
  {
    hide TrustedFrom, AfterEvents;
    if Readable(history) {
      TrustedEarly(w, history);
    }
  }

  // Incremental equals full: whatever came before, after a run without errors every current
  // file has all its figures in the table. For a full run that is from its first day on; for
  // a delta run that reads its checkpoint, as all before it did, from its first day or the
  // first day kept; and after unread checkpoints from the latest day a run ever started at.
  lemma IncrementalEqualsFull(w: World, history: seq<Event>, run: Run, k: nat)
    requires WorldOk(w) && RunOk(run) && k < |run.objects|
    requires var kind := run.objects[k].name.kind;
      kind.InstallsOverview? || kind.InstallsCountry? || kind.CrashesOverview?
    requires var db := AfterEvents(w, history); !Cancelled(run) && !LoopEnd(w, db, run).failed
    ensures var db := AfterEvents(w, history);
      && Holds(w, ApplyRun(w, db, run).table, run.objects[k], SureFrom(w, history, run))
      && FiguresStored(w, ApplyRun(w, db, run).table, run.objects[k], SureFrom(w, history, run))
  {
    hide WorldOk, Holds, SameFigures, Right, Skips, From, ApplyRun, LoopEnd, Stores, Cancelled, MarksHold,
      TrustedFrom, SureFrom, FiguresStored;
    var db, o := AfterEvents(w, history), run.objects[k];
    var from, after := From(w, db, run), ApplyRun(w, db, run).table;
    SureIsTrusted(w, history, run);
    RunStoresExactly(w, db, run, k);
    TakenUnlessSkipped(w, db, run, k);
    if Stores(w, db, run, k) {
      HoldsLater(w, after, o, from, SureFrom(w, history, run));
    } else {
      HistoryKeepsMarks(w, history);
      SkipLosesNothing(w, run, db, TrustedFrom(w, history), o);
      var bound := if run.mode.Full? then from else Max(TrustedFrom(w, history), from);
      SameKeepsHolds(w, db.table, after, o, bound);
      HoldsLater(w, after, o, bound, SureFrom(w, history, run));
    }
    HeldFigures(w, after, o, SureFrom(w, history, run));
  }

  // The same column by column and from explicit days: a full run leaves the figures of every
  // file from the launch day on; a delta run that reads its checkpoint, as all before it did,
  // from the checkpoint less the overlap on, or from the first day kept.
  lemma IncrementalFigures(w: World, history: seq<Event>, run: Run, k: nat)
    requires WorldOk(w) && RunOk(run) && k < |run.objects|
    requires !Cancelled(run) && !LoopEnd(w, AfterEvents(w, history), run).failed
    ensures var db := AfterEvents(w, history); var after := ApplyRun(w, db, run).table;
      && (run.mode.Full? ==> FiguresStored(w, after, run.objects[k], w.launch))
      && (run.mode.Delta? && Readable(history) && !run.checkpointUnread ==>
            FiguresStored(w, after, run.objects[k], Max(KeptFrom(w, history),
              if db.checkpoint.None? then w.launch else db.checkpoint.value - w.overlap)))
  {
    hide WorldOk, Holds, FiguresStored, ApplyRun, LoopEnd, Cancelled, TrustedFrom, KeptFrom, RunOk, AfterEvents;
    var db, o := AfterEvents(w, history), run.objects[k];
    if o.name.kind.InstallsOverview? || o.name.kind.InstallsCountry? || o.name.kind.CrashesOverview? {
      IncrementalEqualsFull(w, history, run, k);
    } else {
      NoFigures(w, ApplyRun(w, db, run).table, o, w.launch);
      NoFigures(w, ApplyRun(w, db, run).table, o, SureFrom(w, history, run));
    }
  }

  // The same figures a complete download into an empty database would show.
  lemma AgreesWithCompleteDownload(w: World, history: seq<Event>, run: Run, k: nat, i: nat, c: Column)
    requires WorldOk(w) && RunOk(run) && k < |run.objects| && IsMetric(run.objects[k].name.kind)
    requires var db := AfterEvents(w, history); !Cancelled(run) && !LoopEnd(w, db, run).failed
    requires !LoopEnd(w, EMPTY, run.(mode := Full)).failed
    requires var rows := RowsOf(w, run.objects[k]);
      && i < |rows| && IsLast(w, run.objects[k].name.kind, rows, i) && Figure(run.objects[k].name.kind, c)
      && SureFrom(w, history, run) <= rows[i].day
    ensures var key := KeyOf(w, run.objects[k].name.kind, RowsOf(w, run.objects[k])[i]);
      var incremental := ApplyRun(w, AfterEvents(w, history), run).table;
      var complete := ApplyRun(w, EMPTY, run.(mode := Full)).table;
      key in incremental && key in complete && Get(incremental[key], c) == Get(complete[key], c)
  {
    hide WorldOk, ApplyRun, LoopEnd, KeyOf, MetricsOf, Figure, IsLast, TrustedFrom;
    IncrementalEqualsFull(w, history, run, k);
    IncrementalEqualsFull(w, [], run.(mode := Full), k);
    assert AfterEvents(w, []) == EMPTY;
    var o := run.objects[k];
    assert Shows(w, ApplyRun(w, AfterEvents(w, history), run).table, o.name.kind, RowsOf(w, o)[i]);
    assert Shows(w, ApplyRun(w, EMPTY, run.(mode := Full)).table, o.name.kind, RowsOf(w, o)[i]);
  }

  // ---- what goes wrong otherwise ----

  lemma OneObject(w: World, run: Run, from: int, p: Progress, o: Object)
    ensures IngestAll(w, run, from, p, [o]) == Ingest(w, run, from, p, o)
  {
    assert [o][..0] == [];
    assert IngestAll(w, run, from, p, []) == p;
  }

  lemma TwoRows(w: World, kind: Kind, a: StatRow, b: StatRow, from: int)
    requires from <= b.day
    ensures var day := MetricDay(KeyOf(w, kind, b), MetricsOf(kind, b));
      DaysFrom(w, kind, [a, b], from) ==
        if a.day < from then [day] else [MetricDay(KeyOf(w, kind, a), MetricsOf(kind, a)), day]
    ensures ColsFrom(kind, [a, b], from) == ColsOf(kind, b)
  {
    hide KeyOf, MetricsOf, ColsOf;
    assert [a, b][..1] == [a] && [a][..0] == [];
    assert DaysFrom(w, kind, [a][..|[a]| - 1], from) == [];
    assert DaysFrom(w, kind, [a], from) ==
      if a.day < from then [] else [MetricDay(KeyOf(w, kind, a), MetricsOf(kind, a))];
  }

  lemma LatestOfTwo(w: World, kind: Kind, a: StatRow, b: StatRow, from: int)
    requires from <= b.day && a.day < b.day
    ensures LatestDay(DaysFrom(w, kind, [a, b], from)) == Some(b.day)
  {
    hide LatestDay, DaysFrom;
    LatestOfFile(w, kind, [a, b], from);
    assert [a, b][1] == b;
    assert b.day in PlayIngest.DaysIn([a, b], from);
  }

  lemma OneMore(w: World, events: seq<Event>, run: Run)
    ensures AfterEvents(w, events + [Sync(run)]) == ApplyRun(w, AfterEvents(w, events), run)
    ensures AfterEvents(w, []) == EMPTY
  {
    hide ApplyRun;
    assert (events + [Sync(run)])[..|events|] == events;
  }

  const CRASHES := Name(CrashesOverview, 0)

  function CrashRow(day: int, crashes: int): StatRow {
    StatRow(day, "", 0, 0, 0, None, crashes, 0)
  }

  // Months do not matter here: all days are in month 0, and the current one is month 2.
  function CrashWorld(contents: Contents): World {
    World(1, 100, 5, d => 0, contents)
  }

  function CrashRun(mode: Mode, generation: string, unread: bool): Run {
    Run(mode, [Object(CRASHES, generation)], 2, 1, {}, None, false, unread, {})
  }

  // The figure of the first of two rows after its file is stored.
  lemma FirstOfTwo(w: World, t: Table<int>, a: StatRow, b: StatRow, from: int)
    requires from <= b.day && a.day < b.day
    ensures var k := KeyOf(w, CrashesOverview, a);
      Value(Upsert(t, DaysFrom(w, CrashesOverview, [a, b], from), ColsOf(CrashesOverview, b)), k, Crashes)
        == if from <= a.day then a.crashes else Value(t, k, Crashes)
  {
    hide DaysFrom, Upsert;
    TwoRows(w, CrashesOverview, a, b, from);
    LastWriterWins(t, DaysFrom(w, CrashesOverview, [a, b], from), ColsOf(CrashesOverview, b),
      KeyOf(w, CrashesOverview, a), Crashes);
  }

  // One run over a file of two rows, the second at or after its first day.
  lemma RunOfTwo(w: World, db: Db, run: Run, g: string, a: StatRow, b: StatRow)
    requires run == CrashRun(run.mode, g, run.checkpointUnread)
    requires forall d :: w.monthOf(d) == 0
    requires RowsOf(w, Object(CRASHES, g)) == [a, b] && From(w, db, run) <= b.day && a.day < b.day
    requires run.mode.Full? || Generation(db, CRASHES) != g
    ensures var from := From(w, db, run); var after := ApplyRun(w, db, run);
      && !LoopEnd(w, db, run).failed
      && after.ingested == db.ingested[CRASHES := g]
      && after.checkpoint == MaxDay(Some(b.day), ReadCheckpoint(db, run))
      && after.table == Upsert(db.table, DaysFrom(w, CrashesOverview, [a, b], from), ColsOf(CrashesOverview, b))
  {
    hide DaysFrom, ColsFrom, ColsOf, Upsert, LatestDay, From;
    OneObject(w, run, From(w, db, run), Progress(db, None, false), Object(CRASHES, g));
    TwoRows(w, CrashesOverview, a, b, From(w, db, run));
    LatestOfTwo(w, CrashesOverview, a, b, From(w, db, run));
  }

  // A full run never stores days before the launch day 100, and a later delta run from day
  // 96 skips the unchanged file, so its day 97 never reads right.
  lemma EarlyDaysCanBeMissed()
    ensures var o := Object(CRASHES, "g"); var w := CrashWorld(map[o := [CrashRow(97, 1), CrashRow(101, 1)]]);
      var full, delta := CrashRun(Full, "g", false), CrashRun(Delta, "g", false);
      var db := AfterEvents(w, [Sync(full)]);
      && WorldOk(w) && RunOk(full) && RunOk(delta) && !LoopEnd(w, EMPTY, full).failed && !LoopEnd(w, db, delta).failed
      && From(w, db, delta) == 96 && !Right(w, ApplyRun(w, db, delta).table, o, 96)
  {
    hide Upsert, DaysFrom, ColsFrom;
    var o := Object(CRASHES, "g");
    var a, b := CrashRow(97, 1), CrashRow(101, 1);
    var w := CrashWorld(map[o := [a, b]]);
    var full, delta := CrashRun(Full, "g", false), CrashRun(Delta, "g", false);
    OneMore(w, [], full);
    assert [] + [Sync(full)] == [Sync(full)];
    var db := AfterEvents(w, [Sync(full)]);
    RunOfTwo(w, EMPTY, full, "g", a, b);
    FirstOfTwo(w, EMPTY.table, a, b, 100);
    SkippedRun(w, db, delta, o);
    ReadsWrong(w, db.table, o, 0, Crashes, 96);
  }

  lemma SkippedRun(w: World, db: Db, run: Run, o: Object)
    requires run.objects == [o] && run.cancelAt.None? && Skips(db, run, o, w.monthOf(From(w, db, run)))
    ensures !LoopEnd(w, db, run).failed && ApplyRun(w, db, run) == db
  {
    hide Skips, From;
    OneObject(w, run, From(w, db, run), Progress(db, None, false), o);
  }

  lemma ReadsWrong(w: World, t: Table<int>, o: Object, i: nat, c: Column, from: int)
    requires i < |RowsOf(w, o)| && from <= RowsOf(w, o)[i].day && IsLast(w, o.name.kind, RowsOf(w, o), i)
    requires Figure(o.name.kind, c)
    requires var r := RowsOf(w, o)[i]; Value(t, KeyOf(w, o.name.kind, r), c) != Get(MetricsOf(o.name.kind, r), c)
    ensures !Right(w, t, o, from)
  {
    hide Value, Figure, MetricsOf, KeyOf, Get, IsLast;
    assert Right(w, t, o, from) ==> ReadsRight(w, t, o.name.kind, RowsOf(w, o)[i]);
  }

  // The file changes on day 101 while the checkpoint is past it; a later delta run that cannot
  // read the checkpoint starts from the launch day, yet skips the file as unchanged, and day
  // 101 keeps its old figure. With the checkpoint read it would start after that day.
  lemma UnreadCheckpointMisses()
    ensures var o1, o2 := Object(CRASHES, "g1"), Object(CRASHES, "g2");
      var w := CrashWorld(map[o1 := [CrashRow(101, 1), CrashRow(115, 1)], o2 := [CrashRow(101, 2), CrashRow(120, 1)]]);
      var full, delta, unread := CrashRun(Full, "g1", false), CrashRun(Delta, "g2", false), CrashRun(Delta, "g2", true);
      var db := AfterEvents(w, [Sync(full), Sync(delta)]);
      && WorldOk(w) && RunOk(full) && RunOk(delta) && RunOk(unread)
      && !LoopEnd(w, db, unread).failed && From(w, db, unread) == 100 && From(w, db, delta) == 115
      && !Right(w, ApplyRun(w, db, unread).table, o2, 100)
  {
    hide Upsert, DaysFrom, ColsFrom, ApplyRun, LoopEnd, AfterEvents;
    var o1, o2 := Object(CRASHES, "g1"), Object(CRASHES, "g2");
    var a, b, c, d := CrashRow(101, 1), CrashRow(115, 1), CrashRow(101, 2), CrashRow(120, 1);
    var w := CrashWorld(map[o1 := [a, b], o2 := [c, d]]);
    var full, delta, unread := CrashRun(Full, "g1", false), CrashRun(Delta, "g2", false), CrashRun(Delta, "g2", true);
    OneMore(w, [], full);
    assert [] + [Sync(full)] == [Sync(full)];
    OneMore(w, [Sync(full)], delta);
    assert [Sync(full)] + [Sync(delta)] == [Sync(full), Sync(delta)];
    var db1 := ApplyRun(w, EMPTY, full);
    var db := ApplyRun(w, db1, delta);
    RunOfTwo(w, EMPTY, full, "g1", a, b);
    RunOfTwo(w, db1, delta, "g2", c, d);
    FirstOfTwo(w, EMPTY.table, a, b, 100);
    FirstOfTwo(w, db1.table, c, d, 110);
    SkippedRun(w, db, unread, o2);
    ReadsWrong(w, db.table, o2, 0, Crashes, 100);
  }

  // One of two files fails, and the checkpoint moves on to the other one's latest day.
  lemma CheckpointPassesFailure()
    ensures var bad, good := Object(Name(InstallsOverview, 0), "g"), Object(CRASHES, "g");
      var w := CrashWorld(map[good := [CrashRow(101, 1), CrashRow(115, 1)]]);
      var run := Run(Full, [bad, good], 2, 1, {bad.name}, None, false, false, {});
      var db := Db(map[], Some(110), map[]);
      WorldOk(w) && RunOk(run) && LoopEnd(w, db, run).failed && ApplyRun(w, db, run).checkpoint == Some(115)
  {
    var bad, good := Object(Name(InstallsOverview, 0), "g"), Object(CRASHES, "g");
    var w := CrashWorld(map[good := [CrashRow(101, 1), CrashRow(115, 1)]]);
    var run := Run(Full, [bad, good], 2, 1, {bad.name}, None, false, false, {});
    var start := Progress(Db(map[], Some(110), map[]), None, false);
    assert run.objects[..1] == [bad];
    OneObject(w, run, 100, start, bad);
    hide DaysFrom, ColsFrom, Upsert, LatestDay;
    LatestOfTwo(w, CrashesOverview, CrashRow(101, 1), CrashRow(115, 1), 100);
  }

  // A run that cannot read its checkpoint may write an earlier one over it.
  lemma CheckpointCanMoveBack()
    ensures var o := Object(CRASHES, "g");
      var w := CrashWorld(map[o := [CrashRow(101, 1), CrashRow(115, 1)]]);
      var db := Db(map[], Some(200), map[]);
      RunOk(CrashRun(Full, "g", true)) && ApplyRun(w, db, CrashRun(Full, "g", true)).checkpoint == Some(115)
  {
    var w := CrashWorld(map[Object(CRASHES, "g") := [CrashRow(101, 1), CrashRow(115, 1)]]);
    RunOfTwo(w, Db(map[], Some(200), map[]), CrashRun(Full, "g", true), "g", CrashRow(101, 1), CrashRow(115, 1));
  }
}
