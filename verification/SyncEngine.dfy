// The sync engine: one run per store, its row in sync_runs, cancellation, and
// recovery after a restart.
module SyncEngine {
  import opened Wrappers
  import SyncPool

  datatype Store = AppStore | GooglePlay

  datatype RowStatus = Queued | Running | Succeeded | Failed | Cancelled | Interrupted

  predicate Terminal(s: RowStatus) {
    !s.Queued? && !s.Running?
  }

  // A row of sync_runs; its id is its index.
  datatype Row = Row(store: Store, status: RowStatus)

  // How far a run's goroutine has come: before StartSyncRun, before the worker pool,
  // in the pool, or past finish and before its deferred delete.
  datatype Stage = Preparing | Verifying | Pooling(pool: SyncPool.State) | Ended

  datatype Exec = Exec(store: Store, cancelled: bool, stage: Stage)

  datatype State = State(configured: set<Store>, rows: seq<Row>, running: map<Store, nat>, execs: map<nat, Exec>)

  datatype EngineError = AlreadyRunning | NotConfigured | NotRunning | DatabaseError

  datatype Step =
    | Start(store: Store)
    | Cancel(store: Store)
    | FailRun(id: nat)                   // settings or StartSyncRun failed
    | FailOrCancel(id: nat)              // DiscoverApps or VerifyReportNames failed
    | BeginRow(id: nat)                  // StartSyncRun
    | BeginPool(id: nat, concurrency: int, apps: nat)
    | PoolStep(id: nat, step: SyncPool.Step)
    | FinishPool(id: nat)
    | Delete(id: nat)                    // the deferred delete
    | Restart                            // process death, then Recover

  function Init(configured: set<Store>): State {
    State(configured, [], map[], map[])
  }

  predicate Enabled(s: State, step: Step) {
    match step
    case Start(st) => st in s.configured && st !in s.running
    case Cancel(st) => st in s.running && s.running[st] in s.execs
    case FailRun(id) => id in s.execs && s.execs[id].stage.Preparing? && id < |s.rows|
    case FailOrCancel(id) =>
      id in s.execs && (s.execs[id].stage.Preparing? || s.execs[id].stage.Verifying?) && id < |s.rows|
    case BeginRow(id) => id in s.execs && s.execs[id].stage.Preparing? && id < |s.rows|
    case BeginPool(id, c, n) => id in s.execs && s.execs[id].stage.Verifying?
    case PoolStep(id, p) => id in s.execs && s.execs[id].stage.Pooling? && !p.UserCancel? && !p.Finish? &&
      SyncPool.Enabled(s.execs[id].stage.pool, p)
    case FinishPool(id) => id in s.execs && s.execs[id].stage.Pooling? && id < |s.rows| &&
      SyncPool.Enabled(s.execs[id].stage.pool, SyncPool.Finish)
    case Delete(id) => id in s.execs && s.execs[id].stage.Ended?
    case Restart => true
  }

  function WithStage(s: State, id: nat, stage: Stage): State
    requires id in s.execs
  {
    s.(execs := s.execs[id := s.execs[id].(stage := stage)])
  }

  function WithRow(s: State, id: nat, status: RowStatus): State
    requires id < |s.rows|
  {
    s.(rows := s.rows[id := s.rows[id].(status := status)])
  }

  // finish: the row gets its final status.
  function FinishRow(s: State, id: nat, status: RowStatus): State
    requires id in s.execs && id < |s.rows|
  {
    WithRow(WithStage(s, id, Ended), id, status)
  }

  function OfPool(p: SyncPool.Status): RowStatus {
    match p
    case Succeeded => Succeeded
    case FailedRun => Failed
    case Cancelled => Cancelled
  }

  // h.cancel(): the run's context, and with it the pool's.
  function CancelExec(e: Exec): Exec {
    var stage := match e.stage
      case Pooling(p) => Pooling(p.(userCancel := true))
      case other => other;
    Exec(e.store, true, stage)
  }

  // MarkInterruptedRuns
  function InterruptAll(rows: seq<Row>): (r: seq<Row>)
    ensures |r| == |rows|
  {
    seq(|rows|, i requires 0 <= i < |rows| =>
      if Terminal(rows[i].status) then rows[i] else rows[i].(status := Interrupted))
  }

  function Apply(s: State, step: Step): State
    requires Enabled(s, step)
  {
    match step
    case Start(st) =>
      var id := |s.rows|;
      s.(rows := s.rows + [Row(st, Queued)], running := s.running[st := id],
         execs := s.execs[id := Exec(st, false, Preparing)])
    case Cancel(st) => s.(execs := s.execs[s.running[st] := CancelExec(s.execs[s.running[st]])])
    case FailRun(id) => FinishRow(s, id, Failed)
    case FailOrCancel(id) => FinishRow(s, id, if s.execs[id].cancelled then Cancelled else Failed)
    case BeginRow(id) => WithRow(WithStage(s, id, Verifying), id, Running)
    case BeginPool(id, c, n) => WithStage(s, id, Pooling(SyncPool.Init(c, n, s.execs[id].cancelled)))
    case PoolStep(id, p) => WithStage(s, id, Pooling(SyncPool.Apply(s.execs[id].stage.pool, p)))
    case FinishPool(id) => FinishRow(s, id, OfPool(SyncPool.FinalStatus(s.execs[id].stage.pool)))
    case Delete(id) => s.(running := s.running - {s.execs[id].store}, execs := s.execs - {id})
    case Restart => s.(rows := InterruptAll(s.rows), running := map[], execs := map[])
  }

  // ---- the invariant ----

  // The running map names the live goroutines, one per store.
  ghost predicate RunningOk(s: State) {
    && (forall id :: id in s.execs ==> s.execs[id].store in s.running && s.running[s.execs[id].store] == id)
    && (forall st :: st in s.running ==> s.running[st] in s.execs && s.execs[s.running[st]].store == st)
  }

  predicate RowFits(row: Row, e: Exec) {
    && row.store == e.store
    && match e.stage
       case Preparing => row.status.Queued?
       case Verifying => row.status.Running?
       case Pooling(_) => row.status.Running?
       case Ended => Terminal(row.status)
  }

  // Rows are open exactly while their goroutine has not finished.
  ghost predicate RowsOk(s: State) {
    && (forall id :: id in s.execs ==> id < |s.rows| && RowFits(s.rows[id], s.execs[id]))
    && (forall id :: 0 <= id < |s.rows| && !Terminal(s.rows[id].status) ==> id in s.execs)
  }

  ghost predicate PoolsOk(s: State) {
    forall id :: id in s.execs && s.execs[id].stage.Pooling? ==>
      PoolOk(s.execs[id].stage.pool, s.execs[id].cancelled)
  }

  ghost predicate PoolOk(p: SyncPool.State, cancelled: bool) {
    SyncPool.Inv(p) && p.userCancel == cancelled && p.status.None?
  }

  ghost predicate Inv(s: State) {
    RunningOk(s) && RowsOk(s) && PoolsOk(s)
  }

  lemma FinishKeeps(s: State, id: nat, status: RowStatus)
    requires RunningOk(s) && RowsOk(s) && id in s.execs && Terminal(status)
    ensures RunningOk(FinishRow(s, id, status)) && RowsOk(FinishRow(s, id, status))
  {}

  lemma StageKeeps(s: State, id: nat, stage: Stage)
    requires RunningOk(s) && RowsOk(s) && id in s.execs
    requires RowFits(s.rows[id], s.execs[id].(stage := stage))
    ensures RunningOk(WithStage(s, id, stage)) && RowsOk(WithStage(s, id, stage))
  {}

  lemma BeginRowKeeps(s: State, id: nat)
    requires RunningOk(s) && RowsOk(s) && Enabled(s, BeginRow(id))
    ensures RunningOk(Apply(s, BeginRow(id))) && RowsOk(Apply(s, BeginRow(id)))
  {}

  lemma StartKeeps(s: State, st: Store)
    requires RunningOk(s) && RowsOk(s) && Enabled(s, Start(st))
    ensures RunningOk(Apply(s, Start(st))) && RowsOk(Apply(s, Start(st)))
  {
    hide RunningOk, RowsOk;
    StartRunning(s, st);
    StartRows(s, st);
  }

  lemma StartRunning(s: State, st: Store)
    requires RunningOk(s) && RowsOk(s) && Enabled(s, Start(st))
    ensures RunningOk(Apply(s, Start(st)))
  {
    hide RowFits;
  }

  lemma StartRows(s: State, st: Store)
    requires RowsOk(s) && Enabled(s, Start(st))
    ensures RowsOk(Apply(s, Start(st)))
  {}

  lemma CancelKeeps(s: State, st: Store)
    requires RunningOk(s) && RowsOk(s) && Enabled(s, Cancel(st))
    ensures RunningOk(Apply(s, Cancel(st))) && RowsOk(Apply(s, Cancel(st)))
  {
    assert RowFits(s.rows[s.running[st]], CancelExec(s.execs[s.running[st]]));
  }

  lemma DeleteKeeps(s: State, id: nat)
    requires RunningOk(s) && RowsOk(s) && Enabled(s, Delete(id))
    ensures RunningOk(Apply(s, Delete(id))) && RowsOk(Apply(s, Delete(id)))
  {}

  lemma StepKeepsRows(s: State, step: Step)
    requires RunningOk(s) && RowsOk(s) && Enabled(s, step)
    ensures RunningOk(Apply(s, step)) && RowsOk(Apply(s, step))
  {
    hide RunningOk, SyncPool.Enabled, SyncPool.Apply, SyncPool.FinalStatus, FinishRow, CancelExec;
    match step
    case Start(st) => StartKeeps(s, st);
    case Cancel(st) => CancelKeeps(s, st);
    case FailRun(id) => FinishKeeps(s, id, Failed);
    case FailOrCancel(id) => FinishKeeps(s, id, if s.execs[id].cancelled then Cancelled else Failed);
    case BeginRow(id) => BeginRowKeeps(s, id);
    case BeginPool(id, c, n) => StageKeeps(s, id, Pooling(SyncPool.Init(c, n, s.execs[id].cancelled)));
    case PoolStep(id, p) => StageKeeps(s, id, Pooling(SyncPool.Apply(s.execs[id].stage.pool, p)));
    case FinishPool(id) => FinishKeeps(s, id, OfPool(SyncPool.FinalStatus(s.execs[id].stage.pool)));
    case Delete(id) => DeleteKeeps(s, id);
    case Restart => RestartKeeps(s);
  }

  lemma RestartKeeps(s: State)
    ensures RunningOk(Apply(s, Restart)) && RowsOk(Apply(s, Restart))
  {}

  lemma PoolCancelled(p: SyncPool.State)
    requires SyncPool.Inv(p)
    ensures SyncPool.Inv(p.(userCancel := true))
  {
    if !p.userCancel {
      SyncPool.StepKeepsInv(p, SyncPool.UserCancel);
    } else {
      assert p.(userCancel := true) == p;
    }
  }

  lemma PoolStepOk(p: SyncPool.State, step: SyncPool.Step, cancelled: bool)
    requires PoolOk(p, cancelled) && SyncPool.Enabled(p, step) && !step.UserCancel? && !step.Finish?
    ensures PoolOk(SyncPool.Apply(p, step), cancelled)
  {
    hide SyncPool.Inv;
    SyncPool.StepKeepsInv(p, step);
  }

  lemma StepKeepsPools(s: State, step: Step)
    requires Inv(s) && Enabled(s, step)
    ensures PoolsOk(Apply(s, step))
  {
    hide RunningOk, RowsOk, SyncPool.Enabled, SyncPool.Apply, SyncPool.Inv, SyncPool.Init;
    match step
    case Cancel(st) =>
      if s.execs[s.running[st]].stage.Pooling? {
        PoolCancelled(s.execs[s.running[st]].stage.pool);
      }
    case BeginPool(id, c, n) => PoolInitOk(c, n, s.execs[id].cancelled);
    case PoolStep(id, p) => PoolStepOk(s.execs[id].stage.pool, p, s.execs[id].cancelled);
    case _ =>
  }

  lemma PoolInitOk(c: int, n: nat, cancelled: bool)
    ensures PoolOk(SyncPool.Init(c, n, cancelled), cancelled)
  {
    SyncPool.InitInv(c, n, cancelled);
  }

  lemma StepKeepsInv(s: State, step: Step)
    requires Inv(s) && Enabled(s, step)
    ensures Inv(Apply(s, step))
  {
    hide RunningOk, RowsOk, PoolsOk;
    StepKeepsRows(s, step);
    StepKeepsPools(s, step);
  }

  // ---- runs ----

  ghost predicate IsRun(s: State, steps: seq<Step>)
    decreases |steps|
  {
    steps == [] || (Enabled(s, steps[0]) && IsRun(Apply(s, steps[0]), steps[1..]))
  }

  ghost function After(s: State, steps: seq<Step>): State
    requires IsRun(s, steps)
    decreases |steps|
  {
    if steps == [] then s else After(Apply(s, steps[0]), steps[1..])
  }

  lemma {:induction false} RunKeepsInv(s: State, steps: seq<Step>)
    requires Inv(s) && IsRun(s, steps)
    ensures Inv(After(s, steps))
    decreases |steps|
  {
    hide Inv, Apply, Enabled;
    if steps != [] {
      StepKeepsInv(s, steps[0]);
      RunKeepsInv(Apply(s, steps[0]), steps[1..]);
    }
  }

  // Each store has at most one live run and at most one open row, and its entry in
  // the running map exists exactly while its goroutine has not deleted it.
  lemma OneRunPerStore(configured: set<Store>, steps: seq<Step>, st: Store)
    requires IsRun(Init(configured), steps)
    ensures var s := After(Init(configured), steps);
      && (st in s.running <==> exists id :: id in s.execs && s.execs[id].store == st)
      && (forall a, b :: a in s.execs && b in s.execs && s.execs[a].store == st == s.execs[b].store ==> a == b)
      && (forall a, b :: 0 <= a < |s.rows| && 0 <= b < |s.rows| && IsOpen(s.rows[a], st) && IsOpen(s.rows[b], st) ==>
        a == b)
  {
    hide IsRun, After;
    RunKeepsInv(Init(configured), steps);
  }

  predicate IsOpen(row: Row, st: Store) {
    row.store == st && !Terminal(row.status)
  }

  // The lifecycle of a row: queued, then perhaps running, then one terminal status.
  predicate MayBecome(a: RowStatus, b: RowStatus) {
    a == b || a.Queued? || (a.Running? && Terminal(b))
  }

  lemma StepMovesRows(s: State, step: Step, id: nat)
    requires RunningOk(s) && RowsOk(s) && Enabled(s, step) && id < |s.rows|
    ensures |s.rows| <= |Apply(s, step).rows|
    ensures Apply(s, step).rows[id].store == s.rows[id].store
    ensures MayBecome(s.rows[id].status, Apply(s, step).rows[id].status)
  {
    hide RunningOk, SyncPool.Enabled, SyncPool.Apply, SyncPool.FinalStatus, CancelExec;
  }

  // Along any run a row only moves forward, and a terminal row never changes.
  lemma {:induction false} RowsMoveForward(s: State, steps: seq<Step>, id: nat)
    requires Inv(s) && IsRun(s, steps) && id < |s.rows|
    ensures |s.rows| <= |After(s, steps).rows|
    ensures MayBecome(s.rows[id].status, After(s, steps).rows[id].status)
    ensures Terminal(s.rows[id].status) ==> After(s, steps).rows[id] == s.rows[id]
    decreases |steps|
  {
    hide RunningOk, RowsOk, PoolsOk, Apply, Enabled;
    if steps != [] {
      StepMovesRows(s, steps[0], id);
      StepKeepsInv(s, steps[0]);
      RowsMoveForward(Apply(s, steps[0]), steps[1..], id);
    }
  }

  // A row becomes `succeeded` only when its pool processed every app, hit no fatal
  // error, saw no cancellation, and some app did not fail.
  lemma SuccessIsComplete(s: State, step: Step, id: nat)
    requires Inv(s) && Enabled(s, step) && id < |s.rows|
    requires !s.rows[id].status.Succeeded? && Apply(s, step).rows[id].status.Succeeded?
    ensures step == FinishPool(id) && id in s.execs && s.execs[id].stage.Pooling? && !s.execs[id].cancelled
    ensures var p := s.execs[id].stage.pool;
      && p.appsDone == |p.phases| && p.fatal.None?
      && (|p.phases| > 0 ==> SyncPool.Of(p.phases, SyncPool.HasFate(SyncPool.Done)) != {})
  {
    hide RunningOk, SyncPool.FinalStatus, SyncPool.Apply, CancelExec, SyncPool.Inv, SyncPool.Of;
    assert step == FinishPool(id);
    SyncPool.StatusMeans(s.execs[id].stage.pool);
  }

  // ---- which status a row ends with ----

  // Some app ended the pool's run with a fatal error, or there are apps and all failed.
  ghost predicate Broken(p: SyncPool.State) {
    || (exists i :: 0 <= i < |p.phases| && p.phases[i] == SyncPool.Finished(SyncPool.FatalApp))
    || (0 < |p.phases| && forall i :: 0 <= i < |p.phases| ==> p.phases[i] == SyncPool.Finished(SyncPool.Failed))
  }

  lemma BrokenFails(p: SyncPool.State)
    requires SyncPool.Inv(p) && SyncPool.Enabled(p, SyncPool.Finish)
    ensures SyncPool.FinalStatus(p).Cancelled? <==> p.userCancel
    ensures SyncPool.FinalStatus(p).FailedRun? <==> !p.userCancel && Broken(p)
  {
    hide SyncPool.Inv, SyncPool.FinalStatus, SyncPool.Of, SyncPool.Everyone, Broken;
    SyncPool.StatusMeans(p);
    BrokenIs(p);
  }

  lemma BrokenIs(p: SyncPool.State)
    requires SyncPool.AllOver(p)
    ensures Broken(p) <==>
      || SyncPool.Of(p.phases, SyncPool.HasFate(SyncPool.FatalApp)) != {}
      || (0 < |p.phases| && SyncPool.Everyone(p) == SyncPool.Of(p.phases, SyncPool.HasFate(SyncPool.Failed)))
  {
    hide SyncPool.Of, SyncPool.AllOver;
    FateIs(p, SyncPool.FatalApp);
    FateIs(p, SyncPool.Failed);
    AllFailedIs(p, SyncPool.Of(p.phases, SyncPool.HasFate(SyncPool.Failed)));
    var fatal := SyncPool.Of(p.phases, SyncPool.HasFate(SyncPool.FatalApp));
    if fatal != {} {
      var i :| i in fatal;
      assert p.phases[i] == SyncPool.Finished(SyncPool.FatalApp);
    }
  }

  lemma AllFailedIs(p: SyncPool.State, failed: set<nat>)
    requires forall i: nat :: i in failed <==> i < |p.phases| && p.phases[i] == SyncPool.Finished(SyncPool.Failed)
    ensures SyncPool.Everyone(p) == failed <==>
      forall i :: 0 <= i < |p.phases| ==> p.phases[i] == SyncPool.Finished(SyncPool.Failed)
  {
    var all := SyncPool.Everyone(p);
    assert forall i: nat :: i in all <==> i < |p.phases|;
    if all == failed {
      forall i | 0 <= i < |p.phases| ensures p.phases[i] == SyncPool.Finished(SyncPool.Failed) {
        assert i in all;
      }
    }
  }

  // Once all is over, the apps of a fate are the ones that finished with it.
  lemma FateIs(p: SyncPool.State, f: SyncPool.Fate)
    requires SyncPool.AllOver(p)
    ensures forall i: nat :: i in SyncPool.Of(p.phases, SyncPool.HasFate(f)) <==>
      i < |p.phases| && p.phases[i] == SyncPool.Finished(f)
  {}

  lemma PoolEnds(s: State, id: nat)
    requires Inv(s) && Enabled(s, FinishPool(id))
    ensures var p := s.execs[id].stage.pool;
      && SyncPool.Inv(p) && p.userCancel == s.execs[id].cancelled && SyncPool.Enabled(p, SyncPool.Finish)
  {
    hide RunningOk, RowsOk, SyncPool.Inv, SyncPool.Enabled;
    assert PoolOk(s.execs[id].stage.pool, s.execs[id].cancelled);
  }

  // Every way a row can end: cancelled exactly if its run was cancelled before it failed to
  // prepare or its pool ended; failed exactly if the run failed outright, or without a cancel
  // failed to prepare or had a broken pool; succeeded exactly if its pool ended otherwise;
  // and interrupted exactly at a restart.
  lemma EndsExactly(s: State, step: Step, id: nat)
    requires Inv(s) && Enabled(s, step) && id < |s.rows|
    requires !Terminal(s.rows[id].status) && Terminal(Apply(s, step).rows[id].status)
    ensures id in s.execs
    ensures var status, cancelled := Apply(s, step).rows[id].status, s.execs[id].cancelled;
      && (status.Cancelled? <==> (step == FinishPool(id) || step == FailOrCancel(id)) && cancelled)
      && (status.Failed? <==>
            || step == FailRun(id)
            || (step == FailOrCancel(id) && !cancelled)
            || (step == FinishPool(id) && !cancelled && Broken(s.execs[id].stage.pool)))
      && (status.Succeeded? <==> step == FinishPool(id) && !cancelled && !Broken(s.execs[id].stage.pool))
      && (status.Interrupted? <==> step == Restart)
  {
    hide RunningOk, PoolsOk, SyncPool.FinalStatus, SyncPool.Enabled, SyncPool.Apply, SyncPool.Inv, Broken, CancelExec;
    if step == FinishPool(id) {
      PoolEnds(s, id);
      BrokenFails(s.execs[id].stage.pool);
    }
  }

  // A run starts uncancelled, and is cancelled exactly by a cancel of its store while it lives.
  lemma CancelledExactly(s: State, step: Step, id: nat)
    requires Inv(s) && Enabled(s, step) && id in Apply(s, step).execs
    ensures Apply(s, step).execs[id].cancelled <==>
      id in s.execs && (s.execs[id].cancelled || step == Cancel(s.execs[id].store))
    ensures id !in s.execs ==> id == |s.rows| && step == Start(Apply(s, step).execs[id].store)
  {
    hide PoolsOk, SyncPool.FinalStatus, SyncPool.Enabled, SyncPool.Apply, SyncPool.Inv;
  }

  // Every live run can go on: one of its own steps is enabled, up to its deferred delete.
  lemma RunGoesOn(s: State, id: nat) returns (step: Step)
    requires Inv(s) && id in s.execs
    ensures Enabled(s, step) && !step.Restart? && !step.Start? && !step.Cancel? && step.id == id
    ensures step.Delete? ==> Terminal(s.rows[id].status)
  {
    hide SyncPool.Enabled, SyncPool.Inv;
    match s.execs[id].stage
    case Preparing => step := BeginRow(id);
    case Verifying => step := BeginPool(id, 1, 0);
    case Ended => step := Delete(id);
    case Pooling(pool) =>
      var next := SyncPool.NeverStuck(pool);
      step := if next.Finish? then FinishPool(id) else PoolStep(id, next);
  }

  // ---- the engine object ----

  // The steps of a run that end in finish.
  predicate Finishes(step: Step, id: nat) {
    step == FailRun(id) || step == FailOrCancel(id) || step == FinishPool(id)
  }

  // The status such a step passes to finish.
  function StatusOf(s: State, step: Step): RowStatus
    requires Enabled(s, step)
  {
    match step
    case FailOrCancel(id) => if s.execs[id].cancelled then Cancelled else Failed
    case FinishPool(id) => OfPool(SyncPool.FinalStatus(s.execs[id].stage.pool))
    case _ => Failed
  }

  // Its mutex makes each method one step of the system above.
  class Engine {
    const configured: set<Store>
    var rows: seq<Row>            // the sync_runs table
    var running: map<Store, nat>  // store to the run whose handle is registered
    var execs: map<nat, Exec>     // live goroutines by run

    ghost function View(): State
      reads this
    {
      State(configured, rows, running, execs)
    }

    constructor (configured: set<Store>)
      ensures View() == Init(configured)
    {
      this.configured := configured;
      rows := [];
      running := map[];
      execs := map[];
    }

    // dbOk: whether inserting the row succeeds.
    method Start(st: Store, dbOk: bool) returns (r: Result<nat, EngineError>)
      modifies this
      ensures r == (if st !in configured then Failure(NotConfigured)
                    else if st in old(running) then Failure(AlreadyRunning)
                    else if !dbOk then Failure(DatabaseError)
                    else Success(|old(rows)|))
      ensures r.Failure? ==> View() == old(View())
      ensures r.Success? ==> Enabled(old(View()), Step.Start(st)) && View() == Apply(old(View()), Step.Start(st))
    {
      if st !in configured {
        return Failure(NotConfigured);
      }
      if st in running {
        return Failure(AlreadyRunning);
      }
      if !dbOk {
        return Failure(DatabaseError);
      }
      var id := |rows|;
      rows := rows + [Row(st, Queued)];
      running := running[st := id];
      execs := execs[id := Exec(st, false, Preparing)];
      return Success(id);
    }

    method Cancel(st: Store) returns (err: Option<EngineError>)
      requires Inv(View())
      modifies this
      ensures err == if st in old(running) then None else Some(NotRunning)
      ensures err.Some? ==> View() == old(View())
      ensures err.None? ==> Enabled(old(View()), Step.Cancel(st)) && View() == Apply(old(View()), Step.Cancel(st))
    {
      if st !in running {
        return Some(NotRunning);
      }
      var id := running[st];
      execs := execs[id := CancelExec(execs[id])];
      return None;
    }

    // The first half of Stop: every registered handle is cancelled.
    method CancelAll()
      requires Inv(View())
      modifies this
      ensures Inv(View()) && rows == old(rows) && running == old(running) && execs.Keys == old(execs.Keys)
      ensures forall id :: id in execs ==> execs[id].cancelled && execs[id].store == old(execs)[id].store
    {
      hide Inv, Apply, Enabled;
      InvRegisters(View());
      var todo := running.Keys;
      while todo != {}
        invariant Inv(View()) && rows == old(rows) && running == old(running) && execs.Keys == old(execs.Keys)
        invariant todo <= running.Keys
        invariant forall id :: id in execs ==> execs[id].store == old(execs)[id].store
        invariant forall id :: id in execs ==> execs[id].store in running
        invariant forall id :: id in execs && execs[id].store !in todo ==> execs[id].cancelled
        decreases |todo|
      {
        var st :| st in todo;
        CancelStep(View(), st);
        var err := Cancel(st);
        todo := todo - {st};
      }
    }

    // The row's final status, as one of the finishing steps decides it; then the deferred
    // removal from the running map.
    method Finish(id: nat, status: RowStatus, ghost step: Step)
      requires Finishes(step, id) && Enabled(View(), step) && status == StatusOf(View(), step)
      modifies this
      ensures View() == Apply(old(View()), step)
    {
      rows := rows[id := rows[id].(status := status)];
      execs := execs[id := execs[id].(stage := Ended)];
    }

    method Remove(id: nat)
      requires Enabled(View(), Delete(id))
      modifies this
      ensures View() == Apply(old(View()), Delete(id))
    {
      running := running - {execs[id].store};
      execs := execs - {id};
    }

    // A new process: no goroutines, and MarkInterruptedRuns on the table it finds.
    method Recover() returns (n: nat)
      modifies this
      ensures View() == Apply(old(View()), Restart)
      ensures n == OpenRows(old(rows))
    {
      running := map[];
      execs := map[];
      n := 0;
      ghost var before := rows;
      for i := 0 to |rows|
        invariant configured == old(View()).configured && running == map[] && execs == map[]
        invariant |rows| == |before| && rows[i..] == before[i..]
        invariant rows[..i] == InterruptAll(before)[..i]
        invariant n == OpenRows(before[..i])
      {
        assert rows[i] == before[i];
        assert before[..i + 1][..i] == before[..i];
        if !Terminal(rows[i].status) {
          rows := rows[i := rows[i].(status := Interrupted)];
          n := n + 1;
        }
      }
      assert before[..|rows|] == before;
    }
  }

  ghost predicate CancelledFor(e: Exec, f: Exec, st: Store) {
    f.store == e.store && f.cancelled == (e.cancelled || e.store == st)
  }

  lemma InvRegisters(s: State)
    requires Inv(s)
    ensures forall id :: id in s.execs ==> s.execs[id].store in s.running
  {}

  lemma CancelStep(s: State, st: Store)
    requires Inv(s) && st in s.running
    ensures Enabled(s, Step.Cancel(st))
    ensures var t := Apply(s, Step.Cancel(st));
      && Inv(t) && t.rows == s.rows && t.running == s.running && t.execs.Keys == s.execs.Keys
      && forall id :: id in s.execs ==> CancelledFor(s.execs[id], t.execs[id], st)
  {
    hide PoolsOk;
    StepKeepsInv(s, Step.Cancel(st));
  }

  function OpenRows(rows: seq<Row>): nat {
    if rows == [] then 0 else OpenRows(rows[..|rows| - 1]) + if Terminal(rows[|rows| - 1].status) then 0 else 1
  }
}
