// What a run of the worker pool did, told by its steps alone: which calls returned what, and
// when the cancellations came, decide every app's fate and the run's status.
module SyncRuns {
  import opened Sets
  import opened SyncPool
  import opened Wrappers

  // ---- runs by their last step ----

  lemma {:induction false} RunNext(s: State, steps: seq<Step>)
    requires steps != [] && IsRun(s, steps)
    ensures var init, last := steps[..|steps| - 1], steps[|steps| - 1];
      IsRun(s, init) && Enabled(After(s, init), last) && After(s, steps) == Apply(After(s, init), last)
    decreases |steps|
  {
    hide Enabled, Apply;
    if |steps| > 1 {
      RunNext(Apply(s, steps[0]), steps[1..]);
      assert steps[1..][..|steps| - 2] == steps[..|steps| - 1][1..];
    }
  }

  // The steps before the last x, and none if there is no x.
  function Before(steps: seq<Step>, x: Step): seq<Step> {
    if steps == [] then []
    else
      var init := steps[..|steps| - 1];
      if steps[|steps| - 1] == x then init else Before(init, x)
  }

  // The context of the apps was cancelled in these steps, by the user or by a fatal error.
  ghost predicate Cut(cancelled: bool, steps: seq<Step>) {
    cancelled || UserCancel in steps || exists j :: CancelApps(j) in steps
  }

  ghost predicate CutBefore(cancelled: bool, steps: seq<Step>, x: Step) {
    Cut(cancelled, Before(steps, x))
  }

  ghost predicate NoReturn(steps: seq<Step>, i: nat) {
    forall o :: Return(i, o) !in steps
  }

  ghost predicate OnlyReturn(steps: seq<Step>, i: nat, o: Outcome) {
    Return(i, o) in steps && forall p :: Return(i, p) in steps ==> p == o
  }

  // ---- the trace of one app ----

  // An app whose check came before any cancellation, and what it returned.
  ghost predicate Ran(cancelled: bool, steps: seq<Step>, i: nat, o: Outcome) {
    !CutBefore(cancelled, steps, Check(i)) && StartApp(i) in steps && OnlyReturn(steps, i, o)
  }

  // Why a fate is what it is.
  ghost predicate FateTold(cancelled: bool, steps: seq<Step>, i: nat, f: Fate) {
    match f
    case Done => Ran(cancelled, steps, i, Ok)
    case Failed => Ran(cancelled, steps, i, Error) && !CutBefore(cancelled, steps, Settle(i))
    case FatalApp => Ran(cancelled, steps, i, FatalError) && !CutBefore(cancelled, steps, Settle(i))
    case Abandoned =>
      && CutBefore(cancelled, steps, Settle(i))
      && (Ran(cancelled, steps, i, Error) || Ran(cancelled, steps, i, FatalError))
    case Skipped => CutBefore(cancelled, steps, Check(i)) && StartApp(i) !in steps && NoReturn(steps, i)
  }

  ghost predicate AppTold(cancelled: bool, steps: seq<Step>, i: nat, p: Phase) {
    match p
    case Checked => !CutBefore(cancelled, steps, Check(i)) && StartApp(i) !in steps && NoReturn(steps, i)
    case Running => !CutBefore(cancelled, steps, Check(i)) && StartApp(i) in steps && NoReturn(steps, i)
    case Returned(o) => Ran(cancelled, steps, i, o)
    case Recorded => FateTold(cancelled, steps, i, FatalApp)
    case Settled(f) => FateTold(cancelled, steps, i, f)
    case Finished(f) => FateTold(cancelled, steps, i, f)
    case _ => StartApp(i) !in steps && NoReturn(steps, i)
  }

  ghost predicate CancelsTold(cancelled: bool, steps: seq<Step>, s: State) {
    && (s.userCancel <==> cancelled || UserCancel in steps)
    && (s.appsCancelled <==> exists j :: CancelApps(j) in steps)
  }

  ghost predicate Told(cancelled: bool, steps: seq<Step>, s: State) {
    CancelsTold(cancelled, steps, s) && forall i :: 0 <= i < |s.phases| ==> AppTold(cancelled, steps, i, s.phases[i])
  }

  lemma InNext(steps: seq<Step>, step: Step, x: Step)
    ensures x in steps + [step] <==> x in steps || x == step
    ensures Before(steps + [step], x) == if step == x then steps else Before(steps, x)
  {
    assert (steps + [step])[..|steps|] == steps;
  }

  lemma CancelsNext(cancelled: bool, steps: seq<Step>, s: State, step: Step)
    requires CancelsTold(cancelled, steps, s) && Enabled(s, step)
    ensures CancelsTold(cancelled, steps + [step], Apply(s, step))
  {
    InNext(steps, step, UserCancel);
    forall j ensures CancelApps(j) in steps + [step] <==> CancelApps(j) in steps || CancelApps(j) == step {
      InNext(steps, step, CancelApps(j));
    }
  }

  // A step that is not the app's own leaves its trace alone.
  lemma OthersStep(cancelled: bool, steps: seq<Step>, i: nat, p: Phase, step: Step)
    requires AppTold(cancelled, steps, i, p)
    requires step != Check(i) && step != StartApp(i) && step != Settle(i) && !(step.Return? && step.app == i)
    ensures AppTold(cancelled, steps + [step], i, p)
  {
    hide Cut, Before;
    InNext(steps, step, Check(i));
    InNext(steps, step, StartApp(i));
    InNext(steps, step, Settle(i));
  }

  lemma OwnCheck(cancelled: bool, steps: seq<Step>, i: nat, p: Phase)
    requires p.Holding? && AppTold(cancelled, steps, i, p)
    ensures AppTold(cancelled, steps + [Check(i)], i, if Cut(cancelled, steps) then Settled(Skipped) else Checked)
  {
    hide Cut, Before;
    InNext(steps, Check(i), Check(i));
  }

  lemma OwnCall(cancelled: bool, steps: seq<Step>, i: nat, p: Phase, step: Step)
    requires AppTold(cancelled, steps, i, p)
    requires step == StartApp(i) ==> p.Checked?
    requires step.Return? && step.app == i ==> p.Running?
    requires step == StartApp(i) || (step.Return? && step.app == i)
    ensures AppTold(cancelled, steps + [step], i, if step.StartApp? then Running else Returned(step.outcome))
  {
    hide Cut, Before;
    InNext(steps, step, Check(i));
    InNext(steps, step, StartApp(i));
  }

  lemma OwnSettle(cancelled: bool, steps: seq<Step>, i: nat, p: Phase)
    requires p.Returned? && AppTold(cancelled, steps, i, p)
    ensures FateTold(cancelled, steps + [Settle(i)], i,
      if p.outcome.Ok? then Done else if Cut(cancelled, steps) then Abandoned
      else if p.outcome.Error? then Failed else FatalApp)
  {
    hide Cut, Before;
    InNext(steps, Settle(i), Check(i));
    InNext(steps, Settle(i), StartApp(i));
    InNext(steps, Settle(i), Settle(i));
  }

  lemma AppNext(cancelled: bool, steps: seq<Step>, s: State, step: Step, i: nat)
    requires Inv(s) && Told(cancelled, steps, s) && Enabled(s, step) && i < |s.phases|
    ensures |Apply(s, step).phases| == |s.phases| && AppTold(cancelled, steps + [step], i, Apply(s, step).phases[i])
  {
    hide Before, CountsOk, LateOk, AllOver, Of, FateTold, Ran, NoReturn, OnlyReturn, CutBefore;
    var p := s.phases[i];
    assert CtxErr(s) <==> Cut(cancelled, steps);
    if step == Check(i) {
      OwnCheck(cancelled, steps, i, p);
    } else if step == StartApp(i) || (step.Return? && step.app == i) {
      OwnCall(cancelled, steps, i, p, step);
    } else if step == Settle(i) {
      OwnSettle(cancelled, steps, i, p);
    } else {
      OthersStep(cancelled, steps, i, p, step);
    }
  }

  lemma {:induction false} RunTold(s: State, steps: seq<Step>)
    requires Inv(s) && IsRun(s, steps) && Told(s.userCancel, [], s)
    ensures Inv(After(s, steps)) && Told(s.userCancel, steps, After(s, steps))
    decreases |steps|
  {
    hide Inv, AppTold, CancelsTold, Enabled, Apply;
    if steps != [] {
      var init, last := steps[..|steps| - 1], steps[|steps| - 1];
      RunNext(s, steps);
      RunTold(s, init);
      var before := After(s, init);
      StepKeepsInv(before, last);
      CancelsNext(s.userCancel, init, before, last);
      assert steps == init + [last];
      forall i | 0 <= i < |Apply(before, last).phases|
        ensures AppTold(s.userCancel, steps, i, Apply(before, last).phases[i])
      {
        PhasesStay(before, last);
        AppNext(s.userCancel, init, before, last, i);
      }
    }
  }

  lemma PhasesStay(s: State, step: Step)
    requires Enabled(s, step)
    ensures |Apply(s, step).phases| == |s.phases|
  {}

  lemma InitTold(concurrency: int, apps: nat, cancelled: bool)
    ensures Told(cancelled, [], Init(concurrency, apps, cancelled))
  {}

  // ---- every run from the start ----

  ghost predicate Finishes(s: State, i: nat, f: Fate) {
    i < |s.phases| && s.phases[i] == Finished(f)
  }

  lemma RunFromStart(concurrency: int, apps: nat, cancelled: bool, steps: seq<Step>)
    requires IsRun(Init(concurrency, apps, cancelled), steps)
    ensures var s := After(Init(concurrency, apps, cancelled), steps);
      Inv(s) && Told(cancelled, steps, s) && |s.phases| == apps && SuccessOk(s)
  {
    hide Inv, Told;
    InitInv(concurrency, apps, cancelled);
    InitTold(concurrency, apps, cancelled);
    RunTold(Init(concurrency, apps, cancelled), steps);
    RunSafety(Init(concurrency, apps, cancelled), steps);
  }

  // An app that is over was skipped exactly when a cancellation came before its check, and
  // was then never started. Otherwise its one call returned; it is done exactly when the call
  // succeeded, given up exactly when it did not and a cancellation came before the result was
  // recorded, and else it failed or was the fatal app, as the call said.
  lemma FatesExactly(concurrency: int, apps: nat, cancelled: bool, steps: seq<Step>, i: nat, f: Fate)
    requires IsRun(Init(concurrency, apps, cancelled), steps)
    requires Finishes(After(Init(concurrency, apps, cancelled), steps), i, f)
    ensures f == Skipped <==> CutBefore(cancelled, steps, Check(i))
    ensures f == Skipped ==> StartApp(i) !in steps && NoReturn(steps, i)
    ensures f != Skipped ==> StartApp(i) in steps && exists o :: OnlyReturn(steps, i, o)
    ensures f == Done <==> Return(i, Ok) in steps
    ensures f == Abandoned <==>
      CutBefore(cancelled, steps, Settle(i)) && (Return(i, Error) in steps || Return(i, FatalError) in steps)
    ensures f == Failed <==> !CutBefore(cancelled, steps, Settle(i)) && Return(i, Error) in steps
    ensures f == FatalApp <==> !CutBefore(cancelled, steps, Settle(i)) && Return(i, FatalError) in steps
  {
    hide Inv, CutBefore, IsRun;
    RunFromStart(concurrency, apps, cancelled, steps);
    assert AppTold(cancelled, steps, i, Finished(f));
  }

  // An app that was never launched called nothing, and there is one only after a cancellation.
  lemma NeverLaunched(concurrency: int, apps: nat, cancelled: bool, steps: seq<Step>, i: nat)
    requires IsRun(Init(concurrency, apps, cancelled), steps)
    requires var s := After(Init(concurrency, apps, cancelled), steps);
      i < |s.phases| && s.status.Some? && s.phases[i].NotLaunched?
    ensures StartApp(i) !in steps && NoReturn(steps, i) && Cut(cancelled, steps)
  {
    hide IsRun, CountsOk, LateOk, FatalOk, SuccessOk;
    RunFromStart(concurrency, apps, cancelled, steps);
    var s := After(Init(concurrency, apps, cancelled), steps);
    assert AppTold(cancelled, steps, i, s.phases[i]);
  }

  lemma {:induction false} RunSplits(s: State, before: seq<Step>, after: seq<Step>)
    requires IsRun(s, before + after)
    ensures IsRun(s, before) && IsRun(After(s, before), after)
    decreases |before|
  {
    hide Enabled, Apply;
    if before == [] {
      assert before + after == after;
    } else {
      assert (before + after)[1..] == before[1..] + after;
      RunSplits(Apply(s, before[0]), before[1..], after);
    }
  }

  lemma {:induction false} StoppedLaunchesNone(s: State, steps: seq<Step>)
    requires s.launcher.Stopped? && IsRun(s, steps)
    ensures Launch !in steps
    decreases |steps|
  {
    if steps != [] {
      StoppedLaunchesNone(Apply(s, steps[0]), steps[1..]);
    }
  }

  // Once the loop looks at the context after a cancellation, no app is launched any more.
  lemma LaunchingStops(concurrency: int, apps: nat, cancelled: bool, before: seq<Step>, after: seq<Step>)
    requires IsRun(Init(concurrency, apps, cancelled), before + ([CheckLaunch] + after))
    requires Cut(cancelled, before)
    ensures Launch !in after
  {
    hide Inv, IsRun, After;
    var start := Init(concurrency, apps, cancelled);
    RunSplits(start, before, [CheckLaunch] + after);
    RunFromStart(concurrency, apps, cancelled, before);
    CheckStops(After(start, before), after);
  }

  lemma CheckStops(s: State, after: seq<Step>)
    requires CtxErr(s) && IsRun(s, [CheckLaunch] + after)
    ensures Launch !in after
  {
    assert ([CheckLaunch] + after)[1..] == after;
    StoppedLaunchesNone(Apply(s, CheckLaunch), after);
  }

  // A waiting app can go ahead exactly when fewer apps than the wanted concurrency, at least
  // one and at most one an app, hold a slot.
  lemma SlotsExactly(concurrency: int, apps: nat, cancelled: bool, steps: seq<Step>, i: nat)
    requires IsRun(Init(concurrency, apps, cancelled), steps)
    ensures var s := After(Init(concurrency, apps, cancelled), steps);
      var holding := set k: nat | k < |s.phases| && !s.phases[k].NotLaunched? && !s.phases[k].Waiting?
        && !s.phases[k].Finished?;
      Enabled(s, Acquire(i)) <==>
        && i < |s.phases| && s.phases[i].Waiting? && |holding| < apps
        && |holding| < if concurrency > 1 then concurrency else 1
  {
    hide IsRun, Inv, Told;
    RunFromStart(concurrency, apps, cancelled, steps);
    RunSafety(Init(concurrency, apps, cancelled), steps) by {
      InitInv(concurrency, apps, cancelled);
    }
    var s := After(Init(concurrency, apps, cancelled), steps);
    assert Of(s.phases, InSlot) == set k: nat | k < |s.phases| && !s.phases[k].NotLaunched? && !s.phases[k].Waiting?
      && !s.phases[k].Finished?;
  }

  // ---- the final status ----

  lemma {:induction false} BeforeIn(steps: seq<Step>, x: Step, y: Step)
    requires y in Before(steps, x)
    ensures y in steps
  {
    if steps != [] && steps[|steps| - 1] != x {
      BeforeIn(steps[..|steps| - 1], x, y);
    }
  }

  lemma CutEarlier(cancelled: bool, steps: seq<Step>, x: Step)
    requires CutBefore(cancelled, steps, x)
    ensures Cut(cancelled, steps)
  {
    if !cancelled {
      if UserCancel in Before(steps, x) {
        BeforeIn(steps, x, UserCancel);
      } else {
        var j :| CancelApps(j) in Before(steps, x);
        BeforeIn(steps, x, CancelApps(j));
      }
    }
  }

  // A state in which the run is about to finish, told by the steps that led to it.
  ghost predicate Ending(cancelled: bool, steps: seq<Step>, s: State) {
    Inv(s) && Told(cancelled, steps, s) && Enabled(s, Finish)
  }

  lemma EndingFates(cancelled: bool, steps: seq<Step>, s: State, i: nat)
    requires Ending(cancelled, steps, s) && i < |s.phases|
    ensures s.phases[i].NotLaunched? || s.phases[i].Finished?
    ensures s.phases[i].NotLaunched? ==> NoReturn(steps, i)
    ensures s.phases[i].Finished? ==> FateTold(cancelled, steps, i, s.phases[i].fate)
  {
    hide Inv, Cut, FateTold;
    assert AppTold(cancelled, steps, i, s.phases[i]);
  }

  lemma FatalTold(cancelled: bool, steps: seq<Step>, s: State)
    requires Ending(cancelled, steps, s) && !s.userCancel
    ensures s.fatal.Some? <==> exists i :: 0 <= i < |s.phases| && Return(i, FatalError) in steps
  {
    hide CountsOk, LateOk, LauncherOk, Before;
    if s.fatal.Some? {
      var i := s.fatal.value;
      assert i in Of(s.phases, HasFate(FatalApp));
      EndingFates(cancelled, steps, s, i);
    }
    if i :| 0 <= i < |s.phases| && Return(i, FatalError) in steps {
      EndingFates(cancelled, steps, s, i);
      if s.phases[i].fate == FatalApp {
        assert i in Of(s.phases, HasFate(FatalApp));
      } else {
        CutEarlier(cancelled, steps, Settle(i));
      }
    }
  }

  lemma AllFailedTold(cancelled: bool, steps: seq<Step>, s: State)
    requires Ending(cancelled, steps, s) && !s.userCancel && s.fatal.None?
    ensures Everyone(s) == Of(s.phases, HasFate(Failed)) <==>
      forall i :: 0 <= i < |s.phases| ==> Return(i, Error) in steps
  {
    hide CountsOk, LateOk, LauncherOk, Before;
    forall i | 0 <= i < |s.phases|
      ensures i in Of(s.phases, HasFate(Failed)) <==> Return(i, Error) in steps
    {
      EndingFates(cancelled, steps, s, i);
      if Return(i, Error) in steps && s.phases[i].fate == Abandoned {
        CutEarlier(cancelled, steps, Settle(i));
      }
    }
    if Everyone(s) == Of(s.phases, HasFate(Failed)) {
      forall i | 0 <= i < |s.phases| ensures Return(i, Error) in steps {
        assert i in Everyone(s);
      }
    } else {
      assert forall i :: i in Of(s.phases, HasFate(Failed)) ==> i in Everyone(s);
    }
  }

  // What a run has come to once its status is set: cancelled exactly if the user cancelled
  // it, else failed exactly if some call returned a fatal error or every app's an error.
  lemma StatusExactly(concurrency: int, apps: nat, cancelled: bool, steps: seq<Step>)
    requires steps != [] && steps[|steps| - 1] == Finish && IsRun(Init(concurrency, apps, cancelled), steps)
    ensures var s := After(Init(concurrency, apps, cancelled), steps);
      && s.status.Some?
      && (s.status.value == Cancelled <==> cancelled || UserCancel in steps)
      && (s.status.value == FailedRun <==>
            && !cancelled && UserCancel !in steps
            && ((exists i :: 0 <= i < apps && Return(i, FatalError) in steps) ||
                (0 < apps && forall i :: 0 <= i < apps ==> Return(i, Error) in steps)))
  {
    hide Inv, Told, IsRun, After, Everyone, Init;
    var start, init := Init(concurrency, apps, cancelled), steps[..|steps| - 1];
    RunNext(start, steps);
    RunFromStart(concurrency, apps, cancelled, init);
    var s := After(start, init);
    assert steps == init + [Finish];
    forall x ensures x in steps <==> x in init || x == Finish {
      InNext(init, Finish, x);
    }
    StatusMeans(s);
    UserTold(cancelled, init, s);
    if !s.userCancel {
      FatalTold(cancelled, init, s);
      FatalSet(s);
      if s.fatal.None? {
        AllFailedTold(cancelled, init, s);
      }
    }
  }

  lemma UserTold(cancelled: bool, steps: seq<Step>, s: State)
    requires Told(cancelled, steps, s)
    ensures s.userCancel <==> cancelled || UserCancel in steps
  {}

  lemma FatalSet(s: State)
    requires Inv(s)
    ensures s.fatal.Some? <==> Of(s.phases, HasFate(FatalApp)) != {}
  {}

  // The counters of a run that is over, by what the calls returned.
  lemma CountsExactly(concurrency: int, apps: nat, cancelled: bool, steps: seq<Step>)
    requires IsRun(Init(concurrency, apps, cancelled), steps)
    requires Enabled(After(Init(concurrency, apps, cancelled), steps), Finish)
    ensures var s := After(Init(concurrency, apps, cancelled), steps);
      && s.appsDone == |set i: nat | i < apps && (Return(i, Ok) in steps
           || (Return(i, Error) in steps && !CutBefore(cancelled, steps, Settle(i))))|
      && s.failed == |set i: nat | i < apps && (Return(i, Error) in steps || Return(i, FatalError) in steps)
           && !CutBefore(cancelled, steps, Settle(i))|
  {
    hide Told, IsRun, After, LateOk, LauncherOk, FatalOk, AllOver, SuccessOk;
    RunFromStart(concurrency, apps, cancelled, steps);
    var s := After(Init(concurrency, apps, cancelled), steps);
    FateSets(cancelled, steps, s);
    var a, b, c := Of(s.phases, HasFate(Done)), Of(s.phases, HasFate(Failed)), Of(s.phases, HasFate(FatalApp));
    Apart(s);
    assert |a + b| == |a| + |b| && |b + c| == |b| + |c|;
  }

  lemma FateSets(cancelled: bool, steps: seq<Step>, s: State)
    requires Ending(cancelled, steps, s)
    ensures Of(s.phases, HasFate(Done)) + Of(s.phases, HasFate(Failed)) ==
      set i: nat | i < |s.phases| && (Return(i, Ok) in steps
        || (Return(i, Error) in steps && !CutBefore(cancelled, steps, Settle(i))))
    ensures Of(s.phases, HasFate(Failed)) + Of(s.phases, HasFate(FatalApp)) ==
      set i: nat | i < |s.phases| && (Return(i, Error) in steps || Return(i, FatalError) in steps)
        && !CutBefore(cancelled, steps, Settle(i))
  {
    hide Inv, Told, CutBefore;
    forall i: nat | i < |s.phases|
      ensures i in Of(s.phases, HasFate(Done)) <==> Return(i, Ok) in steps
      ensures i in Of(s.phases, HasFate(Failed)) <==>
        Return(i, Error) in steps && !CutBefore(cancelled, steps, Settle(i))
      ensures i in Of(s.phases, HasFate(FatalApp)) <==>
        Return(i, FatalError) in steps && !CutBefore(cancelled, steps, Settle(i))
    {
      EndingFates(cancelled, steps, s, i);
    }
  }

  // An uncancelled run whose calls all succeed is a success over every app.
  lemma AllOkSucceeds(concurrency: int, apps: nat, steps: seq<Step>)
    requires steps != [] && steps[|steps| - 1] == Finish && IsRun(Init(concurrency, apps, false), steps)
    requires UserCancel !in steps && forall i, o :: Return(i, o) in steps ==> o == Ok
    ensures var s := After(Init(concurrency, apps, false), steps);
      s.status == Some(Succeeded) && s.appsDone == apps
  {
    hide IsRun, Inv, Told;
    StatusExactly(concurrency, apps, false, steps);
    RunFromStart(concurrency, apps, false, steps);
    assert 0 < apps ==> Return(0, Error) !in steps;
  }

  // A success over at least one app has a call that succeeded.
  lemma SuccessHasOk(concurrency: int, apps: nat, cancelled: bool, steps: seq<Step>)
    requires 0 < apps && IsRun(Init(concurrency, apps, cancelled), steps)
    requires After(Init(concurrency, apps, cancelled), steps).status == Some(Succeeded)
    ensures exists i :: 0 <= i < apps && Return(i, Ok) in steps
  {
    hide IsRun, Inv, Told;
    RunFromStart(concurrency, apps, cancelled, steps);
    var s := After(Init(concurrency, apps, cancelled), steps);
    var i :| i in Of(s.phases, HasFate(Done));
    ToldAt(cancelled, steps, s, i);
    DoneReturned(cancelled, steps, s, i);
  }

  lemma DoneReturned(cancelled: bool, steps: seq<Step>, s: State, i: nat)
    requires Inv(s) && s.status.Some? && i in Of(s.phases, HasFate(Done)) && AppTold(cancelled, steps, i, s.phases[i])
    ensures Return(i, Ok) in steps
  {}

  // An uncancelled run over at least one app none of whose calls succeeds has failed.
  lemma AllErrorsFail(concurrency: int, apps: nat, steps: seq<Step>)
    requires steps != [] && steps[|steps| - 1] == Finish && IsRun(Init(concurrency, apps, false), steps)
    requires UserCancel !in steps && 0 < apps && forall i :: 0 <= i < apps ==> Return(i, Ok) !in steps
    ensures After(Init(concurrency, apps, false), steps).status == Some(FailedRun)
  {
    hide IsRun, After, Init;
    StatusExactly(concurrency, apps, false, steps);
    if After(Init(concurrency, apps, false), steps).status == Some(Succeeded) {
      SuccessHasOk(concurrency, apps, false, steps);
    }
  }

  lemma ToldAt(cancelled: bool, steps: seq<Step>, s: State, i: nat)
    requires Told(cancelled, steps, s) && i < |s.phases|
    ensures AppTold(cancelled, steps, i, s.phases[i])
  {}

  // Once the status is set, only a user's cancellation can still arrive, and it changes
  // nothing that is recorded.
  lemma StatusIsFinal(s: State, step: Step)
    requires Inv(s) && s.status.Some? && Enabled(s, step)
    ensures Apply(s, step) == s.(userCancel := true)
  {
    hide Inv;
    OnlyCancelLeft(s, step);
  }
}
