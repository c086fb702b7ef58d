// One sync run's worker pool: Engine.execute from the app loop to the final status,
// as a transition system whose steps interleave freely.
module SyncPool {
  import opened Sets
  import opened Wrappers

  // What SyncApp returned.
  datatype Outcome = Ok | Error | FatalError

  // How an app ended up.
  datatype Fate = Done | Failed | FatalApp | Abandoned | Skipped

  // Where an app's goroutine stands. It holds a semaphore slot from Holding to
  // Settled; Recorded is inside the mutex, between recording the first fatal error
  // and cancelling the other apps.
  datatype Phase =
    | NotLaunched
    | Waiting
    | Holding
    | Checked
    | Running
    | Returned(outcome: Outcome)
    | Recorded
    | Settled(fate: Fate)
    | Finished(fate: Fate)

  // The launching loop: before the context check for app `next`, between check and
  // launch, or past the loop.
  datatype Launcher = At(next: nat) | Ready(next: nat) | Stopped(next: nat)

  datatype Status = Succeeded | FailedRun | Cancelled

  datatype State = State(
    workers: nat,
    phases: seq<Phase>,
    launcher: Launcher,
    userCancel: bool,          // ctx
    appsCancelled: bool,       // appCtx, cancelled by the first fatal error
    mutex: Option<nat>,        // resMu, where it is held over more than one step
    appsDone: nat,
    failed: nat,
    fatal: Option<nat>,        // the app whose error is in `fatal`
    status: Option<Status>,
    late: set<nat>)            // history: apps past their check since the fatal error was recorded

  datatype Step =
    | CheckLaunch
    | Launch
    | Acquire(app: nat)
    | Check(app: nat)
    | StartApp(app: nat)
    | Return(app: nat, outcome: Outcome)
    | Settle(app: nat)
    | CancelApps(app: nat)
    | Release(app: nat)
    | UserCancel
    | Finish

  // ---- the system ----

  function Workers(concurrency: int, apps: nat): nat {
    var w := if concurrency > 1 then concurrency else 1;
    if w > apps then apps else w
  }

  function Init(concurrency: int, apps: nat, cancelled: bool): State {
    State(Workers(concurrency, apps), seq(apps, i => NotLaunched), At(0), cancelled, false, None, 0, 0, None, None, {})
  }

  // appCtx.Err() != nil
  predicate CtxErr(s: State) {
    s.userCancel || s.appsCancelled
  }

  // Classes of phases, for counting apps.
  datatype Class = InSlot | InFlight | PastCheck | HasFate(f: Fate) | Unlaunched

  // The app that recorded the fatal error has its fate before it leaves the mutex.
  function FateOf(p: Phase): Option<Fate> {
    match p
    case Recorded => Some(FatalApp)
    case Settled(f) => Some(f)
    case Finished(f) => Some(f)
    case _ => None
  }

  predicate In(c: Class, p: Phase) {
    match c
    case InSlot => p.Holding? || p.Checked? || p.Running? || p.Returned? || p.Recorded? || p.Settled?
    case InFlight => p.Running?
    case PastCheck => p.Checked? || p.Running? || p.Returned?
    case HasFate(f) => FateOf(p) == Some(f)
    case Unlaunched => p.NotLaunched?
  }

  function Of(phases: seq<Phase>, c: Class): set<nat> {
    set i: nat | i < |phases| && In(c, phases[i])
  }

  predicate IsApp(s: State, i: nat) {
    i < |s.phases|
  }

  predicate AllOver(s: State) {
    forall i :: 0 <= i < |s.phases| ==> s.phases[i].NotLaunched? || s.phases[i].Finished?
  }

  predicate Enabled(s: State, step: Step) {
    match step
    case CheckLaunch => s.launcher.At?
    case Launch => s.launcher.Ready? && IsApp(s, s.launcher.next)
    case Acquire(i) => IsApp(s, i) && s.phases[i].Waiting? && |Of(s.phases, InSlot)| < s.workers
    case Check(i) => IsApp(s, i) && s.phases[i].Holding?
    case StartApp(i) => IsApp(s, i) && s.phases[i].Checked?
    case Return(i, o) => IsApp(s, i) && s.phases[i].Running?
    case Settle(i) => IsApp(s, i) && s.phases[i].Returned? && s.mutex.None?
    case CancelApps(i) => IsApp(s, i) && s.phases[i].Recorded?
    case Release(i) => IsApp(s, i) && s.phases[i].Settled?
    case UserCancel => !s.userCancel
    case Finish => s.launcher.Stopped? && AllOver(s) && s.status.None?
  }

  function WithPhase(s: State, i: nat, p: Phase): State
    requires IsApp(s, i)
  {
    s.(phases := s.phases[i := p])
  }

  // The switch after wg.Wait().
  function FinalStatus(s: State): Status {
    if s.userCancel then Cancelled
    else if s.fatal.Some? then FailedRun
    else if |s.phases| > 0 && s.failed == |s.phases| then FailedRun
    else Succeeded
  }

  // One worker's critical section.
  function SettleApp(s: State, i: nat): State
    requires Enabled(s, Settle(i))
  {
    var o := s.phases[i].outcome;
    if o.Ok? then WithPhase(s, i, Settled(Done)).(appsDone := s.appsDone + 1)
    else if CtxErr(s) then WithPhase(s, i, Settled(Abandoned))
    else if o.FatalError? && s.fatal.None? then
      WithPhase(s, i, Recorded).(failed := s.failed + 1, fatal := Some(i), mutex := Some(i),
                                 late := Of(s.phases, PastCheck) - {i})
    else WithPhase(s, i, Settled(Failed)).(failed := s.failed + 1, appsDone := s.appsDone + 1)
  }

  function Apply(s: State, step: Step): State
    requires Enabled(s, step)
  {
    match step
    case CheckLaunch =>
      var k := s.launcher.next;
      s.(launcher := if k >= |s.phases| || CtxErr(s) then Stopped(k) else Ready(k))
    case Launch => WithPhase(s, s.launcher.next, Waiting).(launcher := At(s.launcher.next + 1))
    case Acquire(i) => WithPhase(s, i, Holding)
    case Check(i) =>
      if CtxErr(s) then WithPhase(s, i, Settled(Skipped))
      else WithPhase(s, i, Checked).(late := if s.fatal.Some? then s.late + {i} else s.late)
    case StartApp(i) => WithPhase(s, i, Running)
    case Return(i, o) => WithPhase(s, i, Returned(o))
    case Settle(i) => SettleApp(s, i)
    case CancelApps(i) => WithPhase(s, i, Settled(FatalApp)).(appsCancelled := true, mutex := None)
    case Release(i) => WithPhase(s, i, Finished(s.phases[i].fate))
    case UserCancel => s.(userCancel := true)
    case Finish => s.(status := Some(FinalStatus(s)))
  }

  // ---- runs ----

  ghost predicate IsRun(s: State, steps: seq<Step>)
    decreases |steps|
  {
    steps == [] || (Enabled(s, steps[0]) && IsRun(Apply(s, steps[0]), steps[1..]))
  }

  ghost function After(s: State, steps: seq<Step>): State
    requires IsRun(s, steps)
    decreases |steps|
  {
    if steps == [] then s else After(Apply(s, steps[0]), steps[1..])
  }

  // ---- the invariant ----

  function Num(s: State, c: Class): nat {
    |Of(s.phases, c)|
  }

  ghost predicate LauncherOk(s: State) {
    && s.launcher.next <= |s.phases|
    && (s.launcher.Ready? ==> s.launcher.next < |s.phases|)
    && (forall i :: 0 <= i < |s.phases| ==> (s.phases[i].NotLaunched? <==> s.launcher.next <= i))
    && (s.launcher.Stopped? && s.launcher.next < |s.phases| ==> CtxErr(s))
  }

  ghost predicate FatalOk(s: State) {
    && Of(s.phases, HasFate(FatalApp)) == (if s.fatal.Some? then {s.fatal.value} else {})
    && (forall i :: 0 <= i < |s.phases| ==> (s.phases[i].Recorded? <==> s.mutex == Some(i)))
    && (s.mutex.Some? ==> s.fatal == s.mutex)
    && (s.appsCancelled <==> s.fatal.Some? && s.mutex.None?)
  }

  ghost predicate CountsOk(s: State) {
    && s.appsDone == Num(s, HasFate(Done)) + Num(s, HasFate(Failed))
    && s.failed == Num(s, HasFate(Failed)) + Num(s, HasFate(FatalApp))
    && Num(s, InSlot) <= s.workers
    && (!CtxErr(s) ==> Num(s, HasFate(Abandoned)) == 0 && Num(s, HasFate(Skipped)) == 0)
  }

  ghost predicate LateOk(s: State) {
    && (s.fatal.None? ==> s.late == {})
    && (s.fatal.Some? ==> s.fatal.value !in s.late && Of(s.phases, PastCheck) <= s.late && |s.late| < s.workers)
    && (s.mutex.Some? ==> s.late <= Of(s.phases, PastCheck))
  }

  ghost predicate Inv(s: State) {
    && s.workers <= |s.phases| && (0 < |s.phases| ==> 0 < s.workers)
    && LauncherOk(s) && FatalOk(s) && CountsOk(s) && LateOk(s)
    && (s.status.Some? ==> s.launcher.Stopped? && AllOver(s))
  }

  lemma InitInv(concurrency: int, apps: nat, cancelled: bool)
    ensures Inv(Init(concurrency, apps, cancelled))
  {
    var s := Init(concurrency, apps, cancelled);
    forall c: Class | c != Unlaunched ensures Of(s.phases, c) == {} {}
  }

  // How one app's change of phase moves it between classes.
  lemma Gains(phases: seq<Phase>, i: nat, p: Phase, c: Class)
    requires i < |phases| && !In(c, phases[i]) && In(c, p)
    ensures i !in Of(phases, c) && Of(phases[i := p], c) == Of(phases, c) + {i}
    ensures |Of(phases[i := p], c)| == |Of(phases, c)| + 1
  {
    hide In;
    var a, b := Of(phases, c), Of(phases[i := p], c);
    assert forall k :: k in b <==> k == i || k in a;
    assert b == a + {i};
  }

  lemma Loses(phases: seq<Phase>, i: nat, p: Phase, c: Class)
    requires i < |phases| && In(c, phases[i]) && !In(c, p)
    ensures i in Of(phases, c) && Of(phases[i := p], c) == Of(phases, c) - {i}
    ensures |Of(phases[i := p], c)| == |Of(phases, c)| - 1
  {
    hide In;
    assert Of(phases[i := p], c) == Of(phases, c) - {i};
  }

  lemma Stays(phases: seq<Phase>, i: nat, p: Phase, c: Class)
    requires i < |phases| && In(c, phases[i]) == In(c, p)
    ensures Of(phases[i := p], c) == Of(phases, c)
  {
    hide In;
    assert Of(phases[i := p], c) == Of(phases, c);
  }

  lemma FatesStay(phases: seq<Phase>, i: nat, p: Phase)
    requires i < |phases| && FateOf(phases[i]) == FateOf(p)
    ensures forall f :: Of(phases[i := p], HasFate(f)) == Of(phases, HasFate(f))
  {
    hide Of;
    forall f: Fate ensures Of(phases[i := p], HasFate(f)) == Of(phases, HasFate(f)) {
      Stays(phases, i, p, HasFate(f));
    }
  }

  lemma FateSet(phases: seq<Phase>, i: nat, p: Phase)
    requires i < |phases| && FateOf(phases[i]).None? && FateOf(p).Some?
    ensures forall f :: f != FateOf(p).value ==> Of(phases[i := p], HasFate(f)) == Of(phases, HasFate(f))
    ensures var f := FateOf(p).value;
      Of(phases[i := p], HasFate(f)) == Of(phases, HasFate(f)) + {i} &&
      |Of(phases[i := p], HasFate(f))| == |Of(phases, HasFate(f))| + 1
  {
    hide Of;
    forall f: Fate | f != FateOf(p).value ensures Of(phases[i := p], HasFate(f)) == Of(phases, HasFate(f)) {
      Stays(phases, i, p, HasFate(f));
    }
    Gains(phases, i, p, HasFate(FateOf(p).value));
  }

  lemma LateLemma(s: State, i: nat)
    requires Inv(s) && Enabled(s, Settle(i)) && s.fatal.None?
    ensures |Of(s.phases, PastCheck) - {i}| < s.workers
  {
    assert Of(s.phases, PastCheck) - {i} <= Of(s.phases, InSlot) - {i};
    SubsetSize(Of(s.phases, PastCheck) - {i}, Of(s.phases, InSlot) - {i});
    assert i in Of(s.phases, InSlot);
  }

  lemma LaunchKeeps(s: State)
    requires Inv(s) && Enabled(s, Launch)
    ensures Inv(Apply(s, Launch))
  {
    hide Of;
    var i := s.launcher.next;
    assert s.phases[i].NotLaunched?;
    FatesStay(s.phases, i, Waiting);
    Stays(s.phases, i, Waiting, InSlot);
    Stays(s.phases, i, Waiting, PastCheck);
  }

  lemma AcquireKeeps(s: State, i: nat)
    requires Inv(s) && Enabled(s, Acquire(i))
    ensures Inv(Apply(s, Acquire(i)))
  {
    hide Of;
    FatesStay(s.phases, i, Holding);
    Gains(s.phases, i, Holding, InSlot);
    Stays(s.phases, i, Holding, PastCheck);
  }

  // Between recording the error and cancelling, apps past their check cannot settle:
  // they, the app about to check and the fatal app all still hold slots.
  lemma LateCheck(s: State, i: nat)
    requires Inv(s) && Enabled(s, Check(i)) && s.mutex.Some?
    ensures |s.late + {i}| < s.workers
  {
    var slots := Of(s.phases, InSlot);
    assert s.fatal.value in Of(s.phases, HasFate(FatalApp));
    assert s.phases[s.fatal.value].Recorded?;
    SubsetSize(s.late + {i}, slots - {s.fatal.value});
  }

  lemma CheckPasses(s: State, i: nat)
    requires Inv(s) && Enabled(s, Check(i)) && !CtxErr(s)
    ensures Inv(Apply(s, Check(i)))
  {
    hide Of;
    if s.mutex.Some? {
      LateCheck(s, i);
    }
    FatesStay(s.phases, i, Checked);
    Stays(s.phases, i, Checked, InSlot);
    Gains(s.phases, i, Checked, PastCheck);
  }

  lemma CheckSkips(s: State, i: nat)
    requires Inv(s) && Enabled(s, Check(i)) && CtxErr(s)
    ensures Inv(Apply(s, Check(i)))
  {
    hide Of;
    FateSet(s.phases, i, Settled(Skipped));
    Stays(s.phases, i, Settled(Skipped), InSlot);
    Stays(s.phases, i, Settled(Skipped), PastCheck);
  }

  lemma StartKeeps(s: State, i: nat)
    requires Inv(s) && Enabled(s, StartApp(i))
    ensures Inv(Apply(s, StartApp(i)))
  {
    hide Of;
    FatesStay(s.phases, i, Running);
    Stays(s.phases, i, Running, InSlot);
    Stays(s.phases, i, Running, PastCheck);
  }

  lemma ReturnKeeps(s: State, i: nat, o: Outcome)
    requires Inv(s) && Enabled(s, Return(i, o))
    ensures Inv(Apply(s, Return(i, o)))
  {
    hide Of;
    FatesStay(s.phases, i, Returned(o));
    Stays(s.phases, i, Returned(o), InSlot);
    Stays(s.phases, i, Returned(o), PastCheck);
  }

  lemma LauncherStays(s: State, t: State, i: nat)
    requires LauncherOk(s) && t.launcher == s.launcher && IsApp(s, i) && |t.phases| == |s.phases|
    requires t.phases == s.phases[i := t.phases[i]] && !s.phases[i].NotLaunched? && !t.phases[i].NotLaunched?
    requires CtxErr(s) ==> CtxErr(t)
    ensures LauncherOk(t)
  {}

  // How settling moves the app between classes.
  lemma SettleMoves(s: State, i: nat)
    requires Enabled(s, Settle(i))
    ensures var t := Apply(s, Settle(i)); var p := t.phases[i];
      && t.phases == s.phases[i := p] && FateOf(p).Some?
      && (forall f :: f != FateOf(p).value ==> Of(t.phases, HasFate(f)) == Of(s.phases, HasFate(f)))
      && Of(t.phases, HasFate(FateOf(p).value)) == Of(s.phases, HasFate(FateOf(p).value)) + {i}
      && Num(t, HasFate(FateOf(p).value)) == Num(s, HasFate(FateOf(p).value)) + 1
      && Of(t.phases, InSlot) == Of(s.phases, InSlot)
      && Of(t.phases, PastCheck) == Of(s.phases, PastCheck) - {i}
  {
    hide Of;
    var p := Apply(s, Settle(i)).phases[i];
    FateSet(s.phases, i, p);
    Stays(s.phases, i, p, InSlot);
    Loses(s.phases, i, p, PastCheck);
  }

  lemma SettleFatalOk(s: State, i: nat)
    requires Inv(s) && Enabled(s, Settle(i))
    ensures FatalOk(Apply(s, Settle(i)))
  {
    hide Of, LauncherOk, CountsOk, LateOk, AllOver, Num;
    SettleMoves(s, i);
  }

  lemma SettleCountsOk(s: State, i: nat)
    requires Inv(s) && Enabled(s, Settle(i))
    ensures CountsOk(Apply(s, Settle(i)))
  {
    hide Of, LauncherOk, FatalOk, LateOk, AllOver;
    SettleMoves(s, i);
  }

  // Recording the fatal error: the others past their check hold the other slots.
  lemma SettleLateOk(s: State, i: nat)
    requires Inv(s) && Enabled(s, Settle(i))
    ensures LateOk(Apply(s, Settle(i)))
  {
    hide Of, LauncherOk, CountsOk, AllOver, Num, In, FateOf;
    SettleMoves(s, i);
    if s.fatal.None? {
      LateLemma(s, i);
    }
  }

  lemma SettleKeeps(s: State, i: nat)
    requires Inv(s) && Enabled(s, Settle(i))
    ensures Inv(Apply(s, Settle(i)))
  {
    hide Of, LauncherOk, FatalOk, CountsOk, LateOk;
    SettleFatalOk(s, i);
    SettleCountsOk(s, i);
    SettleLateOk(s, i);
    LauncherStays(s, Apply(s, Settle(i)), i);
  }

  lemma CancelAppsKeeps(s: State, i: nat)
    requires Inv(s) && Enabled(s, CancelApps(i))
    ensures Inv(Apply(s, CancelApps(i)))
  {
    hide Of;
    FatesStay(s.phases, i, Settled(FatalApp));
    Stays(s.phases, i, Settled(FatalApp), InSlot);
    Stays(s.phases, i, Settled(FatalApp), PastCheck);
  }

  lemma ReleaseKeeps(s: State, i: nat)
    requires Inv(s) && Enabled(s, Release(i))
    ensures Inv(Apply(s, Release(i)))
  {
    hide Of;
    var p := Finished(s.phases[i].fate);
    FatesStay(s.phases, i, p);
    Loses(s.phases, i, p, InSlot);
    Stays(s.phases, i, p, PastCheck);
  }

  lemma StepKeepsInv(s: State, step: Step)
    requires Inv(s) && Enabled(s, step)
    ensures Inv(Apply(s, step))
  {
    match step
    case CheckLaunch =>
    case Launch => LaunchKeeps(s);
    case Acquire(i) => AcquireKeeps(s, i);
    case Check(i) =>
      if CtxErr(s) {
        CheckSkips(s, i);
      } else {
        CheckPasses(s, i);
      }
    case StartApp(i) => StartKeeps(s, i);
    case Return(i, o) => ReturnKeeps(s, i, o);
    case Settle(i) => SettleKeeps(s, i);
    case CancelApps(i) => CancelAppsKeeps(s, i);
    case Release(i) => ReleaseKeeps(s, i);
    case UserCancel =>
    case Finish =>
  }

  lemma {:induction false} RunKeepsInv(s: State, steps: seq<Step>)
    requires Inv(s) && IsRun(s, steps)
    ensures Inv(After(s, steps))
    decreases |steps|
  {
    hide Inv;
    if steps != [] {
      StepKeepsInv(s, steps[0]);
      RunKeepsInv(Apply(s, steps[0]), steps[1..]);
    }
  }

  // ---- accounting ----

  function UpTo(n: nat): (r: set<nat>)
    ensures forall k: nat :: k in r <==> k < n
    ensures |r| == n
  {
    if n == 0 then {} else UpTo(n - 1) + {n - 1}
  }

  function Everyone(s: State): set<nat> {
    UpTo(|s.phases|)
  }

  // Processed apps, the fatal one, and those given up on.
  function Accounted(s: State): nat {
    s.appsDone + (if s.fatal.Some? then 1 else 0)
    + Num(s, HasFate(Abandoned)) + Num(s, HasFate(Skipped)) + Num(s, Unlaunched)
  }

  // Once every worker is over, the apps split exactly into done, failed, the fatal
  // one, abandoned, skipped and never launched, and the counters say how many.
  lemma Accounting(s: State)
    requires Inv(s) && AllOver(s)
    ensures Everyone(s) == Of(s.phases, HasFate(Done)) + Of(s.phases, HasFate(Failed)) + Of(s.phases, HasFate(FatalApp))
      + Of(s.phases, HasFate(Abandoned)) + Of(s.phases, HasFate(Skipped)) + Of(s.phases, Unlaunched)
    ensures |s.phases| == Accounted(s)
  {
    hide LateOk, LauncherOk;
    Covered(s);
    var a, b, c := Of(s.phases, HasFate(Done)), Of(s.phases, HasFate(Failed)), Of(s.phases, HasFate(FatalApp));
    var d, e, f := Of(s.phases, HasFate(Abandoned)), Of(s.phases, HasFate(Skipped)), Of(s.phases, Unlaunched);
    Apart(s);
    SixParts(a, b, c, d, e, f);
  }

  lemma Covered(s: State)
    requires AllOver(s)
    ensures Everyone(s) == Of(s.phases, HasFate(Done)) + Of(s.phases, HasFate(Failed)) + Of(s.phases, HasFate(FatalApp))
      + Of(s.phases, HasFate(Abandoned)) + Of(s.phases, HasFate(Skipped)) + Of(s.phases, Unlaunched)
  {
    hide In;
    var all := Of(s.phases, HasFate(Done)) + Of(s.phases, HasFate(Failed)) + Of(s.phases, HasFate(FatalApp))
      + Of(s.phases, HasFate(Abandoned)) + Of(s.phases, HasFate(Skipped)) + Of(s.phases, Unlaunched);
    forall i | i in Everyone(s) ensures i in all {
      FateCases(s.phases[i]);
    }
  }

  lemma Apart(s: State)
    ensures Of(s.phases, HasFate(Done)) !! Of(s.phases, HasFate(Failed)) !! Of(s.phases, HasFate(FatalApp))
      !! Of(s.phases, HasFate(Abandoned)) !! Of(s.phases, HasFate(Skipped)) !! Of(s.phases, Unlaunched)
  {
    assert forall f, g, i :: f != g && i in Of(s.phases, HasFate(f)) ==> i !in Of(s.phases, HasFate(g));
    assert forall f, i :: i in Of(s.phases, HasFate(f)) ==> i !in Of(s.phases, Unlaunched);
  }

  lemma FateCases(p: Phase)
    requires p.NotLaunched? || p.Finished?
    ensures In(Unlaunched, p) || In(HasFate(Done), p) || In(HasFate(Failed), p) || In(HasFate(FatalApp), p)
      || In(HasFate(Abandoned), p) || In(HasFate(Skipped), p)
  {
    if p.Finished? {
      match p.fate
      case Done =>
      case Failed =>
      case FatalApp =>
      case Abandoned =>
      case Skipped =>
    }
  }

  lemma SixParts(a: set<nat>, b: set<nat>, c: set<nat>, d: set<nat>, e: set<nat>, f: set<nat>)
    requires a !! b !! c !! d !! e !! f
    ensures |a + b + c + d + e + f| == |a| + |b| + |c| + |d| + |e| + |f|
  {
    assert |a + b| == |a| + |b|;
    assert |a + b + c| == |a + b| + |c|;
    assert |a + b + c + d| == |a + b + c| + |d|;
    assert |a + b + c + d + e| == |a + b + c + d| + |e|;
  }

  // What a final status says about the apps.
  lemma StatusMeans(s: State)
    requires Inv(s) && Enabled(s, Finish)
    ensures FinalStatus(s) == Cancelled <==> s.userCancel
    ensures FinalStatus(s) == Succeeded <==>
      && !s.userCancel
      && Everyone(s) == Of(s.phases, HasFate(Done)) + Of(s.phases, HasFate(Failed))
      && (|s.phases| > 0 ==> Of(s.phases, HasFate(Done)) != {})
    ensures FinalStatus(s) == FailedRun <==>
      !s.userCancel && (Of(s.phases, HasFate(FatalApp)) != {} ||
        (|s.phases| > 0 && Everyone(s) == Of(s.phases, HasFate(Failed))))
    ensures FinalStatus(s) == Succeeded ==> s.appsDone == |s.phases| && s.fatal.None?
  {
    hide LateOk, Of;
    Accounting(s);
    Apart(s);
    var a, b := Of(s.phases, HasFate(Done)), Of(s.phases, HasFate(Failed));
    assert |a + b| == |a| + |b|;
    if !s.userCancel && s.fatal.None? {
      NoneUnlaunched(s);
      assert Everyone(s) == a + b;
      assert a == {} ==> a + b == b;
    }
    if s.fatal.Some? {
      FatalIsApart(s);
    }
  }

  lemma NoneUnlaunched(s: State)
    requires LauncherOk(s) && s.launcher.Stopped? && !CtxErr(s)
    ensures Of(s.phases, Unlaunched) == {}
  {}

  lemma FatalIsApart(s: State)
    requires FatalOk(s) && s.fatal.Some?
    ensures Everyone(s) != Of(s.phases, HasFate(Done)) + Of(s.phases, HasFate(Failed))
  {
    assert s.fatal.value in Of(s.phases, HasFate(FatalApp));
    assert s.fatal.value in Everyone(s);
  }

  // What a run recorded as succeeded has achieved.
  ghost predicate SuccessOk(s: State) {
    s.status == Some(Succeeded) ==>
      && s.appsDone == |s.phases| && s.fatal.None?
      && Everyone(s) == Of(s.phases, HasFate(Done)) + Of(s.phases, HasFate(Failed))
      && (|s.phases| > 0 ==> Of(s.phases, HasFate(Done)) != {})
  }

  // After the final status only a late cancellation can still arrive.
  lemma OnlyCancelLeft(s: State, step: Step)
    requires Inv(s) && s.status.Some? && Enabled(s, step)
    ensures step == UserCancel
  {
    hide CountsOk, LateOk, FatalOk, Of;
  }

  lemma {:induction false} RunSafety(s: State, steps: seq<Step>)
    requires Inv(s) && SuccessOk(s) && IsRun(s, steps)
    ensures Inv(After(s, steps)) && SuccessOk(After(s, steps))
    ensures After(s, steps).workers == s.workers && |After(s, steps).phases| == |s.phases|
    decreases |steps|
  {
    hide Inv, Of;
    if steps != [] {
      StepKeepsInv(s, steps[0]);
      if steps[0].Finish? {
        StatusMeans(s);
      } else if s.status.Some? {
        OnlyCancelLeft(s, steps[0]);
      }
      RunSafety(Apply(s, steps[0]), steps[1..]);
    }
  }

  // In every interleaving from the start of a run: bounded concurrency, exact
  // accounting at the end, and a success that covers every app.
  lemma EveryRun(concurrency: int, apps: nat, cancelled: bool, steps: seq<Step>)
    requires IsRun(Init(concurrency, apps, cancelled), steps)
    ensures var s := After(Init(concurrency, apps, cancelled), steps);
      && |set i: nat | i < |s.phases| && s.phases[i].Running?| <= apps
      && |set i: nat | i < |s.phases| && s.phases[i].Running?| <= (if concurrency > 1 then concurrency else 1)
      && SuccessOk(s)
      && (s.status.Some? ==> apps == Accounted(s))
  {
    hide Of, CountsOk, LateOk, FatalOk, LauncherOk;
    InitInv(concurrency, apps, cancelled);
    RunSafety(Init(concurrency, apps, cancelled), steps);
    var s := After(Init(concurrency, apps, cancelled), steps);
    InFlightBounded(s);
    RunningApps(s);
    if s.status.Some? {
      Accounting(s);
    }
  }

  lemma RunningApps(s: State)
    ensures Of(s.phases, InFlight) == set i: nat | i < |s.phases| && s.phases[i].Running?
  {}

  // ---- bounded concurrency ----

  lemma InFlightBounded(s: State)
    requires Inv(s)
    ensures Num(s, InFlight) <= s.workers
  {
    SubsetSize(Of(s.phases, InFlight), Of(s.phases, InSlot));
  }

  // Apps that start, return or settle along a run.
  ghost function Acting(steps: seq<Step>): set<nat> {
    if steps == [] then {}
    else Acting(steps[1..]) + match steps[0]
      case StartApp(i) => {i}
      case Return(i, _) => {i}
      case Settle(i) => {i}
      case _ => {}
  }

  // After the first fatal error is recorded, at most workers - 1 other apps still
  // start or finish, whatever the interleaving.
  lemma {:induction false} FewAfterFatal(s: State, steps: seq<Step>)
    requires Inv(s) && s.fatal.Some? && IsRun(s, steps)
    ensures s.late <= After(s, steps).late && Acting(steps) <= After(s, steps).late
    ensures s.fatal.value !in Acting(steps) && |Acting(steps)| < s.workers
    decreases |steps|
  {
    hide FinalStatus;
    RunKeepsInv(s, steps);
    if steps != [] {
      StepKeepsInv(s, steps[0]);
      LateGrows(s, steps[0]);
      FewAfterFatal(Apply(s, steps[0]), steps[1..]);
      SubsetSize(Acting(steps), After(s, steps).late);
      FatalStays(s, steps);
    }
  }

  lemma LateGrows(s: State, step: Step)
    requires Inv(s) && s.fatal.Some? && Enabled(s, step)
    ensures Apply(s, step).fatal == s.fatal && Apply(s, step).workers == s.workers
    ensures s.late <= Apply(s, step).late
    ensures (step.StartApp? || step.Return? || step.Settle?) ==> step.app in s.late
  {
    if step.StartApp? || step.Return? || step.Settle? {
      assert step.app in Of(s.phases, PastCheck);
    }
  }

  lemma {:induction false} FatalStays(s: State, steps: seq<Step>)
    requires Inv(s) && s.fatal.Some? && IsRun(s, steps)
    ensures After(s, steps).fatal == s.fatal && After(s, steps).workers == s.workers
    decreases |steps|
  {
    if steps != [] {
      StepKeepsInv(s, steps[0]);
      LateGrows(s, steps[0]);
      FatalStays(Apply(s, steps[0]), steps[1..]);
    }
  }

  // ---- progress ----

  function Rank(p: Phase): nat {
    match p
    case NotLaunched => 8
    case Waiting => 7
    case Holding => 6
    case Checked => 5
    case Running => 4
    case Returned(_) => 3
    case Recorded => 2
    case Settled(_) => 1
    case Finished(_) => 0
  }

  function RankSum(phases: seq<Phase>): nat {
    if phases == [] then 0 else Rank(phases[0]) + RankSum(phases[1..])
  }

  function Measure(s: State): int {
    RankSum(s.phases)
    + (match s.launcher
       case At(k) => 2 * (|s.phases| - k) + 1
       case Ready(k) => 2 * (|s.phases| - k)
       case Stopped(_) => 0)
    + (if s.userCancel then 0 else 1)
    + (if s.status.None? then 1 else 0)
  }

  lemma {:induction false} RankMoves(phases: seq<Phase>, i: nat, p: Phase)
    requires i < |phases|
    ensures RankSum(phases[i := p]) == RankSum(phases) - Rank(phases[i]) + Rank(p)
  {
    if i == 0 {
      assert phases[i := p][1..] == phases[1..];
    } else {
      RankMoves(phases[1..], i - 1, p);
      assert phases[i := p][1..] == phases[1..][i - 1 := p];
    }
  }

  lemma LaunchFirst(s: State)
    requires Inv(s)
    ensures Enabled(s, Launch) ==> s.phases[s.launcher.next].NotLaunched?
    ensures s.launcher.next <= |s.phases| && (s.launcher.Ready? ==> s.launcher.next < |s.phases|)
  {}

  predicate MovesWorker(step: Step) {
    !step.CheckLaunch? && !step.Launch? && !step.UserCancel? && !step.Finish?
  }

  lemma WorkerStep(s: State, step: Step)
    requires Enabled(s, step) && MovesWorker(step)
    ensures var t := Apply(s, step);
      && step.app < |s.phases| == |t.phases| && t.phases == s.phases[step.app := t.phases[step.app]]
      && Rank(t.phases[step.app]) < Rank(s.phases[step.app])
      && t.launcher == s.launcher && t.userCancel == s.userCancel && t.status == s.status
  {}

  lemma StepDescends(s: State, step: Step)
    requires Inv(s) && Enabled(s, step)
    ensures 0 <= Measure(Apply(s, step)) < Measure(s)
  {
    hide CountsOk, LateOk, FatalOk, RankSum, FinalStatus, Of;
    LaunchFirst(s);
    if MovesWorker(step) {
      hide Apply, Enabled, Rank;
      WorkerStep(s, step);
      RankMoves(s.phases, step.app, Apply(s, step).phases[step.app]);
    } else if step.Launch? {
      RankMoves(s.phases, s.launcher.next, Waiting);
    }
  }

  // No run is longer than its starting measure.
  lemma {:induction false} RunsAreShort(s: State, steps: seq<Step>)
    requires Inv(s) && IsRun(s, steps)
    ensures |steps| <= Measure(s) - Measure(After(s, steps)) && 0 <= Measure(After(s, steps))
    decreases |steps|
  {
    hide Inv, Measure;
    if steps == [] {
      MeasureNonNegative(s);
    } else {
      StepKeepsInv(s, steps[0]);
      StepDescends(s, steps[0]);
      RunsAreShort(Apply(s, steps[0]), steps[1..]);
    }
  }

  lemma MeasureNonNegative(s: State)
    requires Inv(s)
    ensures 0 <= Measure(s)
  {}

  // The pool never deadlocks: until the status is set, some step other than a user
  // cancellation is enabled (a running SyncApp counts as able to return).
  lemma NeverStuck(s: State) returns (step: Step)
    requires Inv(s) && s.status.None?
    ensures Enabled(s, step) && !step.UserCancel?
  {
    if s.launcher.At? {
      return CheckLaunch;
    } else if s.launcher.Ready? {
      return Launch;
    } else if AllOver(s) {
      return Finish;
    }
    var i :| 0 <= i < |s.phases| && !s.phases[i].NotLaunched? && !s.phases[i].Finished?;
    step := StepOf(s, i);
    if !Enabled(s, step) {
      if step.Settle? {
        step := CancelApps(s.mutex.value);
      } else {
        assert Of(s.phases, InSlot) != {};
        var j :| j in Of(s.phases, InSlot);
        step := StepOf(s, j);
        if !Enabled(s, step) {
          step := CancelApps(s.mutex.value);
        }
      }
    }
  }

  // The next step of app i's goroutine.
  function StepOf(s: State, i: nat): Step
    requires IsApp(s, i)
  {
    match s.phases[i]
    case Waiting => Acquire(i)
    case Holding => Check(i)
    case Checked => StartApp(i)
    case Running => Return(i, Ok)
    case Returned(_) => Settle(i)
    case Recorded => CancelApps(i)
    case Settled(_) => Release(i)
    case _ => Finish
  }
}
