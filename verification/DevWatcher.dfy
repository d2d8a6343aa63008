/** The development watcher's build queue: a run-to-completion event loop whose builds and
    app stops are await points. Each event below is one callback or one continuation. */
module DevWatcher {
  import opened Basics

  datatype Target = DaemonOnly | WholeApp

  /** Where the draining loop waits. */
  datatype Drain =
    | Idle
    | Building(target: Target, appRevision: nat, daemonRevision: nat)
    | StoppingApp(appRevision: nat)

  /** Where the top-level script waits. */
  datatype Startup = InitialBuild(appRevision: nat) | InitialStop | Watching | Exited

  /** How the last attempted app build went. */
  datatype Outcome = Pending | Succeeded | Failed

  datatype Event =
    | Change(target: Target)
    | TimerFires
    | BuildDone(ok: bool)
    | StopDone
    | InitialBuildDone(ok: bool)
    | InitialStopDone
    | AppExits
    | Cleanup

  /** The script's variables, and what happened to builds: `attempted` is the revision of the last
      app build begun, `attemptedDaemon` that of the last build of any kind, all of which build the daemon;
      `bundled` is the revision on disk, and `app` the revision launched and running. */
  datatype State = State(
    queued: Option<Target>,
    debounced: Option<Target>,
    timerArmed: bool,
    building: bool,
    stopping: bool,
    appRevision: nat,
    daemonRevision: nat,
    drain: Drain,
    startup: Startup,
    app: Option<nat>,
    attempted: nat,
    outcome: Outcome,
    bundled: nat,
    attemptedDaemon: nat)

  const START := State(None, None, false, true, false, 0, 0, Idle, InitialBuild(0), None, 0, Pending, 0, 0)

  function MergedTarget(current: Option<Target>, next: Target): Target {
    if current == Some(WholeApp) || next == WholeApp then WholeApp else DaemonOnly
  }

  predicate Enabled(s: State, e: Event) {
    && !s.startup.Exited?
    && match e
       case Change(_) => true
       case TimerFires => s.timerArmed
       case BuildDone(_) => s.drain.Building?
       case StopDone => s.drain.StoppingApp?
       case InitialBuildDone(_) => s.startup.InitialBuild?
       case InitialStopDone => s.startup.InitialStop?
       case AppExits => s.app.Some?
       case Cleanup => true
  }

  // ----- what each event leaves

  function AfterChange(s: State, target: Target): State {
    if s.stopping then s
    else s.(daemonRevision := s.daemonRevision + 1,
            appRevision := s.appRevision + if target == WholeApp then 1 else 0,
            debounced := Some(MergedTarget(s.debounced, target)),
            timerArmed := true)
  }

  /** The top of the drain's loop: take what is queued, or leave. */
  function LoopTop(s: State): State {
    if s.queued.Some? && !s.stopping then
      var target := s.queued.value;
      var next := s.(queued := None, building := true, drain := Building(target, s.appRevision, s.daemonRevision),
                     attemptedDaemon := s.daemonRevision);
      if target == WholeApp then next.(attempted := s.appRevision, outcome := Pending) else next
    else s.(drain := Idle, building := false)
  }

  function StartDrain(s: State): State {
    if s.building || s.stopping then s else LoopTop(s)
  }

  function AfterTimer(s: State): State {
    var moved := if s.debounced.Some?
      then s.(queued := Some(MergedTarget(s.queued, s.debounced.value)), debounced := None)
      else s;
    StartDrain(moved.(timerArmed := false))
  }

  /** What a finished build leaves on disk. */
  function Recorded(s: State, target: Target, revision: nat, ok: bool): State {
    if target == DaemonOnly then s
    else if ok then s.(outcome := Succeeded, bundled := revision)
    else s.(outcome := Failed)
  }

  function AfterBuild(s: State, ok: bool): State
    requires s.drain.Building?
  {
    var built := Recorded(s, s.drain.target, s.drain.appRevision, ok);
    if !ok || s.stopping || s.drain.target == DaemonOnly || s.appRevision != s.drain.appRevision then LoopTop(built)
    else built.(app := None, drain := StoppingApp(s.drain.appRevision))
  }

  function AfterStop(s: State): State {
    LoopTop(if s.stopping then s else s.(app := Some(s.bundled)))
  }

  function AfterInitialBuild(s: State, ok: bool): State
    requires s.startup.InitialBuild?
  {
    var built := Recorded(s, WholeApp, s.startup.appRevision, ok).(building := false);
    if !ok then built.(startup := Exited)
    else if s.appRevision == s.startup.appRevision then
      built.(app := None, startup := InitialStop)
    else
      var watching := built.(startup := Watching);
      if s.queued.Some? then StartDrain(watching) else watching
  }

  function AfterInitialStop(s: State): State {
    s.(app := Some(s.bundled), startup := Watching)
  }

  function AfterAppExit(s: State): State {
    if s.stopping then s else s.(app := None, stopping := true, timerArmed := false)
  }

  function AfterCleanup(s: State): State {
    if s.stopping then s else s.(app := None, stopping := true, timerArmed := false)
  }

  function After(s: State, e: Event): State
    requires Enabled(s, e)
  {
    match e
    case Change(target) => AfterChange(s, target)
    case TimerFires => AfterTimer(s)
    case BuildDone(ok) => AfterBuild(s, ok)
    case StopDone => AfterStop(s)
    case InitialBuildDone(ok) => AfterInitialBuild(s, ok)
    case InitialStopDone => AfterInitialStop(s)
    case AppExits => AfterAppExit(s)
    case Cleanup => AfterCleanup(s)
  }

  // ----- the watcher

  class Watcher {
    var queuedBuild: Option<Target>
    var debouncedBuild: Option<Target>
    var rebuildTimer: bool
    var building: bool
    var stopping: bool
    var appChangeRevision: nat
    var daemonChangeRevision: nat
    var drain: Drain
    var startup: Startup
    ghost var app: Option<nat>
    ghost var attempted: nat
    ghost var outcome: Outcome
    ghost var bundled: nat
    ghost var attemptedDaemon: nat

    ghost function View(): State
      reads this
    {
      State(queuedBuild, debouncedBuild, rebuildTimer, building, stopping, appChangeRevision, daemonChangeRevision,
            drain, startup, app, attempted, outcome, bundled, attemptedDaemon)
    }

    /** The top-level script up to its first await. */
    constructor ()
      ensures View() == START
    {
      queuedBuild, debouncedBuild, rebuildTimer := None, None, false;
      building, stopping := true, false;
      appChangeRevision, daemonChangeRevision := 0, 0;
      drain, startup := Idle, InitialBuild(0);
      app, attempted, outcome, bundled, attemptedDaemon := None, 0, Pending, 0, 0;
    }

    method ScheduleBuild(target: Target)
      requires Enabled(View(), Change(target))
      modifies this
      ensures View() == After(old(View()), Change(target))
    {
      if stopping {
        return;
      }
      daemonChangeRevision := daemonChangeRevision + 1;
      if target == WholeApp {
        appChangeRevision := appChangeRevision + 1;
      }
      debouncedBuild := Some(MergedTarget(debouncedBuild, target));
      rebuildTimer := true;
    }

    method RebuildTimerFires()
      requires Enabled(View(), TimerFires)
      modifies this
      ensures View() == After(old(View()), TimerFires)
    {
      rebuildTimer := false;
      if debouncedBuild.Some? {
        queuedBuild := Some(MergedTarget(queuedBuild, debouncedBuild.value));
        debouncedBuild := None;
      }
      DrainBuildQueue();
    }

    method DrainBuildQueue()
      modifies this
      ensures View() == StartDrain(old(View()))
    {
      if building || stopping {
        return;
      }
      building := true;
      NextBuild();
    }

    /** From the top of the loop to the next await, or out of the loop. */
    method NextBuild()
      modifies this
      ensures View() == LoopTop(old(View()))
    {
      if queuedBuild.Some? && !stopping {
        var target := queuedBuild.value;
        queuedBuild := None;
        building := true;
        drain := Building(target, appChangeRevision, daemonChangeRevision);
        attemptedDaemon := daemonChangeRevision;
        if target == WholeApp {
          attempted, outcome := appChangeRevision, Pending;
        }
      } else {
        drain := Idle;
        building := false;
      }
    }

    method BuildFinishes(ok: bool)
      requires Enabled(View(), BuildDone(ok))
      modifies this
      ensures View() == After(old(View()), BuildDone(ok))
    {
      var built := drain;
      if built.target == WholeApp {
        outcome, bundled := if ok then Succeeded else Failed, if ok then built.appRevision else bundled;
      }
      if !ok || stopping {
        NextBuild();
      } else if built.target == DaemonOnly {
        NextBuild();
      } else if appChangeRevision != built.appRevision {
        NextBuild();
      } else {
        app := None;
        drain := StoppingApp(built.appRevision);
      }
    }

    method AppStopped()
      requires Enabled(View(), StopDone)
      modifies this
      ensures View() == After(old(View()), StopDone)
    {
      if !stopping {
        app := Some(bundled);
      }
      NextBuild();
    }

    method InitialBuildFinishes(ok: bool)
      requires Enabled(View(), InitialBuildDone(ok))
      modifies this
      ensures View() == After(old(View()), InitialBuildDone(ok))
    {
      var initialAppRevision := startup.appRevision;
      outcome, bundled := if ok then Succeeded else Failed, if ok then initialAppRevision else bundled;
      building := false;
      if !ok {
        startup := Exited;
        return;
      }
      if appChangeRevision == initialAppRevision {
        app := None;
        startup := InitialStop;
      } else {
        startup := Watching;
        if queuedBuild.Some? {
          DrainBuildQueue();
        }
      }
    }

    method InitialAppStopped()
      requires Enabled(View(), InitialStopDone)
      modifies this
      ensures View() == After(old(View()), InitialStopDone)
    {
      app := Some(bundled);
      startup := Watching;
    }

    method AppExited()
      requires Enabled(View(), AppExits)
      modifies this
      ensures View() == After(old(View()), AppExits)
    {
      if stopping {
        return;
      }
      app := None;
      stopping := true;
      rebuildTimer := false;
    }

    method CleanUp()
      requires Enabled(View(), Cleanup)
      modifies this
      ensures View() == After(old(View()), Cleanup)
    {
      if stopping {
        return;
      }
      stopping := true;
      rebuildTimer := false;
      app := None;
    }
  }

  // ----- every run

  ghost predicate IsRun(states: seq<State>, events: seq<Event>) {
    && |states| == |events| + 1 && states[0] == START
    && forall i :: 0 <= i < |events| ==> Enabled(states[i], events[i]) && states[i + 1] == After(states[i], events[i])
  }

  /** An app build is on its way: debounced with the timer armed, or queued. */
  predicate AppPending(s: State) {
    (s.debounced == Some(WholeApp) && s.timerArmed) || s.queued == Some(WholeApp)
  }

  /** The queue has something in it that no drain will come for. */
  predicate QueueStranded(s: State) {
    s.queued.Some? && s.drain.Idle? && !s.startup.InitialBuild?
  }

  predicate Running(s: State) {
    !s.stopping && !s.startup.Exited?
  }

  /** One build at a time, and the flag says when. */
  predicate OneBuild(s: State) {
    && s.building == (!s.drain.Idle? || s.startup.InitialBuild?)
    && (s.startup.InitialBuild? ==> s.drain.Idle?)
  }

  predicate QueueInv(s: State) {
    && s.timerArmed == s.debounced.Some?
    && s.attempted <= s.appRevision && s.attemptedDaemon <= s.daemonRevision
    && (s.daemonRevision > s.attemptedDaemon ==> s.debounced.Some? || s.queued.Some?)
    && (s.appRevision > s.attempted ==> s.debounced == Some(WholeApp) || s.queued == Some(WholeApp))
    && (s.startup.InitialBuild? && (s.debounced == Some(WholeApp) || s.queued == Some(WholeApp)) ==>
      s.appRevision > s.attempted)
    && (s.queued == Some(WholeApp) ==> s.building)
  }

  predicate BundleInv(s: State) {
    && s.bundled <= s.attempted
    && (s.outcome.Pending? <==> s.startup.InitialBuild? || (s.drain.Building? && s.drain.target == WholeApp))
    && (s.startup.InitialBuild? ==> s.attempted == s.startup.appRevision)
    && (s.drain.Building? && s.drain.target == WholeApp ==> s.attempted == s.drain.appRevision)
    && (s.drain.StoppingApp? ==> s.outcome.Succeeded?)
    && (s.outcome.Succeeded? ==> s.bundled == s.attempted)
    && (s.app.Some? ==> s.app.value <= s.bundled)
    && (s.outcome.Succeeded? && s.attempted == s.appRevision ==>
          s.drain.StoppingApp? || s.startup.InitialStop? || s.app == Some(s.attempted))
    && (s.outcome.Succeeded? && s.attempted == s.appRevision && s.app.Some? ==> s.app.value == s.attempted)
  }

  predicate Inv(s: State) {
    OneBuild(s) && (Running(s) ==> QueueInv(s) && BundleInv(s))
  }

  lemma StepKeepsOneBuild(s: State, e: Event)
    requires Enabled(s, e) && OneBuild(s)
    ensures OneBuild(After(s, e))
  {
  }

  predicate Holds(s: State) {
    OneBuild(s) && QueueInv(s) && BundleInv(s)
  }

  lemma BuildKeepsHolding(s: State, ok: bool)
    requires s.drain.Building? && Running(s) && Holds(s)
    ensures QueueInv(AfterBuild(s, ok)) && BundleInv(AfterBuild(s, ok))
  {
    BuildKeepsQueueInv(s, ok);
    hide QueueInv;
    if s.drain.target == WholeApp && ok && s.appRevision == s.drain.appRevision {
    } else {
      BuildKeepsBundleInv(s, ok);
    }
  }

  lemma BuildKeepsQueueInv(s: State, ok: bool)
    requires s.drain.Building? && Running(s) && Holds(s)
    ensures QueueInv(AfterBuild(s, ok))
  {
    hide BundleInv;
  }

  /** A build that is not followed by a launch. */
  lemma BuildKeepsBundleInv(s: State, ok: bool)
    requires s.drain.Building? && Running(s) && Holds(s)
    requires !(s.drain.target == WholeApp && ok && s.appRevision == s.drain.appRevision)
    ensures BundleInv(AfterBuild(s, ok))
  {
  }

  lemma TimerKeepsHolding(s: State)
    requires s.timerArmed && Running(s) && Holds(s)
    ensures Running(AfterTimer(s)) ==> QueueInv(AfterTimer(s))
    ensures Running(AfterTimer(s)) ==> BundleInv(AfterTimer(s))
  {
  }

  lemma StopKeepsHolding(s: State)
    requires s.drain.StoppingApp? && Running(s) && Holds(s)
    ensures Running(AfterStop(s)) ==> QueueInv(AfterStop(s))
    ensures Running(AfterStop(s)) ==> BundleInv(AfterStop(s))
  {
  }

  lemma InitialKeepsHolding(s: State, ok: bool)
    requires s.startup.InitialBuild? && Running(s) && Holds(s)
    ensures Running(AfterInitialBuild(s, ok)) ==> QueueInv(AfterInitialBuild(s, ok))
    ensures Running(AfterInitialBuild(s, ok)) ==> BundleInv(AfterInitialBuild(s, ok))
  {
  }

  lemma StepKeepsHolding(s: State, e: Event)
    requires Enabled(s, e) && Running(s) && Holds(s) && Running(After(s, e))
    ensures QueueInv(After(s, e)) && BundleInv(After(s, e))
  {
    hide LoopTop, StartDrain, AfterTimer, AfterBuild, AfterStop, AfterInitialBuild;
    match e
    case BuildDone(ok) => BuildKeepsHolding(s, ok);
    case TimerFires => TimerKeepsHolding(s);
    case StopDone => StopKeepsHolding(s);
    case InitialBuildDone(ok) => InitialKeepsHolding(s, ok);
    case _ =>
  }

  lemma OnceStopped(s: State, e: Event)
    requires Enabled(s, e) && Running(After(s, e))
    ensures Running(s)
  {
  }

  lemma {:induction false} RunsKeepInv(states: seq<State>, events: seq<Event>, i: nat)
    requires IsRun(states, events) && i < |states|
    ensures Inv(states[i])
    decreases i
  {
    hide OneBuild, QueueInv, BundleInv, After, Enabled, Running;
    if i == 0 {
      StartsWell();
    } else {
      var s, e := states[i - 1], events[i - 1];
      RunsKeepInv(states, events, i - 1);
      StepKeepsInv(s, e);
    }
  }

  lemma StartsWell()
    ensures Inv(START)
  {
  }

  lemma StepKeepsInv(s: State, e: Event)
    requires Enabled(s, e) && Inv(s)
    ensures Inv(After(s, e))
  {
    hide OneBuild, QueueInv, BundleInv, After, Enabled;
    StepKeepsOneBuild(s, e);
    if Running(After(s, e)) {
      OnceStopped(s, e);
      StepKeepsHolding(s, e);
    }
  }

  /** While the watcher runs, an app change newer than the last attempted app build is always on its
      way; a queued app build always has a drain or the startup build ahead of it; and builds never
      overlap. */
  lemma NoAppChangeIsLost(states: seq<State>, events: seq<Event>, i: nat)
    requires IsRun(states, events) && i < |states| && Running(states[i])
    ensures states[i].appRevision > states[i].attempted ==> AppPending(states[i])
    ensures states[i].queued == Some(WholeApp) ==> !states[i].drain.Idle? || states[i].startup.InitialBuild?
    ensures !(states[i].startup.InitialBuild? && states[i].drain.Building?)
  {
    RunsKeepInv(states, events, i);
  }

  /** And so is a daemon change newer than the last attempted build: debounced with the timer armed, or queued. */
  lemma NoDaemonChangeIsLost(states: seq<State>, events: seq<Event>, i: nat)
    requires IsRun(states, events) && i < |states| && Running(states[i])
    ensures states[i].daemonRevision > states[i].attemptedDaemon ==>
      (states[i].debounced.Some? && states[i].timerArmed) || states[i].queued.Some?
  {
    RunsKeepInv(states, events, i);
  }

  // ----- every change is built

  /** A build of `built` takes in a change of `target`. */
  predicate Covers(built: Target, target: Target) {
    built == WholeApp || target == DaemonOnly
  }

  predicate PendingFor(s: State, target: Target) {
    || (s.debounced.Some? && s.timerArmed && Covers(s.debounced.value, target))
    || (s.queued.Some? && Covers(s.queued.value, target))
  }

  /** A build begins: with an idle drain, or with the next one of a busy drain. */
  predicate Begins(s: State, e: Event)
    requires Enabled(s, e)
  {
    After(s, e).drain.Building? && (s.drain.Building? ==> e.BuildDone?)
  }

  ghost predicate BuiltSince(states: seq<State>, events: seq<Event>, k: nat, n: nat, target: Target)
    requires IsRun(states, events) && k <= n <= |events|
  {
    exists m :: k <= m < n && Begins(states[m], events[m]) && Covers(states[m + 1].drain.target, target)
  }

  lemma ChangeStaysPending(s: State, e: Event, target: Target)
    requires Enabled(s, e) && OneBuild(s) && Running(After(s, e)) && PendingFor(s, target)
    ensures PendingFor(After(s, e), target) || (Begins(s, e) && Covers(After(s, e).drain.target, target))
  {
    OnceStopped(s, e);
    hide LoopTop;
    match e
    case TimerFires =>
      var moved := if s.debounced.Some?
        then s.(queued := Some(MergedTarget(s.queued, s.debounced.value)), debounced := None)
        else s;
      LoopServes(moved.(timerArmed := false), target);
    case BuildDone(ok) =>
      LoopServes(Recorded(s, s.drain.target, s.drain.appRevision, ok), target);
    case StopDone =>
      LoopServes(s.(app := Some(s.bundled)), target);
    case InitialBuildDone(ok) =>
      LoopServes(Recorded(s, WholeApp, s.startup.appRevision, ok).(building := false, startup := Watching), target);
    case _ =>
  }

  /** The loop leaves a change pending, or begins its build. */
  lemma LoopServes(s: State, target: Target)
    requires !s.stopping && PendingFor(s, target)
    ensures var next := LoopTop(s);
      PendingFor(next, target) || (next.drain.Building? && Covers(next.drain.target, target))
  {
  }

  /** In every run that is not stopping, each change has been followed by the beginning of a build that takes it
      in, or such a build is on its way. */
  lemma {:induction false} EveryChangeIsBuilt(states: seq<State>, events: seq<Event>, k: nat, n: nat)
    requires IsRun(states, events) && k < n <= |events| && events[k].Change? && Running(states[n])
    ensures BuiltSince(states, events, k + 1, n, events[k].target) || PendingFor(states[n], events[k].target)
    decreases n
  {
    hide After, Running, PendingFor, Covers, Inv, BuiltSince, Begins, Enabled;
    var target := events[k].target;
    if n == k + 1 {
      ChangePends(states[k], target);
    } else {
      var s, e := states[n - 1], events[n - 1];
      OnceStopped(s, e);
      RunsKeepInv(states, events, n - 1);
      InvIsOneBuild(s);
      EveryChangeIsBuilt(states, events, k, n - 1);
      BuiltStill(states, events, k + 1, n, target);
      if PendingFor(s, target) {
        ChangeStaysPending(s, e, target);
      }
    }
  }

  lemma InvIsOneBuild(s: State)
    requires Inv(s)
    ensures OneBuild(s)
  {
  }

  lemma BuiltStill(states: seq<State>, events: seq<Event>, k: nat, n: nat, target: Target)
    requires IsRun(states, events) && k < n <= |events|
    ensures BuiltSince(states, events, k, n - 1, target) ==> BuiltSince(states, events, k, n, target)
    ensures Begins(states[n - 1], events[n - 1]) && Covers(states[n].drain.target, target) ==>
      BuiltSince(states, events, k, n, target)
  {
    hide Enabled, After, Covers;
    if BuiltSince(states, events, k, n - 1, target) {
      var m :| k <= m < n - 1 && Begins(states[m], events[m]) && Covers(states[m + 1].drain.target, target);
      assert k <= m < n;
    }
  }

  lemma ChangePends(s: State, target: Target)
    requires Enabled(s, Change(target)) && Running(After(s, Change(target)))
    ensures PendingFor(After(s, Change(target)), target)
  {
  }

  /** What was queued leaves the queue only as a build that takes it in. */
  lemma QueueEmptiedByBuild(states: seq<State>, events: seq<Event>, n: nat)
    requires IsRun(states, events) && n < |events| && states[n].queued.Some? && states[n + 1].queued.None?
    ensures Begins(states[n], events[n])
    ensures var target := states[n + 1].drain.target;
      && Covers(target, states[n].queued.value)
      && (target == states[n].queued.value || (events[n].TimerFires? && states[n].debounced == Some(target)))
  {
    RunsKeepInv(states, events, n);
    InvIsOneBuild(states[n]);
    hide Inv;
    EmptiedByBuild(states[n], events[n]);
  }

  lemma EmptiedByBuild(s: State, e: Event)
    requires Enabled(s, e) && OneBuild(s) && s.queued.Some? && After(s, e).queued.None?
    ensures Begins(s, e)
    ensures var target := After(s, e).drain.target;
      && Covers(target, s.queued.value)
      && (target == s.queued.value || (e.TimerFires? && s.debounced == Some(target)))
  {
  }

  /** And a build begins only with what was queued or debounced, at the revisions of that moment, and never
      while stopping. */
  lemma BuildsAreAskedFor(states: seq<State>, events: seq<Event>, n: nat)
    requires IsRun(states, events) && n < |events| && Begins(states[n], events[n])
    ensures !states[n].stopping
    ensures var next := states[n + 1];
      && next.drain == Building(next.drain.target, next.appRevision, next.daemonRevision)
      && (Some(next.drain.target) == states[n].queued
          || (events[n].TimerFires? && Some(next.drain.target) == states[n].debounced))
  {
    BegunByLoop(states[n], events[n]);
  }

  lemma BegunByLoop(s: State, e: Event)
    requires Enabled(s, e) && Begins(s, e)
    ensures !s.stopping
    ensures var next := After(s, e);
      && next.drain == Building(next.drain.target, next.appRevision, next.daemonRevision)
      && (Some(next.drain.target) == s.queued || (e.TimerFires? && Some(next.drain.target) == s.debounced))
  {
    hide LoopTop;
    match e
    case TimerFires =>
      var moved := if s.debounced.Some?
        then s.(queued := Some(MergedTarget(s.queued, s.debounced.value)), debounced := None)
        else s;
      LoopBegins(moved.(timerArmed := false));
    case BuildDone(ok) => LoopBegins(Recorded(s, s.drain.target, s.drain.appRevision, ok));
    case StopDone => LoopBegins(if s.stopping then s else s.(app := Some(s.bundled)));
    case InitialBuildDone(ok) =>
      LoopBegins(Recorded(s, WholeApp, s.startup.appRevision, ok).(building := false, startup := Watching));
    case _ =>
  }

  lemma LoopBegins(s: State)
    ensures var next := LoopTop(s);
      && next.appRevision == s.appRevision && next.daemonRevision == s.daemonRevision
      && (next.drain.Building? ==>
            !s.stopping && s.queued.Some? && next.drain == Building(s.queued.value, s.appRevision, s.daemonRevision))
  {
  }

  // ----- when the drain relaunches

  /** The build that began with event `k` is under way before event `n`. */
  ghost predicate UnderWay(states: seq<State>, events: seq<Event>, k: nat, n: nat)
    requires IsRun(states, events)
  {
    k < n <= |events| && Begins(states[k], events[k]) && forall m :: k < m < n ==> !events[m].BuildDone?
  }

  lemma {:induction false} SinceBegun(states: seq<State>, events: seq<Event>, k: nat, n: nat)
    requires IsRun(states, events) && UnderWay(states, events, k, n) && !states[n].stopping
    ensures states[n].drain == states[k + 1].drain && states[n].drain.Building?
    ensures states[n].drain.appRevision <= states[n].appRevision
    ensures states[n].drain.appRevision == states[n].appRevision <==> Change(WholeApp) !in events[k + 1..n]
    decreases n
  {
    hide After, Enabled, OneBuild, Inv, Begins;
    if n == k + 1 {
      BuildsAreAskedFor(states, events, k);
    } else {
      RunsKeepInv(states, events, n - 1);
      InvIsOneBuild(states[n - 1]);
      StopOrExit(states[n - 1], events[n - 1]);
      SinceBegun(states, events, k, n - 1);
      OneMoreEvent(states[n - 1], events[n - 1]);
      assert events[k + 1..n] == events[k + 1..n - 1] + [events[n - 1]];
    }
  }

  lemma OneMoreEvent(s: State, e: Event)
    requires Enabled(s, e) && OneBuild(s) && s.drain.Building? && !e.BuildDone? && !After(s, e).stopping
    ensures !s.stopping && After(s, e).drain == s.drain
    ensures After(s, e).appRevision == s.appRevision + if e == Change(WholeApp) then 1 else 0
  {
  }

  /** In every run the drain stops the app, to launch the new one, exactly after an app build that succeeded and
      since whose beginning no app change arrived. */
  lemma RelaunchesExactlyWhenCurrent(states: seq<State>, events: seq<Event>, k: nat, n: nat)
    requires IsRun(states, events) && UnderWay(states, events, k, n) && n < |events| && events[n].BuildDone?
    requires !states[n].stopping
    ensures states[n + 1].drain.StoppingApp? <==>
      events[n].ok && states[k + 1].drain.target == WholeApp && Change(WholeApp) !in events[k + 1..n]
  {
    SinceBegun(states, events, k, n);
  }

  // ----- how a run ends

  /** Stopping is what an interrupt or the app's exit brings about, and startup gives up exactly when the initial
      build fails. */
  lemma {:induction false} StopsAndExits(states: seq<State>, events: seq<Event>, n: nat)
    requires IsRun(states, events) && n <= |events|
    ensures states[n].stopping <==> Cleanup in events[..n] || AppExits in events[..n]
    ensures states[n].startup.Exited? <==> InitialBuildDone(false) in events[..n]
    ensures states[n].stopping ==> !states[n].timerArmed
    decreases n
  {
    if n > 0 {
      StopsAndExits(states, events, n - 1);
      assert events[..n] == events[..n - 1] + [events[n - 1]];
      StopOrExit(states[n - 1], events[n - 1]);
    }
  }

  lemma StopOrExit(s: State, e: Event)
    requires Enabled(s, e)
    ensures After(s, e).stopping <==> s.stopping || e.Cleanup? || e.AppExits?
    ensures After(s, e).startup.Exited? <==> e == InitialBuildDone(false)
    ensures After(s, e).timerArmed ==> s.timerArmed || (e.Change? && !s.stopping)
    ensures (e.Cleanup? || e.AppExits?) && !s.stopping ==> !After(s, e).timerArmed
  {
    hide LoopTop;
    LoopKeepsRest(s.(app := Some(s.bundled)));
    LoopKeepsRest(s);
    match e
    case TimerFires =>
      var moved := if s.debounced.Some?
        then s.(queued := Some(MergedTarget(s.queued, s.debounced.value)), debounced := None)
        else s;
      LoopKeepsRest(moved.(timerArmed := false));
    case BuildDone(ok) =>
      LoopKeepsRest(Recorded(s, s.drain.target, s.drain.appRevision, ok));
    case InitialBuildDone(ok) =>
      LoopKeepsRest(Recorded(s, WholeApp, s.startup.appRevision, ok).(building := false, startup := Watching));
    case _ =>
  }

  lemma LoopKeepsRest(s: State)
    ensures var next := LoopTop(s);
      next.stopping == s.stopping && next.startup == s.startup && next.timerArmed == s.timerArmed
  {
  }

  /** A stale app is running only if a newer app build is pending, or the newest revision's build is
      in progress or failed. */
  lemma StaleOnlyIfPending(states: seq<State>, events: seq<Event>, i: nat)
    requires IsRun(states, events) && i < |states| && Running(states[i])
    requires states[i].app.Some? && states[i].app.value != states[i].appRevision
    ensures states[i].app.value < states[i].appRevision
    ensures AppPending(states[i]) || (states[i].attempted == states[i].appRevision && !states[i].outcome.Succeeded?)
  {
    RunsKeepInv(states, events, i);
  }

  /** In no run is an app build downgraded: it stays debounced or queued until a drain takes it whole. */
  lemma NeverDowngraded(states: seq<State>, events: seq<Event>, i: nat)
    requires IsRun(states, events) && i < |events| && Running(states[i + 1])
    ensures states[i].queued == Some(WholeApp) ==> states[i + 1].queued == Some(WholeApp) || BuildingApp(states[i + 1])
    ensures states[i].debounced == Some(WholeApp) ==>
      || states[i + 1].debounced == Some(WholeApp) || states[i + 1].queued == Some(WholeApp)
      || BuildingApp(states[i + 1])
  {
    RunsKeepInv(states, events, i);
    OnceStopped(states[i], events[i]);
    StaysWhole(states[i], events[i]);
  }

  predicate BuildingApp(s: State) {
    s.drain.Building? && s.drain.target == WholeApp
  }

  lemma StaysWhole(s: State, e: Event)
    requires Enabled(s, e) && Inv(s) && Running(s) && Running(After(s, e))
    ensures s.queued == Some(WholeApp) ==> After(s, e).queued == Some(WholeApp) || BuildingApp(After(s, e))
    ensures s.debounced == Some(WholeApp) ==>
      After(s, e).debounced == Some(WholeApp) || After(s, e).queued == Some(WholeApp) || BuildingApp(After(s, e))
  {
  }

  // ----- the hand-off from startup

  /** A queue is stranded exactly when the initial build handed over with something queued and
      launched, and no rebuild timer fired since; what is stranded is never an app build. */
  lemma {:induction false} StrandedOnlyAtHandOff(states: seq<State>, events: seq<Event>, i: nat)
    requires IsRun(states, events) && i < |states| && Running(states[i])
    ensures QueueStranded(states[i]) <==> exists k :: StrandsAt(states, events, k, i)
    ensures QueueStranded(states[i]) ==> states[i].queued == Some(DaemonOnly)
    decreases i
  {
    hide After, Enabled, Inv, StrandsAt, QueueStranded, Running;
    RunsKeepInv(states, events, i);
    if QueueStranded(states[i]) {
      StrandedIsDaemon(states[i]);
    }
    if i == 0 {
      StartNotStranded(states, events);
    } else {
      var s, e, next := states[i - 1], events[i - 1], states[i];
      RunsKeepInv(states, events, i - 1);
      OnceStopped(s, e);
      StrandedOnlyAtHandOff(states, events, i - 1);
      StrandedStep(s, e);
      if Strands(s, e) {
        StrandsNow(states, events, i);
      } else {
        forall k ensures StrandsAt(states, events, k, i) <==> StrandsAt(states, events, k, i - 1) && !e.TimerFires? {
          StrandsStill(states, events, k, i);
        }
        if QueueStranded(next) {
          var k :| StrandsAt(states, events, k, i - 1);
          assert StrandsAt(states, events, k, i);
        }
      }
    }
  }

  /** The hand-off that launches and forgets the queue. */
  predicate Strands(s: State, e: Event) {
    && e.InitialBuildDone? && e.ok && s.startup.InitialBuild?
    && s.appRevision == s.startup.appRevision && s.queued.Some?
  }

  ghost predicate StrandsAt(states: seq<State>, events: seq<Event>, k: int, i: nat) {
    && 0 <= k < i <= |events| && k < |states| && Strands(states[k], events[k])
    && forall m :: k < m < i ==> !events[m].TimerFires?
  }

  lemma StrandedStep(s: State, e: Event)
    requires Enabled(s, e) && Inv(s) && Running(s) && Inv(After(s, e)) && Running(After(s, e))
    ensures QueueStranded(After(s, e)) <==> Strands(s, e) || (QueueStranded(s) && !e.TimerFires?)
  {
  }

  lemma StrandedIsDaemon(s: State)
    requires Inv(s) && Running(s) && QueueStranded(s)
    ensures s.queued == Some(DaemonOnly)
  {
    assert s.queued.value != WholeApp;
  }

  lemma StartNotStranded(states: seq<State>, events: seq<Event>)
    ensures !QueueStranded(START) && forall k :: !StrandsAt(states, events, k, 0)
  {
  }

  lemma StrandsNow(states: seq<State>, events: seq<Event>, i: nat)
    requires 0 < i <= |events| && i <= |states| && Strands(states[i - 1], events[i - 1])
    ensures StrandsAt(states, events, i - 1, i)
  {
  }

  lemma StrandsStill(states: seq<State>, events: seq<Event>, k: int, i: nat)
    requires 0 < i <= |events| && i <= |states| && !Strands(states[i - 1], events[i - 1])
    ensures StrandsAt(states, events, k, i) <==> StrandsAt(states, events, k, i - 1) && !events[i - 1].TimerFires?
  {
  }

  /** Such a run: a daemon change during the initial build is left queued with nothing to build it. */
  lemma DaemonChangeStranded()
    ensures exists states: seq<State>, events: seq<Event> ::
      && IsRun(states, events) && Running(states[|events|]) && QueueStranded(states[|events|])
      && !states[|events|].timerArmed && states[|events|].startup.Watching?
  {
    var events := [Change(DaemonOnly), TimerFires, InitialBuildDone(true), InitialStopDone];
    var s1 := After(START, events[0]);
    var s2 := After(s1, events[1]);
    var s3 := After(s2, events[2]);
    var s4 := After(s3, events[3]);
    var states := [START, s1, s2, s3, s4];
    assert IsRun(states, events);
    assert QueueStranded(states[|events|]);
  }

  // ----- a launch while stopping

  /** The hand-off does not look at the stop flag: what, seen at the moment of stopping and with the
      events since, lets it launch. */
  predicate HandsOff(s: State, since: seq<Event>) {
    || s.startup.InitialStop?
    || (s.startup.InitialBuild? && s.appRevision == s.startup.appRevision && InitialBuildDone(true) in since)
  }

  /** How startup goes on after stopping began at `s`. */
  ghost predicate GoesOn(s: State, since: seq<Event>, now: State) {
    && now.stopping && now.appRevision == s.appRevision
    && (now.app.Some? <==> InitialStopDone in since)
    && (InitialStopDone in since ==> HandsOff(s, since))
    && (now.startup.InitialStop? <==> HandsOff(s, since) && InitialStopDone !in since)
    && (now.startup.InitialBuild? ==> now.startup == s.startup && InitialBuildDone(true) !in since)
  }

  lemma StoppingBegins(s: State, e: Event)
    requires Enabled(s, e) && !s.stopping && After(s, e).stopping
    ensures GoesOn(s, [], After(s, e))
  {
    assert e.AppExits? || e.Cleanup?;
  }

  lemma GoesOnStep(s: State, since: seq<Event>, now: State, e: Event)
    requires GoesOn(s, since, now) && Enabled(now, e)
    ensures GoesOn(s, since + [e], After(now, e))
  {
    forall done: Event ensures done in since + [e] <==> done in since || done == e {
    }
  }

  lemma {:induction false} StoppingGoesOn(states: seq<State>, events: seq<Event>, k: nat, n: nat)
    requires IsRun(states, events) && k < n <= |events|
    requires !states[k].stopping && states[k + 1].stopping
    ensures GoesOn(states[k], events[k + 1..n], states[n])
    decreases n
  {
    hide After, Enabled, GoesOn, HandsOff;
    if n == k + 1 {
      assert events[k + 1..n] == [];
      StoppingBegins(states[k], events[k]);
    } else {
      StoppingGoesOn(states, events, k, n - 1);
      GoesOnStep(states[k], events[k + 1..n - 1], states[n - 1], events[n - 1]);
      assert events[k + 1..n] == events[k + 1..n - 1] + [events[n - 1]];
    }
  }

  /** In every run, an app is launched after stopping began exactly when startup was then waiting for
      the old app to stop, or was building and that build succeeded with no app change since it
      began, and the wait for the old app is over. */
  lemma LaunchesWhileStopping(states: seq<State>, events: seq<Event>, k: nat, n: nat)
    requires IsRun(states, events) && k < n <= |events|
    requires !states[k].stopping && states[k + 1].stopping
    ensures states[n].app.Some? <==> HandsOff(states[k], events[k + 1..n]) && InitialStopDone in events[k + 1..n]
    ensures states[n].startup.Watching? ==> (states[n].app.Some? <==> HandsOff(states[k], events[k + 1..n]))
  {
    StoppingGoesOn(states, events, k, n);
  }

  /** Such a run: stopped during the initial build, and an app is running at its end. */
  lemma LaunchedWhileStopping()
    ensures exists states: seq<State>, events: seq<Event> ::
      && IsRun(states, events) && states[|events|].stopping && states[|events|].app.Some?
      && forall e :: Completes(e) ==> !Enabled(states[|events|], e)
  {
    var events := [Cleanup, InitialBuildDone(true), InitialStopDone];
    var s1 := After(START, events[0]);
    var s2 := After(s1, events[1]);
    var s3 := After(s2, events[2]);
    var states := [START, s1, s2, s3];
    assert IsRun(states, events);
  }

  // ----- a launch over a running app

  /** The two launches: startup's, and the drain's, which looks at the stop flag. */
  predicate Launches(s: State, e: Event) {
    e.InitialStopDone? || (e.StopDone? && !s.stopping)
  }

  /** What takes the app away: a wait for the old app begins, or the watcher stops. */
  predicate TakesApp(s: State, e: Event)
    requires Enabled(s, e)
  {
    || (e.BuildDone? && After(s, e).drain.StoppingApp?)
    || (e.InitialBuildDone? && After(s, e).startup.InitialStop?)
    || ((e.AppExits? || e.Cleanup?) && !s.stopping)
  }

  /** The app launched by event `k` is still there before event `n`. */
  ghost predicate LaunchedBy(states: seq<State>, events: seq<Event>, k: nat, n: nat)
    requires IsRun(states, events)
  {
    && k < n <= |events| && Launches(states[k], events[k])
    && forall m :: k < m < n ==> !TakesApp(states[m], events[m])
  }

  /** How far each side has come since the launch at `s`. */
  ghost predicate SinceLaunch(s: State, e: Event, now: State) {
    && (e.StopDone? ==> !now.drain.StoppingApp?)
    && (e.InitialStopDone? ==> now.startup.Watching?)
    && (now.drain.StoppingApp? ==> s.drain.StoppingApp?)
    && (now.startup.InitialStop? ==> s.startup.InitialStop?)
  }

  lemma LaunchBegins(s: State, e: Event)
    requires Enabled(s, e) && Launches(s, e)
    ensures SinceLaunch(s, e, After(s, e))
  {
  }

  lemma LaunchGoesOn(s: State, e: Event, now: State, step: Event)
    requires Enabled(now, step) && SinceLaunch(s, e, now) && !TakesApp(now, step)
    ensures SinceLaunch(s, e, After(now, step))
  {
  }

  lemma {:induction false} SinceItsLaunch(states: seq<State>, events: seq<Event>, k: nat, n: nat)
    requires IsRun(states, events) && LaunchedBy(states, events, k, n)
    ensures SinceLaunch(states[k], events[k], states[n])
    decreases n
  {
    hide After, Enabled, SinceLaunch, TakesApp, Launches;
    if n == k + 1 {
      LaunchBegins(states[k], events[k]);
    } else {
      SinceItsLaunch(states, events, k, n - 1);
      LaunchGoesOn(states[k], events[k], states[n - 1], events[n - 1]);
    }
  }

  lemma AppStep(s: State, e: Event)
    requires Enabled(s, e)
    ensures After(s, e).app.Some? <==> Launches(s, e) || (s.app.Some? && !TakesApp(s, e))
  {
    hide LoopTop, AfterTimer, AfterBuild, AfterInitialBuild;
    match e
    case TimerFires => AppAfterTimer(s);
    case BuildDone(ok) => AppAfterBuild(s, ok);
    case StopDone => LoopKeepsApp(if s.stopping then s else s.(app := Some(s.bundled)));
    case InitialBuildDone(ok) => AppAfterInitialBuild(s, ok);
    case _ =>
  }

  lemma AppAfterTimer(s: State)
    ensures AfterTimer(s).app == s.app
  {
  }

  lemma AppAfterBuild(s: State, ok: bool)
    requires s.drain.Building?
    ensures var next := AfterBuild(s, ok); next.app == if next.drain.StoppingApp? then None else s.app
  {
    hide LoopTop;
    LoopKeepsApp(Recorded(s, s.drain.target, s.drain.appRevision, ok));
  }

  lemma AppAfterInitialBuild(s: State, ok: bool)
    requires s.startup.InitialBuild?
    ensures var next := AfterInitialBuild(s, ok); next.app == if next.startup.InitialStop? then None else s.app
  {
    hide LoopTop;
    LoopKeepsApp(Recorded(s, WholeApp, s.startup.appRevision, ok).(building := false, startup := Watching));
  }

  lemma LoopKeepsApp(s: State)
    ensures LoopTop(s).app == s.app && LoopTop(s).startup == s.startup && !LoopTop(s).drain.StoppingApp?
  {
  }

  /** An app runs exactly when one was launched and nothing has taken it away. */
  lemma {:induction false} RunsSinceLaunch(states: seq<State>, events: seq<Event>, n: nat)
    requires IsRun(states, events) && n <= |events|
    ensures states[n].app.Some? <==> exists k: nat :: LaunchedBy(states, events, k, n)
    decreases n
  {
    hide After, Enabled, TakesApp, Launches;
    if n == 0 {
    } else {
      var m := n - 1;
      RunsSinceLaunch(states, events, m);
      AppStep(states[m], events[m]);
      forall k: nat | k < m ensures LaunchedBy(states, events, k, n)
                              <==> LaunchedBy(states, events, k, m) && !TakesApp(states[m], events[m]) {
      }
      if Launches(states[m], events[m]) {
        assert LaunchedBy(states, events, m, n);
      } else if states[m].app.Some? && !TakesApp(states[m], events[m]) {
        var k: nat :| LaunchedBy(states, events, k, m);
        assert LaunchedBy(states, events, k, n);
      }
    }
  }

  /** Startup and the drain were both waiting for the old app to stop, and `first` ended one of the waits. */
  predicate WaitsOverlap(s: State, first: Event, second: Event) {
    && s.startup.InitialStop? && s.drain.StoppingApp?
    && ((first.InitialStopDone? && second.StopDone?) || (first.StopDone? && second.InitialStopDone?))
  }

  /** In every run, a launch meets a running app exactly when it is the later of two launches that waited for
      the same old app, and what the first launched has not been taken away in between. */
  lemma LaunchMeetsApp(states: seq<State>, events: seq<Event>, j: nat)
    requires IsRun(states, events) && j < |events| && Launches(states[j], events[j])
    ensures states[j].app.Some? <==>
      exists k: nat :: LaunchedBy(states, events, k, j) && WaitsOverlap(states[k], events[k], events[j])
  {
    RunsSinceLaunch(states, events, j);
    hide TakesApp, After;
    if states[j].app.Some? {
      var k: nat :| LaunchedBy(states, events, k, j);
      SinceItsLaunch(states, events, k, j);
      assert Enabled(states[j], events[j]) && Enabled(states[k], events[k]);
      assert WaitsOverlap(states[k], events[k], events[j]);
    }
  }

  /** Such a run: an app change right after the initial build is rebuilt while startup still waits. */
  lemma LaunchedTwice()
    ensures exists states: seq<State>, events: seq<Event> ::
      && IsRun(states, events) && events != [] && events[|events| - 1] == InitialStopDone
      && states[|events| - 1].app.Some? && !states[|events| - 1].stopping
  {
    var events := [InitialBuildDone(true), Change(WholeApp), TimerFires, BuildDone(true), StopDone, InitialStopDone];
    var s1 := After(START, events[0]);
    var s2 := After(s1, events[1]);
    var s3 := After(s2, events[2]);
    var s4 := After(s3, events[3]);
    var s5 := After(s4, events[4]);
    var s6 := After(s5, events[5]);
    var states := [START, s1, s2, s3, s4, s5, s6];
    assert s2.timerArmed && s4.drain.StoppingApp? && s5.startup.InitialStop? && s5.app.Some? && !s5.stopping;
    hide After;
    assert IsRun(states, events);
  }

  // ----- every run settles

  /** Continuations and timers, as opposed to edits and stops. */
  predicate Completes(e: Event) {
    e.TimerFires? || e.BuildDone? || e.StopDone? || e.InitialBuildDone? || e.InitialStopDone?
  }

  function Work(s: State): nat {
    (if s.timerArmed then 6 else 0) + (if s.queued.Some? then 3 else 0)
    + (if s.drain.Idle? then 0 else if s.drain.StoppingApp? then 1 else 2)
    + (if s.startup.InitialBuild? then 2 else if s.startup.InitialStop? then 1 else 0)
  }

  lemma CompletionIsProgress(s: State, e: Event)
    requires Enabled(s, e) && OneBuild(s) && Completes(e)
    ensures Work(After(s, e)) < Work(s)
  {
  }

  /** With no more edits, only boundedly many completions can follow. */
  lemma {:induction false} Settles(states: seq<State>, events: seq<Event>, first: nat, last: nat)
    requires IsRun(states, events) && first <= last <= |events|
    requires forall i :: first <= i < last ==> Completes(events[i])
    ensures last - first <= Work(states[first]) - Work(states[last])
    decreases last
  {
    hide After, Enabled, OneBuild, Work, Completes;
    if first < last {
      RunsKeepInv(states, events, last - 1);
      Settles(states, events, first, last - 1);
      CompletionIsProgress(states[last - 1], events[last - 1]);
    }
  }

  /** Once nothing is left to complete, the newest app revision has been attempted, and if that build
      succeeded it is what runs; and so has the newest daemon revision, but for one stranded in the queue. */
  lemma SettledIsCurrent(states: seq<State>, events: seq<Event>, i: nat)
    requires IsRun(states, events) && i < |states| && Running(states[i])
    requires forall e :: Completes(e) ==> !Enabled(states[i], e)
    ensures states[i].attempted == states[i].appRevision
    ensures states[i].outcome.Succeeded? ==> states[i].app == Some(states[i].appRevision)
    ensures states[i].debounced.None? && (states[i].queued.Some? <==> QueueStranded(states[i]))
    ensures states[i].attemptedDaemon == states[i].daemonRevision || QueueStranded(states[i])
  {
    RunsKeepInv(states, events, i);
    var s := states[i];
    assert !Enabled(s, TimerFires) && !Enabled(s, BuildDone(true)) && !Enabled(s, StopDone);
    assert !Enabled(s, InitialBuildDone(true)) && !Enabled(s, InitialStopDone);
  }
}
