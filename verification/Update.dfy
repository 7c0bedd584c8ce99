/** Updating and rolling back the managed binary (src/update.rs).  Every step may
    fail, and the process may be killed before any of them.  The install lock is
    held throughout, so nothing else moves the links. */
module Update {
  import opened Wrappers

  /** Semantic versions, of which only the order matters. */
  type Version = nat

  /** Where a selection link points; older links may be absolute. */
  datatype Target = Target(version: Version, absolute: bool)

  datatype Status = NoStatus | Installing(v: Version) | RollingBack(v: Version) | Ready(v: Version) | FailedStatus

  /** The data directory: two selection links, the version store and the status file. */
  datatype Store = Store(current: Option<Target>, manager: Option<Target>, installed: set<Version>, status: Status)

  /** How far a failed operation got. */
  datatype Damage = NotActivated | Restored | RestoreFailed

  /** A killed process reports nothing; `activated` says whether `current` was left
      at the requested version. */
  datatype Outcome =
    | Updated(version: Version)
    | AlreadyCurrent(version: Version)
    | NewerAlreadyCurrent(current: Version, requested: Version)
    | RolledBack(version: Version)
    | Failed(damage: Damage)
    | Killed(activated: bool)

  /** The steps that may fail, in the order of the procedures. */
  datatype Action =
    | Prepare | ReadCurrent | ReadManager | CheckManager | CheckCurrent | CheckControl | StartManager | RereadManager
    | Resolve | ReportInstalled | Announce | Download | Publish | Verify | ReadManagerAgain | RaiseManager
    | ActivateNew | ReadActive | Restart | ReportReady | RestorePrevious | RestartPrevious | Leave | ReportFailure

  /** What becomes of a step; a process that dies does so before the step. */
  datatype Fate = Done | Fails | Dies {
    /** Two steps in a row: the second is taken only if the first is done. */
    function Then(next: Fate): Fate { if Done? then next else this }
  }

  type Plan = Action -> Fate

  predicate IsSmooth(plan: Plan) { forall action: Action :: plan(action).Done? }

  function Smooth(): (plan: Plan)
    ensures IsSmooth(plan)
  {
    (_: Action) => Done
  }

  /** Nothing goes wrong before `current` is activated. */
  predicate ReachesActivation(plan: Plan) {
    forall action: Action | !(action.ActivateNew? || AfterActivation(action)) :: plan(action).Done?
  }

  /** A step between activating a version and reporting it ready fails, and none before it dies. */
  predicate FailsToFinish(plan: Plan) {
    || plan(ReadActive).Fails?
    || (plan(ReadActive).Done? && plan(Restart).Fails?)
    || (plan(ReadActive).Done? && plan(Restart).Done? && plan(ReportReady).Fails?)
  }

  predicate AfterActivation(action: Action) {
    action.ReadActive? || action.Restart? || action.ReportReady? || action.RestorePrevious?
    || action.RestartPrevious? || action.Leave? || action.ReportFailure?
  }

  function Managed(v: Version): Target { Target(v, false) }

  /** The version an update compares with. */
  function InstalledVersion(s: Store, running: Version): Version {
    if s.current.Some? then s.current.value.version else running
  }

  // ---------------------------------------------------------------- what one operation may do

  /** Links name installed versions, and `manager` a lifecycle controller. */
  ghost predicate ValidStore(s: Store, controls: Version -> bool) {
    && (s.current.Some? ==> s.current.value.version in s.installed)
    && (s.manager.Some? ==> s.manager.value.version in s.installed && controls(s.manager.value.version))
  }

  ghost predicate CurrentAt(s: Store, v: Version) { s.current.Some? && s.current.value.version == v }

  ghost predicate ManagerAtLeast(s: Store, v: Version) { s.manager.Some? && s.manager.value.version >= v }

  /** `manager` stays, starts at the current version, or moves up to the new one. */
  ghost predicate ManagerMoves(s: Store, requested: Version, t: Store) {
    || t.manager == s.manager
    || (s.manager.None? && s.current.Some? && t.manager == s.current)
    || (t.manager == Some(Managed(requested)) && (s.manager.Some? ==> s.manager.value.version < requested))
  }

  /** What activating `requested` and restarting leaves of the `current` link. */
  ghost predicate CurrentMoves(s: Store, requested: Version, outcome: Outcome, t: Store) {
    match outcome
    case Updated(v) => v == requested && t.current == Some(Managed(requested))
    case RolledBack(v) => v == requested && t.current == Some(Managed(requested))
    case Failed(RestoreFailed) => t.current == Some(Managed(requested))
    case Killed(true) => t.current == Some(Managed(requested))
    case _ => t.current == s.current
  }

  /** `perform_update` of a resolved version. */
  ghost predicate UpdateStep(s: Store, requested: Version, running: Version, outcome: Outcome, t: Store) {
    var installed := InstalledVersion(s, running);
    && CurrentMoves(s, requested, outcome, t) && ManagerMoves(s, requested, t) && s.installed <= t.installed
    && match outcome
       case Updated(_) => requested > installed && t.status == Ready(requested) && ManagerAtLeast(t, requested)
       case AlreadyCurrent(v) => v == requested == installed && t.status == Ready(installed) && t.manager.Some?
       case NewerAlreadyCurrent(v, r) =>
         v == installed > requested == r && t.status == Ready(installed) && t.manager.Some?
       case RolledBack(_) => false
       case Failed(damage) =>
         if damage.NotActivated? then t.status in {s.status, Installing(requested)}
         else requested > installed && t.status == Installing(requested) && ManagerAtLeast(t, requested)
       case Killed(activated) =>
         if activated then
           requested > installed && t.status in {Installing(requested), Ready(requested)}
               && ManagerAtLeast(t, requested)
         else t.status in {s.status, Installing(requested)} || (requested <= installed && t.status == Ready(installed))
  }

  /** What `perform_update` comes to when nothing fails. */
  function SmoothUpdate(s: Store, requested: Version, running: Version, controls: Version -> bool): Outcome {
    var installed := InstalledVersion(s, running);
    if requested > installed then if controls(requested) then Updated(requested) else Failed(NotActivated)
    else if s.manager.None? && !(s.current.Some? && controls(s.current.value.version)) then Failed(NotActivated)
    else if requested == installed then AlreadyCurrent(installed)
    else NewerAlreadyCurrent(installed, requested)
  }

  /** `perform_rollback`. */
  ghost predicate RollbackStep(s: Store, requested: Version, outcome: Outcome, t: Store) {
    && CurrentMoves(s, requested, outcome, t) && t.manager == s.manager && t.installed == s.installed
    && match outcome
       case RolledBack(_) => RollbackAdmitted(s, requested) && t.status == Ready(requested)
       case Failed(damage) =>
         if damage.NotActivated? then t.status in {s.status, RollingBack(requested)}
         else RollbackAdmitted(s, requested) && t.status == RollingBack(requested)
       case Killed(activated) =>
         if activated then RollbackAdmitted(s, requested) && t.status in {RollingBack(requested), Ready(requested)}
         else t.status in {s.status, RollingBack(requested)}
       case _ => false
  }

  /** A rollback needs both links and another installed version. */
  predicate RollbackAdmitted(s: Store, requested: Version) {
    s.current.Some? && s.manager.Some? && requested != s.current.value.version && requested in s.installed
  }

  // ---------------------------------------------------------------- which steps decide what

  /** Whether `ensure_manager_from_current` finds or starts a lifecycle controller. */
  predicate ManagerReady(s: Store, controls: Version -> bool, plan: Plan) {
    s.manager.Some? || (s.current.Some? && controls(s.current.value.version) && plan(CheckControl).Done?)
  }

  function ManagerFate(s: Store, controls: Version -> bool, plan: Plan): Fate {
    plan(ReadManager).Then(
      if s.manager.Some? then plan(CheckManager)
      else if s.current.None? then Done
      else plan(CheckCurrent).Then(
        if ManagerReady(s, controls, plan) then plan(StartManager).Then(plan(RereadManager))
        else if plan(CheckControl).Dies? then Dies else Done))
  }

  predicate StartsManager(s: Store, controls: Version -> bool, plan: Plan) {
    && s.manager.None? && ManagerReady(s, controls, plan)
    && plan(ReadManager).Then(plan(CheckCurrent)).Then(plan(StartManager)).Done?
  }

  /** What comes before the versions are compared. */
  function LookFate(s: Store, controls: Version -> bool, plan: Plan): Fate {
    plan(Prepare).Then(plan(ReadCurrent)).Then(ManagerFate(s, controls, plan)).Then(plan(Resolve))
  }

  /** The checks, downloads and publication that end with a valid version directory. */
  function InstallFate(installed: set<Version>, requested: Version, controls: Version -> bool, plan: Plan): Fate {
    plan(Download).Then(
      if !controls(requested) then Fails else if requested in installed then Done else plan(Publish))
    .Then(plan(Verify))
  }

  predicate AtLeast(manager: Option<Target>, v: Version) { manager.Some? && manager.value.version >= v }

  function RaiseFate(manager: Option<Target>, requested: Version, plan: Plan): Fate {
    plan(ReadManagerAgain).Then(if AtLeast(manager, requested) then Done else plan(RaiseManager))
  }

  /** The steps between activating a version and reporting it ready. */
  function FinishFate(plan: Plan): Fate {
    plan(ReadActive).Then(plan(Restart)).Then(plan(ReportReady))
  }

  /** What `activate_and_restart` comes to; None is success. */
  function Activation(previous: Option<Target>, plan: Plan): Option<Outcome> {
    if !plan(ActivateNew).Done? then Some(Stopped(plan(ActivateNew)))
    else
      match FinishFate(plan)
      case Dies => Some(Killed(true))
      case Done => if plan(Leave).Dies? then Some(Killed(true)) else None
      case Fails =>
        match plan(RestorePrevious)
        case Dies => Some(Killed(true))
        case Fails => Some(Failed(RestoreFailed))
        case Done =>
          Some(if (previous.Some? && plan(RestartPrevious).Dies?) || plan(Leave).Dies? then Killed(false)
               else Failed(Restored))
  }

  /** What `perform_update` comes to. */
  function UpdateOutcome(
    s: Store, requested: Version, running: Version, controls: Version -> bool, plan: Plan): Outcome
  {
    var installed := InstalledVersion(s, running);
    if !LookFate(s, controls, plan).Done? then Stopped(LookFate(s, controls, plan))
    else if requested <= installed then
      if !ManagerReady(s, controls, plan) then Failed(NotActivated)
      else if !plan(ReportInstalled).Done? then Stopped(plan(ReportInstalled))
      else if plan(Leave).Dies? then Killed(false)
      else if requested == installed then AlreadyCurrent(installed)
      else NewerAlreadyCurrent(installed, requested)
    else
      var fate := plan(Announce).Then(InstallFate(s.installed, requested, controls, plan))
                                .Then(RaiseFate(s.manager, requested, plan));
      if !fate.Done? then Stopped(fate) else Activation(s.current, plan).GetOr(Updated(requested))
  }

  /** The store an update leaves. */
  function UpdateLeaves(
    s: Store, requested: Version, running: Version, controls: Version -> bool, plan: Plan): Store
  {
    var outcome := UpdateOutcome(s, requested, running, controls, plan);
    var looked := LookFate(s, controls, plan);
    var newer := requested > InstalledVersion(s, running);
    var announced := looked.Then(plan(Announce));
    var published := announced.Then(plan(Download)).Then(if controls(requested) then plan(Publish) else Fails);
    var installed := announced.Then(InstallFate(s.installed, requested, controls, plan));
    Store(
      if Moves(outcome) then Some(Managed(requested)) else s.current,
      if newer && installed.Then(RaiseFate(s.manager, requested, plan)).Done? && !AtLeast(s.manager, requested)
      then Some(Managed(requested))
      else if plan(Prepare).Then(plan(ReadCurrent)).Done? && StartsManager(s, controls, plan) then s.current
      else s.manager,
      if newer && published.Done? then s.installed + {requested} else s.installed,
      if newer && installed.Then(RaiseFate(s.manager, requested, plan)).Done? && Reports(plan) then Ready(requested)
      else if newer && announced.Done? then Installing(requested)
      else if !newer && ManagerReady(s, controls, plan) && looked.Then(plan(ReportInstalled)).Done?
      then Ready(InstalledVersion(s, running))
      else s.status)
  }

  /** Readiness is reported. */
  predicate Reports(plan: Plan) { plan(ActivateNew).Then(FinishFate(plan)).Done? }

  /** The outcomes that leave `current` at the requested version. */
  predicate Moves(outcome: Outcome) {
    outcome.Updated? || outcome.RolledBack? || outcome == Failed(RestoreFailed) || outcome == Killed(true)
  }

  /** What comes before a rollback announces itself. */
  function RollbackFate(s: Store, requested: Version, plan: Plan): Fate {
    plan(Prepare).Then(plan(ReadCurrent)).Then(
      if s.current.None? then Fails
      else plan(ReadManager).Then(
        if s.manager.None? then Fails
        else plan(CheckManager).Then(if RollbackAdmitted(s, requested) then plan(Verify) else Fails)))
  }

  /** What `perform_rollback` comes to. */
  function RollbackOutcome(s: Store, requested: Version, plan: Plan): Outcome {
    var fate := RollbackFate(s, requested, plan).Then(plan(Announce));
    if !fate.Done? then Stopped(fate) else Activation(s.current, plan).GetOr(RolledBack(requested))
  }

  function RollbackLeaves(s: Store, requested: Version, plan: Plan): Store {
    var announced := RollbackFate(s, requested, plan).Then(plan(Announce)).Done?;
    s.(current := if Moves(RollbackOutcome(s, requested, plan)) then Some(Managed(requested)) else s.current,
       status := if !announced then s.status
                 else if Reports(plan) then Ready(requested) else RollingBack(requested))
  }

  lemma UpdateLeavesIsStep(s: Store, requested: Version, running: Version, controls: Version -> bool, plan: Plan)
    ensures UpdateStep(s, requested, running, UpdateOutcome(s, requested, running, controls, plan),
                       UpdateLeaves(s, requested, running, controls, plan))
  {
  }

  /** What an update promises when nothing fails, and when nothing fails before activation. */
  lemma UpdatePromises(s: Store, requested: Version, running: Version, controls: Version -> bool, plan: Plan)
    ensures IsSmooth(plan) ==>
      UpdateOutcome(s, requested, running, controls, plan) == SmoothUpdate(s, requested, running, controls)
    ensures ReachesActivation(plan) && requested > InstalledVersion(s, running) && controls(requested) ==>
      ManagerAtLeast(UpdateLeaves(s, requested, running, controls, plan), requested)
      && (plan(ActivateNew).Fails? ==> UpdateOutcome(s, requested, running, controls, plan) == Failed(NotActivated))
  {
  }

  // ---------------------------------------------------------------- the operations

  class DataDirectory {
    /** Which versions provide the lifecycle controller. */
    const controls: Version -> bool
    var current: Option<Target>
    var manager: Option<Target>
    var installed: set<Version>
    var status: Status

    ghost function State(): Store
      reads this
    {
      Store(current, manager, installed, status)
    }

    ghost predicate Valid()
      reads this
    {
      ValidStore(State(), controls)
    }

    constructor (controls: Version -> bool)
      ensures Valid() && this.controls == controls && State() == Store(None, None, {}, NoStatus)
    {
      this.controls := controls;
      current, manager, installed, status := None, None, {}, NoStatus;
    }

    /** `activate` of the `current` link: a rename, or a removal. */
    method Activate(target: Option<Target>, fate: Fate)
      modifies this`current
      ensures current == if fate.Done? then target else old(current)
    {
      if fate.Done? { current := target; }
    }

    method ActivateManager(target: Target, fate: Fate)
      modifies this`manager
      ensures manager == if fate.Done? then Some(target) else old(manager)
    {
      if fate.Done? { manager := Some(target); }
    }

    method WriteStatus(s: Status, fate: Fate)
      modifies this`status
      ensures status == if fate.Done? then s else old(status)
    {
      if fate.Done? { status := s; }
    }

    /** `ensure_manager_from_current`. */
    method EnsureManagerFromCurrent(selected: Option<Target>, plan: Plan) returns (fate: Fate, ready: bool)
      requires Valid() && selected == current
      modifies this`manager
      ensures Valid() && (manager == old(manager) || (old(manager).None? && current.Some? && manager == current))
      ensures fate.Done? && ready ==> manager.Some?
      ensures IsSmooth(plan) || ReachesActivation(plan) ==> fate.Done?
      ensures fate == ManagerFate(old(State()), controls, plan)
      ensures fate.Done? ==> (ready <==> ManagerReady(old(State()), controls, plan))
      ensures manager == if StartsManager(old(State()), controls, plan) then current else old(manager)
    {
      if !plan(ReadManager).Done? { return plan(ReadManager), false; }
      if manager.Some? { return plan(CheckManager), true; }
      if selected.None? { return Done, false; }
      if !plan(CheckCurrent).Done? { return plan(CheckCurrent), false; }
      if plan(CheckControl).Dies? { return Dies, false; }
      if plan(CheckControl).Fails? || !controls(selected.value.version) { return Done, false; }
      ActivateManager(selected.value, plan(StartManager));
      if !plan(StartManager).Done? { return plan(StartManager), false; }
      return plan(RereadManager), true;
    }

    /** `activate_manager_if_newer`. */
    method ActivateManagerIfNewer(candidate: Version, plan: Plan) returns (fate: Fate)
      requires Valid() && candidate in installed && controls(candidate)
      modifies this`manager
      ensures Valid()
      ensures manager == old(manager)
        || (manager == Some(Managed(candidate)) && (old(manager).Some? ==> old(manager).value.version < candidate))
      ensures fate.Done? ==> ManagerAtLeast(State(), candidate)
      ensures IsSmooth(plan) || ReachesActivation(plan) ==> fate.Done?
      ensures fate == RaiseFate(old(manager), candidate, plan)
      ensures manager ==
        if fate.Done? && !AtLeast(old(manager), candidate) then Some(Managed(candidate)) else old(manager)
    {
      if !plan(ReadManagerAgain).Done? { return plan(ReadManagerAgain); }
      if manager.Some? && manager.value.version >= candidate { return Done; }
      ActivateManager(Managed(candidate), plan(RaiseManager));
      return plan(RaiseManager);
    }

    /** `activate_and_restart`; the result is None on success. */
    method ActivateAndRestart(version: Version, previous: Option<Target>, plan: Plan) returns (problem: Option<Outcome>)
      requires Valid() && version in installed && previous == current
      modifies this`current, this`status
      ensures Valid()
      ensures problem.Some? ==> problem.value.Failed? || problem.value.Killed?
      ensures CurrentMoves(old(State()), version, problem.GetOr(Updated(version)), State())
      ensures problem.None? ==> status == Ready(version)
      ensures problem.Some? && problem.value != Killed(true) ==> status == old(status)
      ensures status in {old(status), Ready(version)}
      ensures IsSmooth(plan) ==> problem.None?
      ensures problem == Some(Failed(NotActivated)) <==> plan(ActivateNew).Fails?
      ensures problem.None? <==>
        plan(ActivateNew).Done? && plan(ReadActive).Done? && plan(Restart).Done? && plan(ReportReady).Done?
        && !plan(Leave).Dies?
      ensures problem == Some(Failed(RestoreFailed)) <==>
        plan(ActivateNew).Done? && FailsToFinish(plan) && plan(RestorePrevious).Fails?
      ensures problem == Some(Failed(Restored)) <==>
        plan(ActivateNew).Done? && FailsToFinish(plan) && plan(RestorePrevious).Done?
        && !(previous.Some? && plan(RestartPrevious).Dies?) && !plan(Leave).Dies?
      ensures problem == Some(Failed(Restored)) ==> current == old(current)
      ensures problem == Activation(previous, plan)
      ensures status == if Reports(plan) then Ready(version) else old(status)
    {
      Activate(Some(Managed(version)), plan(ActivateNew));
      if !plan(ActivateNew).Done? { return Some(Stopped(plan(ActivateNew))); }
      var finished := Finish(version, plan);
      if finished.Dies? { return Some(Killed(true)); }
      if finished.Done? { return if plan(Leave).Dies? then Some(Killed(true)) else None; }
      Activate(previous, plan(RestorePrevious));
      match plan(RestorePrevious)
      case Dies => return Some(Killed(true));
      case Fails => return Some(Failed(RestoreFailed));
      case Done =>
        // a failing restart of the previous binary changes only the message
        if previous.Some? && plan(RestartPrevious).Dies? { return Some(Killed(false)); }
        return Some(if plan(Leave).Dies? then Killed(false) else Failed(Restored));
    }

    /** Checks the link, restarts the daemon and reports readiness. */
    method Finish(version: Version, plan: Plan) returns (fate: Fate)
      requires current == Some(Managed(version))
      modifies this`status
      ensures status == if fate.Done? then Ready(version) else old(status)
      ensures IsSmooth(plan) ==> fate.Done?
      ensures fate == FinishFate(plan)
    {
      if !plan(ReadActive).Done? { return plan(ReadActive); }
      if !plan(Restart).Done? { return plan(Restart); }
      WriteStatus(Ready(version), plan(ReportReady));
      return plan(ReportReady);
    }

    /** The checks and downloads that end with a valid version directory. */
    method Install(version: Version, plan: Plan) returns (fate: Fate)
      requires Valid()
      modifies this`installed
      ensures Valid() && installed in {old(installed), old(installed) + {version}}
      ensures fate.Done? ==> version in installed && controls(version)
      ensures (IsSmooth(plan) || ReachesActivation(plan)) && controls(version) ==> fate.Done?
      ensures IsSmooth(plan) && !controls(version) ==> fate.Fails?
      ensures fate == InstallFate(old(installed), version, controls, plan)
      ensures installed == if plan(Download).Done? && controls(version) && plan(Publish).Done?
                           then old(installed) + {version} else old(installed)
    {
      if !plan(Download).Done? { return plan(Download); }
      // the archive must provide a lifecycle controller
      if !controls(version) { return Fails; }
      if version !in installed {
        if !plan(Publish).Done? { return plan(Publish); }
        installed := installed + {version};
      }
      return plan(Verify);
    }

    /** `perform_update`; `requested` is the version asked for or discovered. */
    method PerformUpdate(requested: Version, running: Version, plan: Plan) returns (outcome: Outcome)
      requires Valid()
      modifies this
      ensures Valid() && UpdateStep(old(State()), requested, running, outcome, State())
      ensures outcome == UpdateOutcome(old(State()), requested, running, controls, plan)
      ensures State() == UpdateLeaves(old(State()), requested, running, controls, plan)
      ensures outcome == Failed(RestoreFailed) ==> FailsToFinish(plan) && plan(RestorePrevious).Fails?
      ensures IsSmooth(plan) ==> outcome == SmoothUpdate(old(State()), requested, running, controls)
      ensures ReachesActivation(plan) && requested > InstalledVersion(old(State()), running) && controls(requested) ==>
        ManagerAtLeast(State(), requested)
        && (plan(ActivateNew).Fails? ==> outcome == Failed(NotActivated))
    {
      UpdateLeavesIsStep(State(), requested, running, controls, plan);
      UpdatePromises(State(), requested, running, controls, plan);
      if !plan(Prepare).Done? { return Stopped(plan(Prepare)); }
      outcome := UpdateUnderLock(requested, running, plan);
    }

    /** The same once the directory is prepared and locked. */
    method UpdateUnderLock(requested: Version, running: Version, plan: Plan) returns (outcome: Outcome)
      requires Valid() && plan(Prepare).Done?
      modifies this
      ensures Valid() && outcome == UpdateOutcome(old(State()), requested, running, controls, plan)
      ensures State() == UpdateLeaves(old(State()), requested, running, controls, plan)
    {
      if !plan(ReadCurrent).Done? { return Stopped(plan(ReadCurrent)); }
      var selected := current;
      var fate, ready := EnsureManagerFromCurrent(selected, plan);
      if !fate.Done? { return Stopped(fate); }
      var installedVersion := if selected.Some? then selected.value.version else running;
      if !plan(Resolve).Done? { return Stopped(plan(Resolve)); }
      if requested > installedVersion {
        outcome := InstallAndActivate(requested, selected, plan);
      } else {
        outcome := ReportUnchanged(requested, installedVersion, ready, plan);
      }
    }

    /** The end of `perform_update` for a version that is not newer. */
    method ReportUnchanged(requested: Version, installedVersion: Version, ready: bool, plan: Plan)
      returns (outcome: Outcome)
      requires requested <= installedVersion
      modifies this`status
      ensures outcome ==
        if !ready then Failed(NotActivated)
        else if !plan(ReportInstalled).Done? then Stopped(plan(ReportInstalled))
        else if plan(Leave).Dies? then Killed(false)
        else if requested == installedVersion then AlreadyCurrent(installedVersion)
        else NewerAlreadyCurrent(installedVersion, requested)
      ensures status == if ready && plan(ReportInstalled).Done? then Ready(installedVersion) else old(status)
    {
      if !ready { return Failed(NotActivated); }
      WriteStatus(Ready(installedVersion), plan(ReportInstalled));
      if !plan(ReportInstalled).Done? { return Stopped(plan(ReportInstalled)); }
      if plan(Leave).Dies? { return Killed(false); }
      return if requested == installedVersion then AlreadyCurrent(installedVersion)
             else NewerAlreadyCurrent(installedVersion, requested);
    }

    /** The rest of `perform_update`, for a version newer than the installed one. */
    method InstallAndActivate(requested: Version, previous: Option<Target>, plan: Plan) returns (outcome: Outcome)
      requires Valid() && previous == current
      modifies this
      ensures Valid() && (outcome == Updated(requested) || outcome.Failed? || outcome.Killed?)
      ensures current == if Moves(outcome) then Some(Managed(requested)) else old(current)
      ensures var fate := plan(Announce).Then(InstallFate(old(installed), requested, controls, plan))
                                        .Then(RaiseFate(old(manager), requested, plan));
        && outcome == (if fate.Done? then Activation(previous, plan).GetOr(Updated(requested)) else Stopped(fate))
        && (fate.Done? && !AtLeast(old(manager), requested) ==> manager == Some(Managed(requested)))
        && (!fate.Done? || AtLeast(old(manager), requested) ==> manager == old(manager))
        && status == (if fate.Done? && Reports(plan) then Ready(requested)
                      else if plan(Announce).Done? then Installing(requested) else old(status))
      ensures installed == if plan(Announce).Then(plan(Download)).Done? && controls(requested) && plan(Publish).Done?
                           then old(installed) + {requested} else old(installed)
    {
      WriteStatus(Installing(requested), plan(Announce));
      if !plan(Announce).Done? { return Stopped(plan(Announce)); }
      var fate := Install(requested, plan);
      if !fate.Done? { return Stopped(fate); }
      fate := ActivateManagerIfNewer(requested, plan);
      if !fate.Done? { return Stopped(fate); }
      var problem := ActivateAndRestart(requested, previous, plan);
      return problem.GetOr(Updated(requested));
    }

    method PerformRollback(requested: Version, plan: Plan) returns (outcome: Outcome)
      requires Valid()
      modifies this
      ensures Valid() && RollbackStep(old(State()), requested, outcome, State())
      ensures IsSmooth(plan) ==> (outcome == RolledBack(requested) <==> RollbackAdmitted(old(State()), requested))
      ensures outcome == RollbackOutcome(old(State()), requested, plan)
      ensures State() == RollbackLeaves(old(State()), requested, plan)
      ensures outcome == Failed(RestoreFailed) ==> FailsToFinish(plan) && plan(RestorePrevious).Fails?
    {
      if !plan(Prepare).Done? { return Stopped(plan(Prepare)); }
      if !plan(ReadCurrent).Done? { return Stopped(plan(ReadCurrent)); }
      if current.None? { return Failed(NotActivated); }
      var selected := current.value;
      if !plan(ReadManager).Done? { return Stopped(plan(ReadManager)); }
      if manager.None? { return Failed(NotActivated); }
      if !plan(CheckManager).Done? { return Stopped(plan(CheckManager)); }
      if requested == selected.version || requested !in installed { return Failed(NotActivated); }
      if !plan(Verify).Done? { return Stopped(plan(Verify)); }
      WriteStatus(RollingBack(requested), plan(Announce));
      if !plan(Announce).Done? { return Stopped(plan(Announce)); }
      var problem := ActivateAndRestart(requested, Some(selected), plan);
      return problem.GetOr(RolledBack(requested));
    }

    /** `run` and `run_rollback`: a failure is also written to the status file. */
    method Run(op: Operation, plan: Plan) returns (outcome: Outcome)
      requires Valid()
      modifies this
      ensures Valid() && Step(old(State()), op, outcome, State())
      ensures PlannedStep(old(State()), op, controls, plan, outcome, State())
      ensures outcome.Failed? && plan(ReportFailure).Done? ==> status == FailedStatus
      ensures outcome == Failed(RestoreFailed) ==> FailsToFinish(plan) && plan(RestorePrevious).Fails?
    {
      ghost var before := State();
      match op {
        case UpdateTo(requested, running) => outcome := PerformUpdate(requested, running, plan);
        case RollbackTo(requested) => outcome := PerformRollback(requested, plan);
      }
      ghost var between := State();
      if outcome.Failed? { WriteStatus(FailedStatus, plan(ReportFailure)); }
      assert Performed(before, op, outcome, between) && Reported(outcome, between, State());
    }
  }

  function Stopped(fate: Fate): Outcome {
    if fate.Dies? then Killed(false) else Failed(NotActivated)
  }

  /** An update may be repeated after it failed or was killed anywhere: without a
      further failure it then ends at the requested version. */
  method RepeatUpdate(directory: DataDirectory, requested: Version, running: Version, plan: Plan)
    returns (first: Outcome, second: Outcome)
    requires directory.Valid() && directory.controls(requested)
    requires requested > InstalledVersion(directory.State(), running)
    modifies directory
    ensures directory.Valid() && CurrentAt(directory.State(), requested)
    ensures second == Updated(requested) || second == AlreadyCurrent(requested)
  {
    first := directory.PerformUpdate(requested, running, plan);
    second := directory.PerformUpdate(requested, running, Smooth());
  }

  /** How an update comes to succeed without a `current` link: a first one fails to
      activate after raising the manager, then the running version is requested. */
  method SucceedWithoutCurrent(running: Version, newer: Version) returns (directory: DataDirectory, outcome: Outcome)
    requires running < newer
    ensures directory.Valid() && outcome == AlreadyCurrent(running) && directory.current.None?
  {
    directory := new DataDirectory((_: Version) => true);
    var _ := directory.PerformUpdate(newer, running, (action: Action) => if action.ActivateNew? then Fails else Done);
    outcome := directory.PerformUpdate(running, running, Smooth());
  }

  // ---------------------------------------------------------------- runs

  datatype Operation = UpdateTo(requested: Version, running: Version) | RollbackTo(requested: Version)

  ghost predicate Performed(s: Store, op: Operation, outcome: Outcome, t: Store) {
    match op
    case UpdateTo(requested, running) => UpdateStep(s, requested, running, outcome, t)
    case RollbackTo(requested) => RollbackStep(s, requested, outcome, t)
  }

  ghost predicate Reported(outcome: Outcome, s: Store, t: Store) {
    t == s || (outcome.Failed? && t == s.(status := FailedStatus))
  }

  ghost predicate Step(s: Store, op: Operation, outcome: Outcome, t: Store) {
    exists between :: Performed(s, op, outcome, between) && Reported(outcome, between, t)
  }

  function OutcomeOf(s: Store, op: Operation, controls: Version -> bool, plan: Plan): Outcome {
    match op
    case UpdateTo(requested, running) => UpdateOutcome(s, requested, running, controls, plan)
    case RollbackTo(requested) => RollbackOutcome(s, requested, plan)
  }

  function LeavesBehind(s: Store, op: Operation, controls: Version -> bool, plan: Plan): Store {
    match op
    case UpdateTo(requested, running) => UpdateLeaves(s, requested, running, controls, plan)
    case RollbackTo(requested) => RollbackLeaves(s, requested, plan)
  }

  /** A step whose failures are those of a given plan. */
  ghost predicate PlannedStep(
    s: Store, op: Operation, controls: Version -> bool, plan: Plan, outcome: Outcome, t: Store)
  {
    && Step(s, op, outcome, t)
    && outcome == OutcomeOf(s, op, controls, plan)
    && t == (if outcome.Failed? && plan(ReportFailure).Done?
             then LeavesBehind(s, op, controls, plan).(status := FailedStatus)
             else LeavesBehind(s, op, controls, plan))
  }

  ghost predicate IsPlannedRun(
    stores: seq<Store>, ops: seq<Operation>, controls: Version -> bool, plans: seq<Plan>, outcomes: seq<Outcome>)
  {
    && |ops| == |outcomes| == |plans| && |stores| == |ops| + 1
    && forall i | 0 <= i < |ops| :: PlannedStep(stores[i], ops[i], controls, plans[i], outcomes[i], stores[i + 1])
  }

  // ---------------------------------------------------------------- what the failing steps decide

  /** An update succeeds in replacing the version exactly when the request is newer
      and a lifecycle controller, and none of the steps it needs fails. */
  lemma UpdatedExactly(s: Store, requested: Version, running: Version, controls: Version -> bool, plan: Plan)
    ensures UpdateOutcome(s, requested, running, controls, plan) == Updated(requested) <==>
      && requested > InstalledVersion(s, running) && controls(requested)
      && plan(Prepare).Done? && plan(ReadCurrent).Done? && plan(ReadManager).Done?
      && (s.manager.Some? ==> plan(CheckManager).Done?)
      && (s.manager.None? && s.current.Some? ==> plan(CheckCurrent).Done? && !plan(CheckControl).Dies?)
      && (s.manager.None? && s.current.Some? && plan(CheckControl).Done? && controls(s.current.value.version) ==>
            plan(StartManager).Done? && plan(RereadManager).Done?)
      && plan(Resolve).Done? && plan(Announce).Done? && plan(Download).Done?
      && (requested !in s.installed ==> plan(Publish).Done?)
      && plan(Verify).Done? && plan(ReadManagerAgain).Done?
      && (s.manager.None? || s.manager.value.version < requested ==> plan(RaiseManager).Done?)
      && plan(ActivateNew).Done? && plan(ReadActive).Done? && plan(Restart).Done? && plan(ReportReady).Done?
      && !plan(Leave).Dies?
  {
  }

  /** An update announces itself before it fetches, publishes or activates anything:
      until then only `manager` may have been started, and from then on the status
      says INSTALLING until the activated version is reported ready. */
  lemma AnnouncesFirst(s: Store, requested: Version, running: Version, controls: Version -> bool, plan: Plan)
    requires requested > InstalledVersion(s, running)
    ensures var t := UpdateLeaves(s, requested, running, controls, plan);
      && (!plan(Announce).Done? ==> t == s.(manager := t.manager) && t.manager in {s.manager, s.current})
      && (t.installed != s.installed || t.current != s.current ==>
           t.status in {Installing(requested), Ready(requested)})
      && (t.status != s.status ==> t.status in {Installing(requested), Ready(requested)})
      && (t.status == Ready(requested) && s.status != t.status ==> t.current == Some(Managed(requested)))
      && (LookFate(s, controls, plan).Done? && plan(Announce).Done? && !plan(Download).Done? ==>
            t.status == Installing(requested))
  {
  }

  lemma RolledBackExactly(s: Store, requested: Version, plan: Plan)
    ensures RollbackOutcome(s, requested, plan) == RolledBack(requested) <==>
      && s.current.Some? && s.manager.Some? && requested != s.current.value.version && requested in s.installed
      && plan(Prepare).Done? && plan(ReadCurrent).Done? && plan(ReadManager).Done? && plan(CheckManager).Done?
      && plan(Verify).Done? && plan(Announce).Done?
      && plan(ActivateNew).Done? && plan(ReadActive).Done? && plan(Restart).Done? && plan(ReportReady).Done?
      && !plan(Leave).Dies?
  {
  }

  /** The operation gets as far as activating the requested version. */
  predicate Activates(s: Store, op: Operation, controls: Version -> bool, plan: Plan) {
    && plan(ActivateNew).Done?
    && match op
       case UpdateTo(requested, running) =>
         && requested > InstalledVersion(s, running)
         && LookFate(s, controls, plan).Then(plan(Announce)).Then(InstallFate(s.installed, requested, controls, plan))
                                       .Then(RaiseFate(s.manager, requested, plan)).Done?
       case RollbackTo(requested) => RollbackFate(s, requested, plan).Then(plan(Announce)).Done?
  }

  /** A failure after activation is answered by restoring the previous target, and is
      reported as unrestored exactly when that fails. */
  lemma FailedActivation(s: Store, op: Operation, controls: Version -> bool, plan: Plan)
    requires Activates(s, op, controls, plan) && FailsToFinish(plan)
    requires !plan(RestorePrevious).Dies? && !plan(RestartPrevious).Dies? && !plan(Leave).Dies?
    ensures OutcomeOf(s, op, controls, plan) == Failed(if plan(RestorePrevious).Done? then Restored else RestoreFailed)
    ensures LeavesBehind(s, op, controls, plan).current ==
      if plan(RestorePrevious).Done? then s.current else Some(Managed(op.requested))
  {
  }

  /** A failure moves `current` exactly when restoring the previous target fails
      after a step between activation and readiness did. */
  lemma FailureMovesExactly(
    s: Store, op: Operation, controls: Version -> bool, plan: Plan, outcome: Outcome, t: Store)
    requires PlannedStep(s, op, controls, plan, outcome, t) && outcome.Failed?
    ensures t.current != s.current <==>
      Activates(s, op, controls, plan) && FailsToFinish(plan) && plan(RestorePrevious).Fails?
    ensures t.current != s.current <==> outcome == Failed(RestoreFailed)
    ensures t.current != s.current ==> t.current == Some(Managed(op.requested))
  {
  }

  /** In a run no failure of an operation whose restoring activation does not fail
      moves `current`. */
  lemma RestoringKeepsCurrent(
    stores: seq<Store>, ops: seq<Operation>, controls: Version -> bool, plans: seq<Plan>, outcomes: seq<Outcome>,
    i: nat)
    requires IsPlannedRun(stores, ops, controls, plans, outcomes) && i < |ops|
    requires outcomes[i].Failed? && !plans[i](RestorePrevious).Fails?
    ensures stores[i + 1].current == stores[i].current
  {
    FailureMovesExactly(stores[i], ops[i], controls, plans[i], outcomes[i], stores[i + 1]);
  }

  /** What the last successful update or rollback selected, else the target at the start. */
  function LastSuccess(start: Option<Target>, outcomes: seq<Outcome>): Option<Target> {
    if outcomes == [] then start
    else
      match outcomes[|outcomes| - 1]
      case Updated(v) => Some(Managed(v))
      case RolledBack(v) => Some(Managed(v))
      case _ => LastSuccess(start, outcomes[..|outcomes| - 1])
  }

  /** So while restoring never fails and no operation is killed, `current` is always
      what the last success selected. */
  lemma {:induction false} CurrentIsLastSuccess(
    stores: seq<Store>, ops: seq<Operation>, controls: Version -> bool, plans: seq<Plan>, outcomes: seq<Outcome>)
    requires IsPlannedRun(stores, ops, controls, plans, outcomes)
    requires forall i | 0 <= i < |ops| :: !plans[i](RestorePrevious).Fails? && !outcomes[i].Killed?
    ensures stores[|ops|].current == LastSuccess(stores[0].current, outcomes)
    decreases |ops|
  {
    if ops != [] {
      var n := |ops| - 1;
      assert PlannedStep(stores[n], ops[n], controls, plans[n], outcomes[n], stores[n + 1]);
      assert IsPlannedRun(stores[..n + 1], ops[..n], controls, plans[..n], outcomes[..n]);
      CurrentIsLastSuccess(stores[..n + 1], ops[..n], controls, plans[..n], outcomes[..n]);
      StepIsHonest(stores[n], ops[n], outcomes[n], stores[n + 1]);
      assert [ops[n]][..0] == [] && [outcomes[n]][..0] == [];
      if outcomes[n].Failed? {
        FailureMovesExactly(stores[n], ops[n], controls, plans[n], outcomes[n], stores[n + 1]);
      }
    }
  }

  // ---------------------------------------------------------------- what runs keep

  /** A run: stores joined by operations and their outcomes. */
  ghost predicate IsRun(stores: seq<Store>, ops: seq<Operation>, outcomes: seq<Outcome>) {
    && |ops| == |outcomes| && |stores| == |ops| + 1
    && forall i | 0 <= i < |ops| :: Step(stores[i], ops[i], outcomes[i], stores[i + 1])
  }

  /** The condition, before an update, under which success leaves `current` at the
      requested version: it is newer than what is installed, or it is what the
      `current` link already selects. */
  predicate WillSelect(s: Store, requested: Version, running: Version) {
    requested > InstalledVersion(s, running) || (s.current.Some? && s.current.value.version == requested)
  }

  /** A successful update leaves `current` at the requested version exactly when
      that was newer or already selected.  It does not for an older request, nor
      when no link exists and the running version is requested. */
  lemma SuccessSelects(s: Store, requested: Version, running: Version, outcome: Outcome, t: Store)
    requires Step(s, UpdateTo(requested, running), outcome, t) && !outcome.Failed? && !outcome.Killed?
    ensures CurrentAt(t, requested) <==> WillSelect(s, requested, running)
    ensures outcome.Updated? <==> requested > InstalledVersion(s, running)
    ensures t.status == Ready(if outcome.Updated? then requested else InstalledVersion(s, running))
  {
    var u :| Performed(s, UpdateTo(requested, running), outcome, u) && Reported(outcome, u, t);
  }

  /** An update can succeed without a `current` link: a manager is left, and the
      running version is requested. */
  lemma SuccessWithoutCurrent(s: Store, v: Version)
    requires s.current.None? && s.manager.Some?
    ensures var t := s.(status := Ready(v));
      Step(s, UpdateTo(v, v), AlreadyCurrent(v), t) && !WillSelect(s, v, v) && !CurrentAt(t, v)
  {
    var t := s.(status := Ready(v));
    assert UpdateStep(s, v, v, AlreadyCurrent(v), t);
    assert Performed(s, UpdateTo(v, v), AlreadyCurrent(v), t) && Reported(AlreadyCurrent(v), t, t);
  }

  /** No update, failed or killed ones included, ever leaves `current` at an older
      version. */
  lemma UpdateNeverLowers(s: Store, requested: Version, running: Version, outcome: Outcome, t: Store)
    requires Step(s, UpdateTo(requested, running), outcome, t) && s.current.Some?
    ensures t.current.Some? && t.current.value.version >= s.current.value.version
    ensures t.current.value.version > s.current.value.version ==> t.current == Some(Managed(requested))
  {
    var u :| Performed(s, UpdateTo(requested, running), outcome, u) && Reported(outcome, u, t);
  }

  lemma RollbackSelects(s: Store, requested: Version, outcome: Outcome, t: Store)
    requires Step(s, RollbackTo(requested), outcome, t) && !outcome.Failed? && !outcome.Killed?
    ensures t.current == Some(Managed(requested)) && t.manager == s.manager && t.status == Ready(requested)
  {
    var u :| Performed(s, RollbackTo(requested), outcome, u) && Reported(outcome, u, t);
  }

  /** A failure leaves `current` at its previous target, unless the activation that
      should restore it fails as well: then it is at the requested version. */
  lemma FailurePreserves(s: Store, op: Operation, damage: Damage, t: Store)
    requires Step(s, op, Failed(damage), t)
    ensures if damage.RestoreFailed? then t.current == Some(Managed(op.requested)) else t.current == s.current
    ensures damage.RestoreFailed? ==> !t.status.Ready?
  {
    var u :| Performed(s, op, Failed(damage), u) && Reported(Failed(damage), u, t);
  }

  /** A killed operation leaves `current` where it was or at the requested version,
      the latter only if the operation was admissible and the manager can undo it;
      whatever READY then says is true. */
  lemma KillLeaves(s: Store, op: Operation, activated: bool, t: Store)
    requires Step(s, op, Killed(activated), t)
    ensures t.current == if activated then Some(Managed(op.requested)) else s.current
    ensures activated && op.UpdateTo? ==>
      op.requested > InstalledVersion(s, op.running) && ManagerAtLeast(t, op.requested)
    ensures activated && op.RollbackTo? ==> RollbackAdmitted(s, op.requested) && t.manager == s.manager
    ensures ManagerMoves(s, op.requested, t)
    ensures t.status.Ready? && t.status != s.status ==>
      t.status == Ready(if activated then op.requested else InstalledVersion(s, op.running))
  {
    var u :| Performed(s, op, Killed(activated), u) && Reported(Killed(activated), u, t);
  }

  /** `manager` never goes down, and is at least as new as every version updated to. */
  lemma StepRaisesManager(s: Store, op: Operation, outcome: Outcome, t: Store)
    requires Step(s, op, outcome, t)
    ensures s.manager.Some? ==> ManagerAtLeast(t, s.manager.value.version)
    ensures outcome.Updated? ==> ManagerAtLeast(t, outcome.version)
  {
    var u :| Performed(s, op, outcome, u) && Reported(outcome, u, t);
  }

  lemma {:induction false} ManagerNeverDecreases(
    stores: seq<Store>, ops: seq<Operation>, outcomes: seq<Outcome>, i: nat, j: nat)
    requires IsRun(stores, ops, outcomes) && i <= j <= |ops|
    ensures stores[i].manager.Some? ==> ManagerAtLeast(stores[j], stores[i].manager.value.version)
    decreases j
  {
    if i < j {
      ManagerNeverDecreases(stores, ops, outcomes, i, j - 1);
      StepRaisesManager(stores[j - 1], ops[j - 1], outcomes[j - 1], stores[j]);
    }
  }

  /** After any run, `manager` is at least as new as every version ever updated to. */
  lemma ManagerCoversUpdates(stores: seq<Store>, ops: seq<Operation>, outcomes: seq<Outcome>, i: nat, j: nat)
    requires IsRun(stores, ops, outcomes) && i < j <= |ops| && outcomes[i].Updated?
    ensures ManagerAtLeast(stores[j], outcomes[i].version)
  {
    StepRaisesManager(stores[i], ops[i], outcomes[i], stores[i + 1]);
    ManagerNeverDecreases(stores, ops, outcomes, i + 1, j);
  }

  /** The target the outcomes select: that of the last update, rollback, failed
      restoration or kill after activation, else the one at the start. */
  function SelectedBy(start: Option<Target>, ops: seq<Operation>, outcomes: seq<Outcome>): Option<Target>
    requires |ops| == |outcomes|
  {
    if ops == [] then start
    else
      var n := |ops| - 1;
      match outcomes[n]
      case Updated(v) => Some(Managed(v))
      case RolledBack(v) => Some(Managed(v))
      case Failed(RestoreFailed) => Some(Managed(ops[n].requested))
      case Killed(true) => Some(Managed(ops[n].requested))
      case _ => SelectedBy(start, ops[..n], outcomes[..n])
  }

  lemma StepIsHonest(s: Store, op: Operation, outcome: Outcome, t: Store)
    requires Step(s, op, outcome, t)
    ensures t.current == SelectedBy(s.current, [op], [outcome])
  {
    var u :| Performed(s, op, outcome, u) && Reported(outcome, u, t);
    assert [op][..0] == [] && [outcome][..0] == [];
  }

  /** Over any run of updates and rollbacks, with failures and kills anywhere,
      `current` is where the outcomes say. */
  lemma {:induction false} OutcomesAreHonest(stores: seq<Store>, ops: seq<Operation>, outcomes: seq<Outcome>)
    requires IsRun(stores, ops, outcomes)
    ensures stores[|ops|].current == SelectedBy(stores[0].current, ops, outcomes)
    decreases |ops|
  {
    if ops != [] {
      var n := |ops| - 1;
      assert IsRun(stores[..n + 1], ops[..n], outcomes[..n]);
      OutcomesAreHonest(stores[..n + 1], ops[..n], outcomes[..n]);
      assert Step(stores[n], ops[n], outcomes[n], stores[n + 1]);
      StepIsHonest(stores[n], ops[n], outcomes[n], stores[n + 1]);
      assert SelectedBy(stores[n].current, [ops[n]], [outcomes[n]]) == SelectedBy(stores[0].current, ops, outcomes);
    }
  }

  /** A status of READY names the version `current` selects, if it selects any. */
  ghost predicate ReadyIsTrue(s: Store) {
    s.status.Ready? && s.current.Some? ==> s.current.value.version == s.status.v
  }

  lemma StepKeepsReadyTrue(s: Store, op: Operation, outcome: Outcome, t: Store)
    requires Step(s, op, outcome, t) && ReadyIsTrue(s)
    ensures ReadyIsTrue(t)
  {
    var u :| Performed(s, op, outcome, u) && Reported(outcome, u, t);
  }

  lemma {:induction false} ReadyStaysTrue(stores: seq<Store>, ops: seq<Operation>, outcomes: seq<Outcome>)
    requires IsRun(stores, ops, outcomes) && ReadyIsTrue(stores[0])
    ensures ReadyIsTrue(stores[|ops|])
    decreases |ops|
  {
    if ops != [] {
      var n := |ops| - 1;
      assert IsRun(stores[..n + 1], ops[..n], outcomes[..n]);
      ReadyStaysTrue(stores[..n + 1], ops[..n], outcomes[..n]);
      assert Step(stores[n], ops[n], outcomes[n], stores[n + 1]);
      StepKeepsReadyTrue(stores[n], ops[n], outcomes[n], stores[n + 1]);
    }
  }
}
