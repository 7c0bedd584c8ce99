/** How the scanner advances visibility and goal outcomes of one record
    from one scan to the next (src/scanner.rs). */
module Scanner {
  import opened Wrappers
  import opened AgentModel

  /** `next_seen`. */
  function NextSeen(prior: Option<AgentRecord>, state: AgentState, visible: bool): bool {
    if visible || prior.None? then true
    else match state
      case Working => true
      case Blocked => prior.value.seen
      case Idle => !Active(prior.value.state) && prior.value.seen
      case Unknown => prior.value.seen
  }

  /** A detected goal that was not there before: it follows a pursuit, differs
      from the last outcome, or appears on an agent that was active. */
  predicate NewOutcome(prior: Option<AgentRecord>, observed: GoalInfo) {
    && !observed.state.Pursuing?
    && prior.Some?
    && match prior.value.goal
       case Some(previous) =>
         previous.state.Pursuing? || previous.state != observed.state || previous.progress != observed.progress
       case None => Active(prior.value.state)
  }

  /** `goal_lifecycle`. */
  function GoalLifecycle(
    prior: Option<AgentRecord>, state: AgentState, observed: Option<GoalInfo>, now: nat): Option<GoalInfo>
  {
    var active := Active(state);
    var wasActive := prior.Some? && Active(prior.value.state);
    var previous := if prior.Some? then prior.value.goal else None;
    match observed
    case Some(goal) =>
      if goal.state.Pursuing? then Some(goal.(pending := false, observedAt := 0))
      else
        var (pending, observedAt, isNew) :=
          if NewOutcome(prior, goal) then (true, now, true)
          else if previous.Some? then (previous.value.pending, previous.value.observedAt, false)
          else (false, 0, false);
        Some(goal.(pending := pending && (isNew || !active || wasActive), observedAt := observedAt))
    case None =>
      match previous
      case Some(goal) =>
        if !Terminal(goal.state) then None
        else Some(if active && !wasActive then goal.(pending := false) else goal)
      case None => None
  }

  /** What the detectors report about one agent in one scan; `record` supplies
      every field the lifecycle functions do not compute. */
  datatype Sighting = Sighting(record: AgentRecord, goal: Option<GoalInfo>)

  /** The record a scan publishes for one sighting.  What is visible is seen, and an
      outcome pends only if it is first observed now or pended before. */
  function ScanRecord(prior: Option<AgentRecord>, s: Sighting, now: nat): (r: AgentRecord)
    ensures r.id == s.record.id && r.state == s.record.state && Consistent(r)
    ensures s.record.visible ==> r.seen
    ensures GoalPending(r) ==> !r.goal.value.state.Pursuing?
    ensures GoalPending(r) && r.goal.value.observedAt != now ==>
      prior.Some? && GoalPending(prior.value) && prior.value.goal.value.observedAt == r.goal.value.observedAt
  {
    var seen := NextSeen(prior, s.record.state, s.record.visible);
    s.record.(seen := seen, attention := AttentionOf(s.record.state, seen),
              goal := GoalLifecycle(prior, s.record.state, s.goal, now))
  }

  // ---------------------------------------------------------------- over many scans

  /** One agent through consecutive scans; `clock` gives the time of each. */
  function Watched(sightings: seq<Sighting>, clock: nat -> nat): Option<AgentRecord> {
    if sightings == [] then None
    else
      var n := |sightings| - 1;
      Some(ScanRecord(Watched(sightings[..n], clock), sightings[n], clock(n)))
  }

  /** Scan `i` shows the agent to the user, or there is nothing to look at yet. */
  predicate MakesSeen(sightings: seq<Sighting>, i: nat)
    requires i < |sightings|
  {
    i == 0 || sightings[i].record.visible || sightings[i].record.state.Working?
  }

  /** At scan `i` the agent stopped out of sight. */
  predicate MakesUnseen(sightings: seq<Sighting>, i: nat)
    requires i < |sightings|
  {
    !MakesSeen(sightings, i) && sightings[i].record.state.Idle? && Active(sightings[i - 1].record.state)
  }

  /** An agent counts as seen according to the last scan that decided it, so an
      idle one is Done exactly when it last stopped out of sight and has not been
      visible since. */
  lemma {:induction false} LastLookDecides(sightings: seq<Sighting>, clock: nat -> nat) returns (k: nat)
    requires sightings != []
    ensures k < |sightings| && (MakesSeen(sightings, k) || MakesUnseen(sightings, k))
    ensures forall j | k < j < |sightings| :: !MakesSeen(sightings, j) && !MakesUnseen(sightings, j)
    ensures Watched(sightings, clock).value.seen == MakesSeen(sightings, k)
    ensures var r := Watched(sightings, clock).value;
      r.state == sightings[|sightings| - 1].record.state
      && (r.attention == Attention.Done <==> r.state.Idle? && MakesUnseen(sightings, k))
    decreases |sightings|
  {
    var n := |sightings| - 1;
    if MakesSeen(sightings, n) || MakesUnseen(sightings, n) {
      k := n;
      if n > 0 { var _ := LastLookDecides(sightings[..n], clock); }
    } else {
      k := LastLookDecides(sightings[..n], clock);
      assert forall j | 0 <= j < n :: MakesSeen(sightings[..n], j) == MakesSeen(sightings, j);
      assert forall j | 0 <= j < n :: MakesUnseen(sightings[..n], j) == MakesUnseen(sightings, j);
    }
  }

  // ---------------------------------------------------------------- goals over many scans

  /** The goal known after the first `n` scans: what was detected last, and kept
      when nothing is detected unless it was still being pursued. */
  function KnownGoal(sightings: seq<Sighting>, n: nat): Option<(GoalState, GoalProgress)>
    requires n <= |sightings|
  {
    if n == 0 then None
    else
      var goal, known := sightings[n - 1].goal, KnownGoal(sightings, n - 1);
      if goal.Some? then Some((goal.value.state, goal.value.progress))
      else if known.Some? && known.value.0.Pursuing? then None
      else known
  }

  /** Scan `i` detects an outcome that was not known: another one than known before,
      or the first one of an agent that was active. */
  predicate Announces(sightings: seq<Sighting>, i: nat)
    requires i < |sightings|
  {
    && i > 0 && sightings[i].goal.Some? && !sightings[i].goal.value.state.Pursuing?
    && var known := KnownGoal(sightings, i);
       if known.Some? then known.value != (sightings[i].goal.value.state, sightings[i].goal.value.progress)
       else sightings[i - 1].record.state.Working? || sightings[i - 1].record.state.Blocked?
  }

  /** Scan `i` ends a pending outcome: a goal is pursued, or the agent turns active. */
  predicate Withdraws(sightings: seq<Sighting>, i: nat)
    requires i < |sightings|
  {
    || (sightings[i].goal.Some? && sightings[i].goal.value.state.Pursuing?)
    || ((sightings[i].record.state.Working? || sightings[i].record.state.Blocked?)
        && !(i > 0 && (sightings[i - 1].record.state.Working? || sightings[i - 1].record.state.Blocked?)))
  }

  lemma {:induction false} WatchedKnows(sightings: seq<Sighting>, clock: nat -> nat, n: nat)
    requires 0 < n <= |sightings|
    ensures var r := Watched(sightings[..n], clock).value;
      && r.state == sightings[n - 1].record.state
      && KnownGoal(sightings, n) ==
         (if r.goal.Some? then Some((r.goal.value.state, r.goal.value.progress)) else None)
  {
    assert sightings[..n][..n - 1] == sightings[..n - 1];
    if n > 1 { WatchedKnows(sightings, clock, n - 1); }
  }

  lemma AnnouncedIsNew(sightings: seq<Sighting>, clock: nat -> nat, i: nat)
    requires i < |sightings| && sightings[i].goal.Some?
    ensures NewOutcome(Watched(sightings[..i], clock), sightings[i].goal.value) <==> Announces(sightings, i)
  {
    if i > 0 { WatchedKnows(sightings, clock, i); }
  }

  /** The step of one scan. */
  lemma PendingStep(sightings: seq<Sighting>, clock: nat -> nat, i: nat)
    requires i < |sightings|
    ensures var r, before := Watched(sightings[..i + 1], clock).value, Watched(sightings[..i], clock);
      && (Announces(sightings, i) ==> GoalPending(r) && r.goal.value.observedAt == clock(i))
      && (!Announces(sightings, i) ==>
            (GoalPending(r) <==> before.Some? && GoalPending(before.value) && !Withdraws(sightings, i)))
      && (!Announces(sightings, i) && GoalPending(r) ==>
            r.goal.value.observedAt == before.value.goal.value.observedAt)
  {
    assert sightings[..i + 1][..i] == sightings[..i];
    if sightings[i].goal.Some? { AnnouncedIsNew(sightings, clock, i); }
    if i > 0 { WatchedKnows(sightings, clock, i); }
  }

  /** Over any number of scans an outcome is pending exactly when some scan announced
      it and none since withdrew it; it is dated by the last scan that did. */
  lemma {:induction false} PendingExactly(sightings: seq<Sighting>, clock: nat -> nat, n: nat) returns (k: nat)
    requires 0 < n <= |sightings|
    ensures GoalPending(Watched(sightings[..n], clock).value) ==>
      && k < n && Announces(sightings, k) && Watched(sightings[..n], clock).value.goal.value.observedAt == clock(k)
      && forall j | k < j < n :: !Announces(sightings, j) && !Withdraws(sightings, j)
    ensures !GoalPending(Watched(sightings[..n], clock).value) ==>
      forall i | 0 <= i < n && Announces(sightings, i) :: exists j :: i < j < n && Withdraws(sightings, j)
  {
    PendingStep(sightings, clock, n - 1);
    if n == 1 || Announces(sightings, n - 1) {
      k := n - 1;
      assert sightings[..0] == [];
    } else {
      k := PendingExactly(sightings, clock, n - 1);
    }
  }
}
