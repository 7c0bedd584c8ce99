/** Confirming that an agent went idle before saying so (src/detect/stabilize.rs). */
module Stabilize {
  import opened Wrappers
  import opened AgentModel

  datatype Source = FromScreen | FromProcess | FromTitle | NoSource
  datatype Freshness = Fresh | Replayed

  datatype Details = Details(inferred: bool, preservePrevious: bool, transition: Option<string>)

  datatype Detection = Detection(
    agent: string, state: AgentState, source: Source, goal: Option<GoalInfo>, details: Option<Details>)
  {
    predicate Preserves() { details.Some? && details.value.preservePrevious }

    predicate InferredIdle() { state.Idle? && details.Some? && details.value.inferred }

    /** `hold`: keep showing what was shown, and say why. */
    function Held(state: AgentState, source: Source, reason: string): Detection {
      this.(state := state, source := source,
            details := if details.None? then None else Some(details.value.(transition := Some(reason))))
    }
  }

  /** What stabilisation reads of an agent's previous record. */
  datatype Prior = Prior(agent: string, state: AgentState, source: Source, goal: Option<GoalInfo>)

  /** The tracker's memory of one agent ID. */
  datatype Observation = Observation(identity: string, pendingIdle: Option<nat>)

  datatype Call = Call(identity: string, detection: Detection, freshness: Freshness) {
    /** Idle only by inference, and not a request to keep the previous state. */
    predicate Quiet() { detection.InferredIdle() && !detection.Preserves() }
  }

  const REQUIRED_IDLE_OBSERVATIONS: nat := 2
  const PRESERVED_REASON: string := "preserved_previous_observation"
  const FRESH_REASON: string := "waiting_for_fresh_quiet_observation"
  const SECOND_REASON: string := "waiting_for_second_quiet_observation"

  /** The result of one call: the shown detection and the count left behind. */
  datatype Verdict = Verdict(detection: Detection, pendingIdle: Option<nat>)

  function Relevant(kept: Option<Observation>, previous: Option<Prior>, call: Call): Option<Prior> {
    if kept.Some? && kept.value.identity != call.identity then None
    else if previous.Some? && previous.value.agent == call.detection.agent then previous
    else None
  }

  function Pending(kept: Option<Observation>, call: Call): Option<nat> {
    if kept.Some? && kept.value.identity == call.identity then kept.value.pendingIdle else None
  }

  function Judge(kept: Option<Observation>, previous: Option<Prior>, call: Call): Verdict {
    var relevant := Relevant(kept, previous, call);
    var d := call.detection;
    if d.Preserves() then
      var goal := if d.goal.None? && relevant.Some? then relevant.value.goal else d.goal;
      var (state, source) :=
        if relevant.Some? then (relevant.value.state, relevant.value.source) else (AgentState.Idle, FromProcess);
      Verdict(d.(goal := goal).Held(state, source, d.details.value.transition.GetOr(PRESERVED_REASON)), None)
    else if !d.InferredIdle() || relevant.None? || !Active(relevant.value.state) then Verdict(d, None)
    else if call.freshness.Replayed? then
      Verdict(d.Held(relevant.value.state, relevant.value.source, FRESH_REASON), Pending(kept, call))
    else
      var count := Pending(kept, call).GetOr(0) + 1;
      if count >= REQUIRED_IDLE_OBSERVATIONS then Verdict(d, None)
      else Verdict(d.Held(relevant.value.state, relevant.value.source, SECOND_REASON), Some(count))
  }

  class StateTracker {
    var observations: map<string, Observation>

    constructor ()
      ensures observations == map[]
    {
      observations := map[];
    }

    function Kept(id: string): Option<Observation>
      reads this
    {
      if id in observations then Some(observations[id]) else None
    }

    /** `stabilize_observation`. */
    method StabilizeObservation(
      id: string, identity: string, detection: Detection, previous: Option<Prior>, freshness: Freshness)
      returns (shown: Detection)
      modifies this
      ensures shown == Judge(old(Kept(id)), previous, Call(identity, detection, freshness)).detection
      ensures observations == old(observations)[id :=
        Observation(identity, Judge(old(Kept(id)), previous, Call(identity, detection, freshness)).pendingIdle)]
    {
      shown := detection;
      if id !in observations { observations := observations[id := Observation(identity, None)]; }
      var changed := observations[id].identity != identity;
      if changed { observations := observations[id := Observation(identity, None)]; }
      var prior := if changed || previous.None? || previous.value.agent != shown.agent then None else previous;
      if shown.details.Some? && shown.details.value.preservePrevious {
        observations := observations[id := observations[id].(pendingIdle := None)];
        if shown.goal.None? && prior.Some? { shown := shown.(goal := prior.value.goal); }
        var reason := shown.details.value.transition.GetOr(PRESERVED_REASON);
        if prior.Some? { shown := shown.Held(prior.value.state, prior.value.source, reason); }
        else { shown := shown.Held(AgentState.Idle, FromProcess, reason); }
        return;
      }
      var inferredIdle := shown.state.Idle? && shown.details.Some? && shown.details.value.inferred;
      if !inferredIdle || prior.None? || !Active(prior.value.state) {
        observations := observations[id := observations[id].(pendingIdle := None)];
        return;
      }
      if freshness.Replayed? {
        shown := shown.Held(prior.value.state, prior.value.source, FRESH_REASON);
        return;
      }
      if observations[id].pendingIdle.None? {
        observations := observations[id := observations[id].(pendingIdle := Some(0))];
      }
      var count := observations[id].pendingIdle.value + 1;
      observations := observations[id := observations[id].(pendingIdle := Some(count))];
      if count >= REQUIRED_IDLE_OBSERVATIONS {
        observations := observations[id := observations[id].(pendingIdle := None)];
        return;
      }
      shown := shown.Held(prior.value.state, prior.value.source, SECOND_REASON);
    }

    /** `retain`. */
    method Retain(live: set<string>)
      modifies this
      ensures observations.Keys == old(observations).Keys * live
      ensures forall id | id in observations :: observations[id] == old(observations)[id]
    {
      observations := map id | id in observations && id in live :: observations[id];
    }
  }

  // ---------------------------------------------------------------- runs

  /** One agent ID after some calls, each given the last shown detection. */
  datatype Tracked = Tracked(kept: Option<Observation>, last: Option<Prior>)

  function AsPrior(d: Detection): Prior {
    Prior(d.agent, d.state, d.source, d.goal)
  }

  function Next(t: Tracked, call: Call): Tracked {
    var verdict := Judge(t.kept, t.last, call);
    Tracked(Some(Observation(call.identity, verdict.pendingIdle)), Some(AsPrior(verdict.detection)))
  }

  function After(start: Tracked, calls: seq<Call>): Tracked {
    if calls == [] then start else Next(After(start, calls[..|calls| - 1]), calls[|calls| - 1])
  }

  /** Fresh quiet observations since the last call of another kind. */
  function QuietCount(calls: seq<Call>): nat {
    if calls == [] || !calls[|calls| - 1].Quiet() then 0
    else QuietCount(calls[..|calls| - 1]) + (if calls[|calls| - 1].freshness.Fresh? then 1 else 0)
  }

  /** All calls are about one process of one agent. */
  ghost predicate OneIdentity(calls: seq<Call>, identity: string, agent: string) {
    forall c | c in calls :: c.identity == identity && c.detection.agent == agent
  }

  /** A tracker that knows nothing of the ID; a record may survive from before. */
  ghost predicate Unobserved(start: Tracked, agent: string) {
    start.kept.None? && (start.last.Some? ==> start.last.value.agent == agent)
  }

  /** While an agent is shown active the tracker's count is the number of fresh
      quiet observations since anything else was seen. */
  lemma {:induction false} CountIsQuietCount(start: Tracked, calls: seq<Call>, identity: string, agent: string)
    requires Unobserved(start, agent) && OneIdentity(calls, identity, agent)
    ensures var t := After(start, calls);
      && (calls != [] ==> t.kept.Some? && t.kept.value.identity == identity)
      && (t.last.Some? ==> t.last.value.agent == agent)
      && (t.kept.Some? && t.last.Some? && Active(t.last.value.state) ==>
            t.kept.value.pendingIdle.GetOr(0) == QuietCount(calls) < REQUIRED_IDLE_OBSERVATIONS)
      && (t.kept.Some? && !(t.last.Some? && Active(t.last.value.state)) ==> t.kept.value.pendingIdle.None?)
    decreases |calls|
  {
    if calls != [] {
      var n := |calls| - 1;
      assert calls[n] in calls && forall c | c in calls[..n] :: c in calls;
      CountIsQuietCount(start, calls[..n], identity, agent);
    }
  }

  /** One quiet observation of an agent shown active. */
  lemma QuietStep(t: Tracked, call: Call)
    requires t.kept.Some? ==> t.kept.value.identity == call.identity
    requires t.last.Some? && t.last.value.agent == call.detection.agent && Active(t.last.value.state) && call.Quiet()
    ensures var count := Pending(t.kept, call).GetOr(0) + (if call.freshness.Fresh? then 1 else 0);
      var shown := Judge(t.kept, t.last, call).detection;
      if call.freshness.Fresh? && count >= 2 then shown == call.detection
      else shown.state == t.last.value.state && shown.source == t.last.value.source
  {
  }

  lemma AfterOneMore(start: Tracked, calls: seq<Call>, call: Call)
    ensures After(start, calls + [call]) == Next(After(start, calls), call)
    ensures QuietCount(calls + [call]) ==
      if call.Quiet() then QuietCount(calls) + (if call.freshness.Fresh? then 1 else 0) else 0
  {
    assert (calls + [call])[..|calls|] == calls;
  }

  /** An agent shown active turns idle on inferred evidence exactly at the second
      fresh quiet observation since the last observation of another kind; until
      then it is shown as before, and replays neither count nor reset. */
  lemma SecondFreshQuietTurnsIdle(start: Tracked, calls: seq<Call>, call: Call, agent: string)
    requires Unobserved(start, agent) && OneIdentity(calls + [call], call.identity, agent) && call.Quiet()
    requires var before := After(start, calls).last; before.Some? && Active(before.value.state)
    ensures var before, after := After(start, calls).last.value, After(start, calls + [call]).last.value;
      if QuietCount(calls + [call]) == 2 then after == AsPrior(call.detection)
      else after.state == before.state && after.source == before.source
  {
    assert call in calls + [call] && forall c | c in calls :: c in calls + [call];
    CountIsQuietCount(start, calls, call.identity, agent);
    AfterOneMore(start, calls, call);
    QuietStep(After(start, calls), call);
  }

  /** Evidence that is not inferred is shown at once and restarts the count; a
      request to preserve shows the previous state and restarts it too. */
  lemma OtherKindsRestartTheCount(start: Tracked, calls: seq<Call>, call: Call, agent: string)
    requires Unobserved(start, agent) && OneIdentity(calls + [call], call.identity, agent) && !call.Quiet()
    ensures var before, after := After(start, calls), After(start, calls + [call]);
      && after.kept == Some(Observation(call.identity, None)) && QuietCount(calls + [call]) == 0
      && (!call.detection.Preserves() ==> after.last == Some(AsPrior(call.detection)))
      && (call.detection.Preserves() && before.last.Some? ==>
            after.last.value.state == before.last.value.state && after.last.value.source == before.last.value.source)
  {
    assert call in calls + [call] && forall c | c in calls :: c in calls + [call];
    CountIsQuietCount(start, calls, call.identity, agent);
    AfterOneMore(start, calls, call);
  }

  /** A request to preserve shows the previous state and evidence, or an idle process
      if there is none to keep; the goal is the previous one unless one is seen. */
  lemma PreservingShows(start: Tracked, calls: seq<Call>, call: Call, agent: string)
    requires Unobserved(start, agent) && OneIdentity(calls + [call], call.identity, agent) && call.detection.Preserves()
    ensures var before, t := After(start, calls).last, After(start, calls);
      var shown := Judge(t.kept, t.last, call).detection;
      && After(start, calls + [call]).last == Some(AsPrior(shown))
      && shown == call.detection.(state := shown.state, source := shown.source, goal := shown.goal,
                                  details := shown.details)
      && (before.Some? ==> shown.state == before.value.state && shown.source == before.value.source)
      && (before.None? ==> shown.state.Idle? && shown.source.FromProcess?)
      && (call.detection.goal.Some? ==> shown.goal == call.detection.goal)
      && (call.detection.goal.None? ==> shown.goal == if before.Some? then before.value.goal else None)
      && shown.details == Some(call.detection.details.value.(transition := Some(
           if call.detection.details.value.transition.Some? then call.detection.details.value.transition.value
           else "preserved_previous_observation")))
  {
    assert call in calls + [call] && forall c | c in calls :: c in calls + [call];
    CountIsQuietCount(start, calls, call.identity, agent);
    AfterOneMore(start, calls, call);
  }

  /** Quiet evidence about an agent that is not shown active is shown as it is; and
      while it is held back for one that is, the reason says for what. */
  lemma QuietShows(start: Tracked, calls: seq<Call>, call: Call, agent: string)
    requires Unobserved(start, agent) && OneIdentity(calls + [call], call.identity, agent) && call.Quiet()
    ensures var before, t := After(start, calls).last, After(start, calls);
      var shown := Judge(t.kept, t.last, call).detection;
      && (before.None? || !Active(before.value.state) ==> shown == call.detection)
      && shown.goal == call.detection.goal && shown.agent == call.detection.agent
      && (before.Some? && Active(before.value.state) && QuietCount(calls + [call]) < 2 ==>
            shown.details.Some? && shown.details.value.transition == Some(
              if call.freshness.Fresh? then "waiting_for_second_quiet_observation"
              else "waiting_for_fresh_quiet_observation"))
  {
    assert call in calls + [call] && forall c | c in calls :: c in calls + [call];
    CountIsQuietCount(start, calls, call.identity, agent);
    AfterOneMore(start, calls, call);
  }

  /** A record of another agent is no previous record. */
  lemma OtherAgentInheritsNothing(kept: Option<Observation>, last: Prior, call: Call)
    requires last.agent != call.detection.agent
    ensures Judge(kept, Some(last), call) == Judge(kept, None, call)
    ensures !call.detection.Preserves() ==> Judge(kept, Some(last), call) == Verdict(call.detection, None)
  {
  }

  /** From the call at which the process changes on, nothing of the past matters. */
  lemma {:induction false} IdentityChangeInheritsNothing(start: Tracked, calls: seq<Call>, rest: seq<Call>)
    requires calls != [] && rest != [] && calls[|calls| - 1].identity != rest[0].identity
    ensures After(start, calls + rest) == After(Tracked(None, None), rest)
    decreases |rest|
  {
    var all := calls + rest;
    var n := |rest| - 1;
    assert all[..|all| - 1] == calls + rest[..n] && all[|all| - 1] == rest[n];
    if n == 0 {
      assert calls + rest[..0] == calls;
      assert After(start, all) == Next(After(start, calls), rest[0]);
      assert rest[..0] == [];
    } else {
      IdentityChangeInheritsNothing(start, calls, rest[..n]);
    }
  }
}
