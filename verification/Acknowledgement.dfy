/** Acknowledgements: what the user has read, laid over every record
    (`apply_acknowledgements`, `acknowledge_records`, `acknowledgement_targets`
    of src/daemon.rs). */
module Acknowledgement {
  import opened Wrappers
  import opened AgentModel

  datatype Acks = Acks(completions: set<AgentId>, goals: map<AgentId, nat>)

  /** The terminal outcome a record carries, by the time it was first observed. */
  function Outcome(r: AgentRecord): Option<nat> {
    if r.goal.Some? && Terminal(r.goal.value.state) && r.goal.value.observedAt > 0
    then Some(r.goal.value.observedAt) else None
  }

  predicate PursuesGoal(r: AgentRecord) { r.goal.Some? && r.goal.value.state.Pursuing? }

  function AckedOutcome(acks: Acks, id: AgentId): Option<nat> {
    if id in acks.goals then Some(acks.goals[id]) else None
  }

  predicate MatchesAck(r: AgentRecord, acks: Acks) {
    Outcome(r).Some? && Outcome(r) == AckedOutcome(acks, r.id)
  }

  /** This report ends the acknowledgement of its agent. */
  predicate Clears(r: AgentRecord, acks: Acks) {
    if PursuesGoal(r) then true
    else if Active(r.state) then !(MatchesAck(r, acks) && GoalPending(r))
    else
      || (Outcome(r).Some? && AckedOutcome(acks, r.id).Some? && Outcome(r) != AckedOutcome(acks, r.id))
      || (Outcome(r).Some? && GoalPending(r) && AckedOutcome(acks, r.id).None? && r.id in acks.completions)
  }

  function ClearPending(r: AgentRecord): AgentRecord {
    if r.goal.Some? then r.(goal := Some(r.goal.value.(pending := false))) else r
  }

  /** The record as shown under the acknowledgements it finds. */
  function Overlay(r: AgentRecord, acks: Acks): (o: AgentRecord)
    ensures o.id == r.id && o.state == r.state && (Consistent(r) ==> Consistent(o))
  {
    var shown := if PursuesGoal(r) || MatchesAck(r, acks) then ClearPending(r) else r;
    if r.state.Idle? && r.id in acks.completions && !Clears(r, acks)
    then shown.(seen := true, attention := Attention.Idle) else shown
  }

  function Forget(acks: Acks, id: AgentId): Acks {
    Acks(acks.completions - {id}, acks.goals - {id})
  }

  /** Acknowledgements left after these reports. */
  ghost function AcksAfter(agents: seq<AgentRecord>, acks: Acks): Acks {
    var cleared := set r | r in agents && Clears(r, acks) :: r.id;
    Acks(acks.completions - cleared, acks.goals - cleared)
  }

  /** `apply_acknowledgements`: one pass over the records, each forgetting or
      showing its own acknowledgement. */
  method ApplyAcknowledgements(agents: seq<AgentRecord>, acks: Acks)
    returns (shown: seq<AgentRecord>, left: Acks, changed: bool)
    requires DistinctIds(agents)
    ensures |shown| == |agents| && forall i | 0 <= i < |agents| :: shown[i] == Overlay(agents[i], acks)
    ensures left == AcksAfter(agents, acks)
    ensures changed <==> left != acks
  {
    shown, left := [], acks;
    assert AcksAfter([], acks) == acks;
    for i := 0 to |agents|
      invariant |shown| == i && forall k | 0 <= k < i :: shown[k] == Overlay(agents[k], acks)
      invariant left == AcksAfter(agents[..i], acks)
    {
      var agent := agents[i];
      ghost var before := left;
      UntouchedSoFar(agents, i, acks);
      var pursuing := PursuesGoal(agent);
      var matches := MatchesAck(agent, left);
      if pursuing {
        shown, left := shown + [ClearPending(agent)], Forget(left, agent.id);
      } else if Active(agent.state) {
        if matches && GoalPending(agent) {
          shown := shown + [ClearPending(agent)];
        } else {
          left := Forget(left, agent.id);
          shown := shown + [agent];
          if matches { assert ClearPending(agent) == agent; }
        }
      } else {
        var outcome, acked := Outcome(agent), AckedOutcome(left, agent.id);
        var newGoal := outcome.Some?
          && ((acked.Some? && outcome != acked)
              || (acked.None? && GoalPending(agent) && agent.id in left.completions));
        if newGoal {
          left := Forget(left, agent.id);
        } else if matches {
          agent := ClearPending(agent);
        }
        if agent.id in left.completions && agent.state.Idle? {
          agent := agent.(seen := true, attention := Attention.Idle);
        }
        shown := shown + [agent];
      }
      assert agents[..i + 1] == agents[..i] + [agents[i]];
      AcksAfterOne(agents[..i], agents[i], acks);
    }
    assert agents[..|agents|] == agents;
    changed := left.completions != acks.completions || left.goals != acks.goals;
  }

  /** Earlier records never touch the acknowledgement of a later one. */
  lemma UntouchedSoFar(agents: seq<AgentRecord>, i: nat, acks: Acks)
    requires DistinctIds(agents) && i < |agents|
    ensures var left := AcksAfter(agents[..i], acks); var id := agents[i].id;
      && (id in left.completions <==> id in acks.completions)
      && AckedOutcome(left, id) == AckedOutcome(acks, id)
  {
  }

  lemma AcksAfterOne(agents: seq<AgentRecord>, r: AgentRecord, acks: Acks)
    ensures AcksAfter(agents + [r], acks)
            == if Clears(r, acks) then Forget(AcksAfter(agents, acks), r.id) else AcksAfter(agents, acks)
  {
    var before := set x | x in agents && Clears(x, acks) :: x.id;
    var after := set x | x in agents + [r] && Clears(x, acks) :: x.id;
    assert after == if Clears(r, acks) then before + {r.id} else before;
  }

  // ---------------------------------------------------------------- acknowledging

  datatype AckResult = AckResult(found: bool, persistCompletion: bool, goal: Option<nat>)

  const NOT_FOUND := AckResult(false, false, None)

  function AckedRecord(r: AgentRecord): (o: AgentRecord)
    ensures o.id == r.id && o.state == r.state && (Consistent(r) ==> Consistent(o))
  {
    ClearPending(r.(seen := true, attention := if r.state.Idle? then Attention.Idle else r.attention))
  }

  function AckResultOf(r: AgentRecord): AckResult {
    var goal := if GoalPending(r) && r.goal.value.observedAt > 0 then Some(r.goal.value.observedAt) else None;
    AckResult(true, r.state.Idle? || goal.Some?, goal)
  }

  /** `acknowledge_records`: marks the record with this ID, if there is one. */
  method AcknowledgeRecords(agents: seq<AgentRecord>, target: AgentId)
    returns (marked: seq<AgentRecord>, result: AckResult)
    requires DistinctIds(agents)
    ensures marked == Marked(agents, {target})
    ensures result == match RecordOf(agents, target) case Some(r) => AckResultOf(r) case None => NOT_FOUND
  {
    for i := 0 to |agents|
      invariant forall k | 0 <= k < i :: agents[k].id != target
    {
      if agents[i].id == target {
        RecordAt(agents, i);
        marked, result := agents[i := AckedRecord(agents[i])], AckResultOf(agents[i]);
        assert marked == Marked(agents, {target});
        return;
      }
    }
    assert agents == Marked(agents, {target});
    return agents, NOT_FOUND;
  }

  /** The records with every target acknowledged. */
  function Marked(agents: seq<AgentRecord>, targets: set<AgentId>): seq<AgentRecord> {
    seq(|agents|, i requires 0 <= i < |agents| => if agents[i].id in targets then AckedRecord(agents[i]) else agents[i])
  }

  /** A finished turn or a finished goal the user has not looked at. */
  predicate Unread(r: AgentRecord) {
    || (r.state.Idle? && r.attention == Attention.Done)
    || (!Active(r.state) && r.goal.Some? && Terminal(r.goal.value.state) && r.goal.value.pending)
  }

  /** `acknowledgement_targets`. */
  function Targets(agents: seq<AgentRecord>): (ids: seq<AgentId>)
    ensures forall id :: id in ids <==> exists r :: r in agents && Unread(r) && r.id == id
  {
    if agents == [] then []
    else
      assert agents == [agents[0]] + agents[1..];
      (if Unread(agents[0]) then [agents[0].id] else []) + Targets(agents[1..])
  }
}
