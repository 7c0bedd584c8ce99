/** When a finished agent must be shown as Done: the converse of DaemonRuns. */
module DoneRuns {
  import opened Wrappers
  import opened AgentModel
  import opened Acknowledgement
  import opened Transports
  import opened Daemon
  import opened DaemonRuns

  // ---------------------------------------------------------------- what is remembered as read

  /** There is something to remember: a finished turn, or a dated outcome pending. */
  predicate Memorable(r: AgentRecord) {
    r.state.Idle? || (r.goal.Some? && r.goal.value.pending && r.goal.value.observedAt > 0)
  }

  /** The operation acknowledges the agent and that is remembered. */
  ghost predicate Remembers(d: State, op: Op, id: AgentId) {
    id in Acknowledges(d, op) && Stored(d, id).Some? && Memorable(Stored(d, id).value)
  }

  /** Acknowledging remembers exactly the memorable targets, with the time of the
      outcome that was pending, whether or not it could be saved. */
  lemma RemembersExactly(d: State, op: Op, t: State, id: AgentId)
    requires Valid(d) && (op.Acknowledge? || op.MarkAllRead?) && Step(d, op, t)
    ensures id in t.acks.completions <==> id in d.acks.completions || Remembers(d, op, id)
    ensures AckedOutcome(t.acks, id) ==
      if id in Acknowledges(d, op) && Stored(d, id).Some? && GoalPending(Stored(d, id).value)
         && Stored(d, id).value.goal.value.observedAt > 0
      then Some(Stored(d, id).value.goal.value.observedAt) else AckedOutcome(d.acks, id)
  {
    MarkedRemembers(d, Acknowledges(d, op), id);
    MarkedDates(d, Acknowledges(d, op), id);
    AcksAfterMarking(d, op, t);
  }

  /** An operation that acknowledges nothing changes nothing. */
  lemma AcksAfterMarking(d: State, op: Op, t: State)
    requires (op.Acknowledge? || op.MarkAllRead?) && Step(d, op, t)
    ensures t.acks == Acknowledged(d, Acknowledges(d, op)).acks
      || (t.acks == d.acks && forall id | id in Acknowledges(d, op) :: Stored(d, id).None?)
  {
  }

  lemma MarkedRemembers(d: State, targets: set<AgentId>, id: AgentId)
    requires Valid(d)
    ensures id in Acknowledged(d, targets).acks.completions <==>
      id in d.acks.completions || (id in targets && Stored(d, id).Some? && Memorable(Stored(d, id).value))
  {
  }

  lemma MarkedDates(d: State, targets: set<AgentId>, id: AgentId)
    ensures AckedOutcome(Acknowledged(d, targets).acks, id) ==
      if id in targets && Stored(d, id).Some? && GoalPending(Stored(d, id).value)
         && Stored(d, id).value.goal.value.observedAt > 0
      then Some(Stored(d, id).value.goal.value.observedAt) else AckedOutcome(d.acks, id)
  {
  }

  /** An acknowledged record is seen and has nothing pending, and is otherwise as before. */
  lemma AcknowledgingMarks(d: State, op: Op, t: State, id: AgentId)
    requires Valid(d) && Step(d, op, t) && id in Acknowledges(d, op) && Stored(d, id).Some?
    ensures Stored(t, id).Some? && var r, q := Stored(d, id).value, Stored(t, id).value;
      && q == r.(seen := true, attention := AttentionOf(r.state, true), goal := q.goal)
      && (r.goal.None? ==> q.goal.None?)
      && (r.goal.Some? ==> q.goal == Some(r.goal.value.(pending := false)))
  {
    StoredAfterMarking(d, Acknowledges(d, op), id);
    StoredIsConsistent(d, id);
    MarksStored(d, op, t, id);
  }

  lemma MarksStored(d: State, op: Op, t: State, id: AgentId)
    requires Step(d, op, t) && id in Acknowledges(d, op) && Stored(d, id).Some?
    ensures Stored(t, id) == Stored(Acknowledged(d, Acknowledges(d, op)), id)
  {
    var marked := Acknowledged(d, Acknowledges(d, op));
    assert t == marked.(revision := t.revision, heading := t.heading);
  }

  lemma StoredIsConsistent(d: State, id: AgentId)
    requires Valid(d) && Stored(d, id).Some?
    ensures Consistent(Stored(d, id).value)
  {
    if id.RemoteId? { assert ValidRemote(id.alias, d.remotes[id.alias]); }
  }

  /** A report that reopens an agent makes the daemon forget its acknowledgement. */
  lemma ReopeningFrees(d: State, op: Op, t: State, id: AgentId)
    requires Step(d, op, t) && Reopens(d, op, id)
    ensures id !in t.acks.completions && AckedOutcome(t.acks, id).None?
  {
    var agents := if op.PublishLocal? then op.agents else NamespacedAll(op.alias, op.agents);
    assert t.acks == AcksAfter(agents, d.acks);
    assert RecordOf(agents, id).value in agents;
  }

  lemma StepKeepsFree(d: State, op: Op, t: State, id: AgentId)
    requires Valid(d) && Step(d, op, t) && id !in d.acks.completions && !Remembers(d, op, id)
    ensures id !in t.acks.completions
  {
    if op.Acknowledge? || op.MarkAllRead? { RemembersExactly(d, op, t, id); }
  }

  /** The agent was not acknowledged at the start, or was reopened by operation
      `k`, and no later operation of the run remembers it. */
  ghost predicate FreeSince(states: seq<State>, ops: seq<Op>, id: AgentId, k: nat)
    requires |states| == |ops| + 1
  {
    && ((k == 0 && id !in states[0].acks.completions) || (k < |ops| && Reopens(states[k], ops[k], id)))
    && forall i | k <= i < |ops| :: !Remembers(states[i], ops[i], id)
  }

  lemma StepAt(states: seq<State>, ops: seq<Op>, i: nat)
    requires IsRun(states, ops) && Valid(states[0]) && i < |ops|
    ensures Valid(states[i]) && Admissible(ops[i]) && Step(states[i], ops[i], states[i + 1]) && Valid(states[i + 1])
  {
    assert IsRun(states[..i + 1], ops[..i]);
    RunKeepsValid(states[..i + 1], ops[..i]);
    StepKeepsValid(states[i], ops[i], states[i + 1]);
  }

  lemma {:induction false} FreeAfter(states: seq<State>, ops: seq<Op>, id: AgentId, k: nat, n: nat)
    requires IsRun(states, ops) && Valid(states[0]) && FreeSince(states, ops, id, k) && k < n <= |ops|
    ensures id !in states[n].acks.completions
    decreases n
  {
    var j := n - 1;
    StepAt(states, ops, j);
    if j > k { FreeAfter(states, ops, id, k, j); }
    if j == k && Reopens(states[k], ops[k], id) {
      ReopeningFrees(states[k], ops[k], states[n], id);
    } else {
      StepKeepsFree(states[j], ops[j], states[n], id);
    }
  }

  // ---------------------------------------------------------------- reports that must be shown

  /** The operation replaces or drops the records of the agent's origin. */
  predicate Replaces(op: Op, id: AgentId) {
    match op
    case PublishLocal(_, _, _) => id.LocalId?
    case PublishRemote(alias, _) => id.RemoteId? && id.alias == alias
    case PeerError(alias) => id.RemoteId? && id.alias == alias
    case _ => false
  }

  /** Operation `m` is the last of the run to report the agent's origin, and reports
      the agent as idle. */
  ghost predicate LastReport(ops: seq<Op>, id: AgentId, m: nat) {
    && m < |ops| && Reported(ops[m], id).Some? && Reported(ops[m], id).value.state.Idle?
    && forall i | m < i < |ops| :: !Replaces(ops[i], id)
  }

  /** How a report is shown: its goal is not pending when it is pursued or when its
      outcome was acknowledged, an acknowledged idle agent may count as seen, and
      nothing else changes. */
  predicate ShownFrom(r: AgentRecord, acks: Acks, q: AgentRecord) {
    && q == r.(seen := q.seen, attention := q.attention, goal := q.goal)
    && ((q.seen == r.seen && q.attention == r.attention)
        || (r.state.Idle? && r.id in acks.completions && q.seen && q.attention == Attention.Idle))
    && (r.goal.None? ==> q.goal.None?)
    && (r.goal.Some? ==>
          q.goal == Some(r.goal.value.(pending := r.goal.value.pending && !r.goal.value.state.Pursuing?
            && !(r.goal.value.observedAt > 0 && r.id in acks.goals && acks.goals[r.id] == r.goal.value.observedAt))))
  }

  lemma ReportIsShown(d: State, op: Op, t: State, id: AgentId)
    requires Admissible(op) && Step(d, op, t) && Reported(op, id).Some?
    ensures Reported(op, id).value.id == id
    ensures Stored(t, id).Some? && ShownFrom(Reported(op, id).value, d.acks, Stored(t, id).value)
  {
    ReportIsOverlaid(d, op, t, id);
    OverlayShows(Reported(op, id).value, d.acks);
  }

  lemma OverlayShows(r: AgentRecord, acks: Acks)
    ensures ShownFrom(r, acks, Overlay(r, acks))
  {
  }

  /** The first snapshot after a restart is shown in the same way under the persisted
      acknowledgements. */
  lemma StartIsShown(first: Op, persisted: Acks, id: AgentId)
    requires first.PublishLocal? && Reported(first, id).Some?
    ensures var d := Started(first.agents, first.transports, first.heading, persisted);
      RecordOf(d.local, id).Some? && ShownFrom(Reported(first, id).value, persisted, RecordOf(d.local, id).value)
  {
    OverlaidRecordOf(first.agents, persisted, id);
    OverlayShows(Reported(first, id).value, persisted);
  }

  lemma ReportIsOverlaid(d: State, op: Op, t: State, id: AgentId)
    requires Step(d, op, t) && Reported(op, id).Some? && Admissible(op)
    ensures Reported(op, id).value.id == id && Stored(t, id) == Some(Overlay(Reported(op, id).value, d.acks))
  {
    var agents := if op.PublishLocal? then op.agents else NamespacedAll(op.alias, op.agents);
    assert Reported(op, id).value in agents;
    OverlaidRecordOf(agents, d.acks, id);
    StoredAfterPublication(d, op, t, id);
  }

  /** What a report of an idle agent leaves when nothing is acknowledged. */
  lemma ReportIsStored(d: State, op: Op, t: State, id: AgentId)
    requires Valid(d) && Admissible(op) && Step(d, op, t) && Reported(op, id).Some?
    requires Reported(op, id).value.state.Idle?
    requires id !in d.acks.completions || Reopens(d, op, id)
    ensures Stored(t, id).Some? && Stored(t, id).value == Reported(op, id).value.(goal := Stored(t, id).value.goal)
  {
    ReportIsOverlaid(d, op, t, id);
    FreeOverlay(Reported(op, id).value, d.acks);
  }

  /** The overlay leaves a record that is not acknowledged, but for its goal, as it is. */
  lemma FreeOverlay(r: AgentRecord, acks: Acks)
    requires r.id !in acks.completions || Clears(r, acks)
    ensures Overlay(r, acks) == r.(goal := Overlay(r, acks).goal)
  {
  }

  /** Nothing else than its reports and acknowledgements changes a stored record. */
  lemma OthersKeepStored(d: State, op: Op, t: State, id: AgentId)
    requires Step(d, op, t) && !Replaces(op, id) && id !in Acknowledges(d, op)
    ensures Stored(t, id) == Stored(d, id)
  {
    match op
    case PublishLocal(_, _, _) => StoredAfterPublication(d, op, t, id);
    case PublishRemote(_, _) => StoredAfterPublication(d, op, t, id);
    case PeerError(_) =>
    case Acknowledge(_, _) => AcknowledgingKeepsOthers(d, op, t, id);
    case MarkAllRead(_) => AcknowledgingKeepsOthers(d, op, t, id);
    case MarkUsed(_, _) =>
  }

  lemma AcknowledgingKeepsOthers(d: State, op: Op, t: State, id: AgentId)
    requires Step(d, op, t) && (op.Acknowledge? || op.MarkAllRead?) && id !in Acknowledges(d, op)
    ensures Stored(t, id) == Stored(d, id)
  {
    var marked := Acknowledged(d, Acknowledges(d, op));
    StoredAfterMarking(d, Acknowledges(d, op), id);
    assert t == d || t == marked.(revision := t.revision, heading := t.heading);
    assert Stored(t, id) in {Stored(d, id), Stored(marked, id)};
  }

  lemma FreeAt(states: seq<State>, ops: seq<Op>, id: AgentId, k: nat, m: nat)
    requires IsRun(states, ops) && Valid(states[0]) && FreeSince(states, ops, id, k) && k <= m < |ops|
    ensures id !in states[m].acks.completions || Reopens(states[m], ops[m], id)
  {
    if k < m { FreeAfter(states, ops, id, k, m); }
  }

  /** The last report of an idle agent stays as it is, but for its goal, until it
      is acknowledged. */
  lemma {:induction false} ReportStays(states: seq<State>, ops: seq<Op>, id: AgentId, k: nat, m: nat, n: nat)
    requires IsRun(states, ops) && Valid(states[0]) && FreeSince(states, ops, id, k) && k <= m && LastReport(ops, id, m)
    requires m < n <= |ops|
    ensures var d, r := states[n], Reported(ops[m], id).value;
      Stored(d, id).Some? && Stored(d, id).value == r.(goal := Stored(d, id).value.goal)
    decreases n
  {
    var j := n - 1;
    if m == j {
      FreeAt(states, ops, id, k, m);
      StepAt(states, ops, m);
      ReportIsStored(states[m], ops[m], states[n], id);
    } else {
      ReportStays(states, ops, id, k, m, j);
      QuietStep(states, ops, id, k, m, j);
      OthersKeepStored(states[j], ops[j], states[n], id);
    }
  }

  /** After the last report of an idle agent no operation touches its record. */
  lemma QuietStep(states: seq<State>, ops: seq<Op>, id: AgentId, k: nat, m: nat, j: nat)
    requires IsRun(states, ops) && Valid(states[0]) && FreeSince(states, ops, id, k) && k <= m && LastReport(ops, id, m)
    requires m < j < |ops| && Stored(states[j], id).Some? && Stored(states[j], id).value.state.Idle?
    ensures Valid(states[j]) && Step(states[j], ops[j], states[j + 1])
    ensures !Replaces(ops[j], id) && id !in Acknowledges(states[j], ops[j])
  {
    StepAt(states, ops, j);
    assert !Remembers(states[j], ops[j], id);
  }

  /** Over every run: an idle agent last reported as Done is published as Done,
      unless it was acknowledged after the start or after the last report that
      reopened it, or one transport shows it. */
  lemma UnacknowledgedIsDone(states: seq<State>, ops: seq<Op>, id: AgentId, k: nat, m: nat)
    requires IsRun(states, ops) && Valid(states[0]) && FreeSince(states, ops, id, k) && k <= m && LastReport(ops, id, m)
    requires Reported(ops[m], id).value.attention == Attention.Done
    requires id.RemoteId? && id.alias in states[|ops|].remotes ==> var d := states[|ops|];
      !Resolve(Stored(d, id).GetOr(Reported(ops[m], id).value), d.remotes[id.alias], d.transports).One?
    ensures exists q :: Published(states[|ops|], q) && q.id == id && q.state.Idle? && q.attention == Attention.Done
  {
    ReportStays(states, ops, id, k, m, |ops|);
    var d := states[|ops|];
    RunKeepsValid(states, ops);
    var q := Stored(d, id).value;
    if id.RemoteId? {
      var i := MergedRecord(d, id.alias, id);
      assert MergedRemote(d, id.alias)[i] == q && q in MergedRemote(d, id.alias);
    }
    assert Published(d, q);
  }

  // ---------------------------------------------------------------- seen through one transport

  /** One transport shows the agent, and the user does not look at it. */
  ghost predicate OutOfSight(d: State, id: AgentId) {
    && id.RemoteId? && id.alias in d.remotes && Stored(d, id).Some?
    && var resolution := Resolve(Stored(d, id).value, d.remotes[id.alias], d.transports);
       resolution.One? && !(Stored(d, id).value.visible && resolution.transport.visible)
  }

  /** Counted as unseen behind its transport. */
  ghost predicate Unseen(d: State, id: AgentId) {
    && OutOfSight(d, id) && Stored(d, id).value.state.Idle?
    && Lookup(IndexOf(d, id.alias), id) == Some(false)
  }

  lemma UnseenIsDone(d: State, id: AgentId)
    requires Valid(d) && Unseen(d, id)
    ensures exists q :: Published(d, q) && q.id == id && q.state.Idle? && q.attention == Attention.Done
  {
    var i := MergedRecord(d, id.alias, id);
    var q := MergedRemote(d, id.alias)[i];
    assert q in MergedRemote(d, id.alias);
    assert Published(d, q) && q.attention == Attention.Done;
  }

  /** The report that ends a turn out of sight. */
  ghost predicate Finishes(d: State, op: Op, id: AgentId) {
    && op.PublishRemote? && Reported(op, id).Some? && Reported(op, id).value.state.Idle?
    && Stored(d, id).Some? && Active(Stored(d, id).value.state)
  }

  /** The resolution of a reported agent is that of the stored one. */
  lemma ReportResolves(d: State, op: Op, t: State, id: AgentId) returns (i: nat)
    requires Admissible(op) && op.PublishRemote? && Step(d, op, t) && Reported(op, id).Some?
    ensures var agents := NamespacedAll(op.alias, op.agents);
      && i < |agents| && agents[i] == Reported(op, id).value && agents[i].id == id
      && id.RemoteId? && id.alias == op.alias && DistinctIds(agents)
      && Stored(t, id).Some? && SameRoute(agents[i], Stored(t, id).value)
      && Resolve(agents[i], agents, d.transports) == Resolve(Stored(t, id).value, t.remotes[op.alias], t.transports)
  {
    var agents := NamespacedAll(op.alias, op.agents);
    var shown := OverlayAll(agents, d.acks);
    OverlayKeepsRemote(op.alias, op.agents, d.acks);
    i :| 0 <= i < |agents| && agents[i] == Reported(op, id).value;
    assert agents[i].id == id;
    RecordAt(shown, i);
    assert t.remotes[op.alias] == shown && Stored(t, id) == Some(shown[i]);
    SameResolution(agents[i], shown[i], agents, shown, d.transports);
  }

  /** The index after a report has the observed entry, raised if acknowledged. */
  lemma ReportedEntry(d: State, op: Op, t: State, id: AgentId, i: nat)
    requires op.PublishRemote? && Step(d, op, t) && id !in t.acks.completions
    requires var agents := NamespacedAll(op.alias, op.agents); i < |agents| && agents[i].id == id
    ensures var agents := NamespacedAll(op.alias, op.agents);
      Lookup(t.remoteSeen[op.alias], id)
      == SeenEntry(agents[i], agents, RecordOf(Lookup(d.remotes, op.alias).GetOr([]), id), d.transports,
                   Lookup(IndexOf(d, op.alias), id))
  {
    var agents := NamespacedAll(op.alias, op.agents);
    var previous := Lookup(d.remotes, op.alias).GetOr([]);
    var observed: map<AgentId, bool> :|
      && IsObservation(agents, previous, d.transports, IndexOf(d, op.alias), observed)
      && IsAckedObservation(agents, observed, AcksAfter(agents, d.acks), t.remoteSeen[op.alias]);
    assert Lookup(observed, id) == EntryAt(agents, previous, d.transports, IndexOf(d, op.alias), i);
  }

  lemma FinishIsUnseen(d: State, op: Op, t: State, id: AgentId)
    requires Admissible(op) && Step(d, op, t) && Finishes(d, op, id)
    requires OutOfSight(t, id) && id !in t.acks.completions
    ensures Unseen(t, id)
  {
    var i := ReportResolves(d, op, t, id);
    ReportedEntry(d, op, t, id, i);
  }

  /** A remote agent not known before counts as seen if its peer says so or the
      user looks at it. */
  lemma FirstReportKeepsSeen(d: State, op: Op, t: State, id: AgentId)
    requires Admissible(op) && op.PublishRemote? && Step(d, op, t) && id !in t.acks.completions
    requires Stored(d, id).None? && Reported(op, id).Some?
    ensures Stored(t, id).Some? && var q := Stored(t, id).value;
      var resolution := Resolve(q, t.remotes[op.alias], t.transports);
      Lookup(t.remoteSeen[op.alias], id) ==
        if !resolution.One? then None
        else Some((q.visible && resolution.transport.visible) || Reported(op, id).value.seen)
  {
    var i := ReportResolves(d, op, t, id);
    ReportedEntry(d, op, t, id, i);
  }

  lemma LocalPublishKeepsUnseen(d: State, op: Op, t: State, id: AgentId)
    requires Valid(d) && op.PublishLocal? && Step(d, op, t) && Unseen(d, id) && OutOfSight(t, id)
    ensures Unseen(t, id)
  {
    if t.remoteSeen != d.remoteSeen {
      var agents := d.remotes[id.alias];
      var i := MergedRecord(d, id.alias, id);
      assert IsObservation(agents, agents, op.transports, IndexOf(d, id.alias), t.remoteSeen[id.alias]);
      assert Lookup(t.remoteSeen[id.alias], id)
             == SeenEntry(agents[i], agents, Some(agents[i]), op.transports, Lookup(IndexOf(d, id.alias), id));
    }
  }

  lemma StepKeepsUnseen(d: State, op: Op, t: State, id: AgentId)
    requires Valid(d) && Step(d, op, t) && Unseen(d, id) && OutOfSight(t, id)
    requires !Replaces(op, id) && id !in Acknowledges(d, op)
    ensures Unseen(t, id)
  {
    OthersKeepStored(d, op, t, id);
    match op
    case PublishLocal(_, _, _) => LocalPublishKeepsUnseen(d, op, t, id);
    case PublishRemote(_, _) =>
    case PeerError(_) =>
    case Acknowledge(_, _) => AcknowledgingKeepsEntry(d, op, t, id);
    case MarkAllRead(_) => AcknowledgingKeepsEntry(d, op, t, id);
    case MarkUsed(_, _) =>
  }

  lemma AcknowledgingKeepsEntry(d: State, op: Op, t: State, id: AgentId)
    requires Valid(d) && (op.Acknowledge? || op.MarkAllRead?) && Step(d, op, t) && id !in Acknowledges(d, op)
    requires id.RemoteId? && id.alias in d.remotes
    ensures Lookup(IndexOf(t, id.alias), id) == Lookup(IndexOf(d, id.alias), id)
  {
    var marked := Acknowledged(d, Acknowledges(d, op));
    assert t == d || t == marked.(revision := t.revision, heading := t.heading);
  }

  /** Over every run: a remote agent that was active when last reported and is idle
      in the report `m` is published as Done ever after, while its one transport
      does not show it to the user, no later report replaces it, and it is not
      acknowledged. */
  lemma FinishedOutOfSightIsDone(states: seq<State>, ops: seq<Op>, id: AgentId, k: nat, m: nat)
    requires IsRun(states, ops) && Valid(states[0]) && FreeSince(states, ops, id, k) && k <= m && LastReport(ops, id, m)
    requires Finishes(states[m], ops[m], id)
    requires forall i | m < i <= |ops| :: OutOfSight(states[i], id)
    ensures exists q :: Published(states[|ops|], q) && q.id == id && q.state.Idle? && q.attention == Attention.Done
  {
    UnseenAfter(states, ops, id, k, m, |ops|);
    RunKeepsValid(states, ops);
    UnseenIsDone(states[|ops|], id);
  }

  lemma {:induction false} UnseenAfter(states: seq<State>, ops: seq<Op>, id: AgentId, k: nat, m: nat, n: nat)
    requires IsRun(states, ops) && Valid(states[0]) && FreeSince(states, ops, id, k) && k <= m && LastReport(ops, id, m)
    requires Finishes(states[m], ops[m], id) && m < n <= |ops|
    requires forall i | m < i <= |ops| :: OutOfSight(states[i], id)
    ensures Unseen(states[n], id)
    decreases n
  {
    var j := n - 1;
    if m == j {
      StepAt(states, ops, m);
      FreeAfter(states, ops, id, k, n);
      FinishIsUnseen(states[m], ops[m], states[n], id);
    } else {
      UnseenAfter(states, ops, id, k, m, j);
      QuietStep(states, ops, id, k, m, j);
      StepKeepsUnseen(states[j], ops[j], states[n], id);
    }
  }
}
