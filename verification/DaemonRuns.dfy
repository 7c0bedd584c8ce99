/** What users see over whole runs of the daemon. */
module DaemonRuns {
  import opened Wrappers
  import opened AgentModel
  import opened Acknowledgement
  import opened Transports
  import opened Daemon

  /** A run: consecutive states joined by admissible operations. */
  ghost predicate IsRun(states: seq<State>, ops: seq<Op>) {
    && |states| == |ops| + 1
    && forall i | 0 <= i < |ops| :: Admissible(ops[i]) && Step(states[i], ops[i], states[i + 1])
  }

  lemma {:induction false} RunKeepsValid(states: seq<State>, ops: seq<Op>)
    requires IsRun(states, ops) && Valid(states[0])
    ensures Valid(states[|ops|])
    decreases |ops|
  {
    if ops != [] {
      var n := |ops| - 1;
      assert IsRun(states[..n + 1], ops[..n]);
      RunKeepsValid(states[..n + 1], ops[..n]);
      StepKeepsValid(states[n], ops[n], states[n + 1]);
    }
  }

  lemma PublishedIsConsistent(d: State, r: AgentRecord)
    requires Valid(d) && Published(d, r)
    ensures Consistent(r)
  {
    if r !in d.local {
      var alias :| alias in d.remotes && r in MergedRemote(d, alias);
      var i :| 0 <= i < |d.remotes[alias]| && r == MergedRemote(d, alias)[i];
      assert d.remotes[alias][i] in d.remotes[alias];
    }
  }

  // ---------------------------------------------------------------- visibility

  /** After every run, every operation included: an idle remote agent that the
      user sees through its one transport is not shown as Done. */
  lemma VisibleIdleIsNeverDone(states: seq<State>, ops: seq<Op>, alias: string, i: nat)
    requires IsRun(states, ops) && Valid(states[0])
    requires var d := states[|ops|]; alias in d.remotes && i < |d.remotes[alias]|
    requires var d := states[|ops|];
      var agent, resolution := d.remotes[alias][i], Resolve(d.remotes[alias][i], d.remotes[alias], d.transports);
      resolution.One? && agent.visible && resolution.transport.visible && agent.state.Idle?
    ensures var d := states[|ops|];
      Published(d, MergedRemote(d, alias)[i]) && MergedRemote(d, alias)[i].attention == Attention.Idle
  {
    RunKeepsValid(states, ops);
    var d := states[|ops|];
    assert IndexMatches(d.remotes[alias], d.transports, d.remoteSeen[alias]);
    assert MergedRemote(d, alias)[i] in MergedRemote(d, alias);
  }

  /** A remote record is published as its peer reported it, except through the one
      transport that shows it: then it can be focused there if its connection is
      known, takes the transport's caption, and counts as visible and seen here. */
  lemma RemoteIsPublished(d: State, alias: string, i: nat)
    requires Valid(d) && alias in d.remotes && i < |d.remotes[alias]|
    ensures var agent, q := d.remotes[alias][i], MergedRemote(d, alias)[i];
      match Resolve(agent, d.remotes[alias], d.transports)
      case One(transport, exact) =>
        && q == agent.(visible := q.visible, seen := q.seen, attention := q.attention,
                       place := agent.place.(caption := q.place.caption, focusTarget := q.place.focusTarget))
        && (q.visible <==> agent.visible && transport.visible)
        && Lookup(d.remoteSeen[alias], agent.id) == Some(q.seen) && q.attention == AttentionOf(q.state, q.seen)
        && (exact ==> q.place.focusTarget == Some(transport.target))
        && (!exact ==> q.place.focusTarget == agent.place.focusTarget)
        && (transport.caption in {None, Some("")} ==> q.place.caption == agent.place.caption)
        && (transport.caption !in {None, Some("")} ==> q.place.caption == transport.caption)
      case _ => q == agent
  {
    assert IndexMatches(d.remotes[alias], d.transports, d.remoteSeen[alias]);
  }

  /** The revision goes up by one whenever what is shown or remembered about use
      changes, except when an acknowledgement could not be saved. */
  lemma RevisionTellsChanges(d: State, op: Op, t: State)
    requires Step(d, op, t)
    ensures t.revision == d.revision || t.revision == d.revision + 1
    ensures t.revision == d.revision && !(op.Acknowledge? && !op.saved) && !(op.MarkAllRead? && !op.saved) ==>
      t == d.(acks := t.acks)
  {
  }

  /** Each publication replaces the records of its origin and nothing else, and
      losing a peer drops its records. */
  lemma PublicationReplaces(d: State, op: Op, t: State)
    requires Step(d, op, t)
    ensures op.PublishLocal? ==>
      && t.transports == op.transports && SameOrigin(t.heading, op.heading) && t.remotes == d.remotes
      && |t.local| == |op.agents| && forall i | 0 <= i < |t.local| :: t.local[i].id == op.agents[i].id
    ensures op.PublishRemote? ==>
      && t.local == d.local && t.transports == d.transports && t.remotes.Keys == d.remotes.Keys + {op.alias}
      && (forall alias | alias in d.remotes && alias != op.alias :: t.remotes[alias] == d.remotes[alias])
      && |t.remotes[op.alias]| == |op.agents|
      && forall i | 0 <= i < |op.agents| :: t.remotes[op.alias][i].id == RemoteId(op.alias, op.agents[i].id)
    ensures op.PeerError? ==>
      && t.local == d.local && t.transports == d.transports && t.acks == d.acks
      && t.remotes.Keys == d.remotes.Keys - {op.alias} && t.remoteSeen.Keys == d.remoteSeen.Keys - {op.alias}
      && forall alias | alias in t.remotes :: t.remotes[alias] == d.remotes[alias]
  {
  }

  /** Use times are those recorded for agents still known; only using an agent
      records one. */
  lemma UseTimesExactly(d: State, op: Op, t: State, id: AgentId)
    requires Valid(d) && Admissible(op) && Step(d, op, t)
    ensures Lookup(t.lastUsed, id) ==
      if op.MarkUsed? && op.target == id && Stored(d, id).Some? && Stored(d, id).value.subagent.None?
      then Some(op.now)
      else if id in KnownIds(t.local, t.remotes) then Lookup(d.lastUsed, id) else None
  {
    StepKeepsValid(d, op, t);
    match op
    case PublishLocal(_, _, _) =>
    case PublishRemote(_, _) =>
    case PeerError(_) =>
    case Acknowledge(target, _) => AcknowledgingKnows(d, {target}, id);
    case MarkAllRead(_) => AcknowledgingKnows(d, UnreadIds(d), id);
    case MarkUsed(_, _) =>
  }

  lemma AcknowledgingKnows(d: State, targets: set<AgentId>, id: AgentId)
    requires Valid(d)
    ensures id in d.lastUsed ==> var t := Acknowledged(d, targets); id in KnownIds(t.local, t.remotes)
  {
    AcknowledgedKeepsValid(d, targets);
  }

  /** The revision of local snapshots goes up with a local acknowledgement. */
  lemma AcknowledgingBumpsLocal(d: State, op: Op, t: State)
    requires (op.Acknowledge? || op.MarkAllRead?) && Step(d, op, t)
    ensures t.heading ==
      if t.revision != d.revision && exists id :: id in Acknowledges(d, op) && id.LocalId?
      then d.heading.(revision := d.heading.revision + 1) else d.heading
  {
    if op.Acknowledge? { assert op.target in Acknowledges(d, op); }
  }

  /** Two peers never share an ID, and links inside a report are kept. */
  lemma NamespacingKeepsLinks(a: string, b: string, r: AgentRecord, q: AgentRecord)
    ensures Namespaced(a, r).id == Namespaced(b, q).id <==> a == b && r.id == q.id
    ensures r.subagent.None? <==> Namespaced(a, r).subagent.None?
    ensures r.subagent.Some? ==>
      (Namespaced(a, r).subagent.value.parentId == Namespaced(a, q).id <==> r.subagent.value.parentId == q.id)
      && Namespaced(a, r).subagent == Some(r.subagent.value.(parentId := Namespaced(a, r).subagent.value.parentId))
    ensures Namespaced(a, r).place.focusTarget.None? && Namespaced(a, r).route.remoteAlias == Some(a)
  {
  }

  // ---------------------------------------------------------------- mark all read

  lemma MergedRecord(d: State, alias: string, id: AgentId) returns (i: nat)
    requires Valid(d) && alias in d.remotes && id in Ids(d.remotes[alias])
    ensures i < |d.remotes[alias]| && d.remotes[alias][i].id == id
    ensures Stored(d, id) == Some(d.remotes[alias][i]) && id.RemoteId? && id.alias == alias
    ensures MergedRemote(d, alias)[i].id == id
  {
    i :| 0 <= i < |d.remotes[alias]| && d.remotes[alias][i].id == id;
    assert d.remotes[alias][i] in d.remotes[alias];
    RecordAt(d.remotes[alias], i);
  }

  lemma SameRecord(agents: seq<AgentRecord>, i: nat, r: AgentRecord)
    requires DistinctIds(agents) && i < |agents| && r in agents && r.id == agents[i].id
    ensures r == agents[i]
  {
    RecordAt(agents, i);
    var k :| 0 <= k < |agents| && agents[k] == r;
    RecordAt(agents, k);
  }

  lemma MergedSource(d: State, alias: string, r: AgentRecord) returns (i: nat)
    requires Valid(d) && alias in d.remotes && r in MergedRemote(d, alias)
    ensures i < |d.remotes[alias]| && MergedRemote(d, alias)[i] == r && d.remotes[alias][i].id == r.id
    ensures r.id.RemoteId? && r.id.alias == alias
  {
    i :| 0 <= i < |d.remotes[alias]| && MergedRemote(d, alias)[i] == r;
    assert d.remotes[alias][i] in d.remotes[alias];
  }

  lemma LocalTargets(d: State, i: nat)
    requires Valid(d) && i < |d.local|
    ensures d.local[i].id in UnreadIds(d) <==> Unread(d.local[i])
  {
    assert d.local[i] in d.local;
    forall r | r in d.local && r.id == d.local[i].id ensures r == d.local[i] { SameRecord(d.local, i, r); }
    forall alias, r | alias in d.remotes && r in MergedRemote(d, alias) ensures r.id != d.local[i].id {
      var k := MergedSource(d, alias, r);
    }
  }

  lemma RemoteTargets(d: State, alias: string, i: nat)
    requires Valid(d) && alias in d.remotes && i < |d.remotes[alias]|
    ensures d.remotes[alias][i].id in UnreadIds(d) <==> Unread(MergedRemote(d, alias)[i])
  {
    var agent, shown := d.remotes[alias][i], MergedRemote(d, alias)[i];
    assert agent in d.remotes[alias] && shown in MergedRemote(d, alias);
    forall r | r in d.local ensures r.id != agent.id { }
    forall other, r | other in d.remotes && r in MergedRemote(d, other) && r.id == agent.id
      ensures other == alias && r == shown
    {
      var k := MergedSource(d, other, r);
      SameRecord(d.remotes[alias], i, d.remotes[other][k]);
      RecordAt(d.remotes[alias], i);
      RecordAt(d.remotes[alias], k);
    }
  }

  /** Acknowledging the record behind a published one leaves nothing unread in it. */
  lemma AckedShowsRead(
    agent: AgentRecord, peers: seq<AgentRecord>, marked: seq<AgentRecord>, transports: seq<Transport>,
    raised: map<AgentId, bool>)
    requires Consistent(agent) && SameRoutes(peers, marked)
    requires agent.id in raised && AckResultOf(agent).persistCompletion ==> raised[agent.id]
    ensures !Unread(Reconciled(AckedRecord(agent), marked, transports, raised))
  {
  }

  /** Leaving a record and its entry alone leaves the published one alone. */
  lemma UntouchedShowsSame(
    agent: AgentRecord, peers: seq<AgentRecord>, marked: seq<AgentRecord>, transports: seq<Transport>,
    index: map<AgentId, bool>, raised: map<AgentId, bool>)
    requires SameRoutes(peers, marked) && Lookup(index, agent.id) == Lookup(raised, agent.id)
    ensures Reconciled(agent, marked, transports, raised) == Reconciled(agent, peers, transports, index)
  {
    SameResolution(agent, agent, peers, marked, transports);
  }

  /** Acknowledging everything unread leaves nothing unread anywhere in the
      merged snapshot, whether the completion was reported by the peer or came
      from the transport overlay alone. */
  lemma MarkAllLeavesNothingUnread(d: State, r: AgentRecord)
    requires Valid(d) && Published(Acknowledged(d, UnreadIds(d)), r)
    ensures !Unread(r)
    ensures r.state.Idle? ==> r.attention != Attention.Done
    ensures !Active(r.state) && r.goal.Some? && !r.goal.value.state.Pursuing? ==> !r.goal.value.pending
  {
    var t := Acknowledged(d, UnreadIds(d));
    if r in t.local {
      var i :| 0 <= i < |t.local| && t.local[i] == r;
      assert d.local[i] in d.local;
      LocalTargets(d, i);
    } else {
      var alias :| alias in t.remotes && r in MergedRemote(t, alias);
      var i :| 0 <= i < |t.remotes[alias]| && MergedRemote(t, alias)[i] == r;
      MarkAllReadsRemote(d, alias, i);
    }
  }

  lemma MarkAllReadsRemote(d: State, alias: string, i: nat)
    requires Valid(d) && alias in d.remotes && i < |d.remotes[alias]|
    ensures var t := Acknowledged(d, UnreadIds(d)); !Unread(MergedRemote(t, alias)[i])
  {
    var targets := UnreadIds(d);
    var t := Acknowledged(d, targets);
    var agents, marked := d.remotes[alias], t.remotes[alias];
    var agent := agents[i];
    assert agent in agents;
    RemoteTargets(d, alias, i);
    MarkedKeepsRemote(alias, agents, targets);
    RecordAt(agents, i);
    assert Result(d, agent.id) == AckResultOf(agent);
    if agent.id in targets {
      AckedShowsRead(agent, agents, marked, d.transports, IndexOf(t, alias));
    } else {
      UntouchedShowsSame(agent, agents, marked, d.transports, IndexOf(d, alias), IndexOf(t, alias));
    }
  }

  predicate AwaitsReader(r: AgentRecord) {
    || (r.state.Idle? && r.attention == Attention.Done)
    || (r.goal.Some? && r.goal.value.pending && !r.goal.value.state.Pursuing?
         && r.state in {AgentState.Idle, AgentState.Unknown})
  }

  /** Its targets are exactly the published agents that finished a turn or, not
      active, a goal. */
  lemma TargetsExactly(d: State, id: AgentId)
    ensures id in UnreadIds(d) <==> exists r :: Published(d, r) && r.id == id && AwaitsReader(r)
  {
  }

  lemma NothingUnreadMeansNoTargets(d: State)
    requires forall r | Published(d, r) :: !Unread(r)
    ensures UnreadIds(d) == {}
  {
  }

  /** A second mark-all-read right after the first finds nothing. */
  lemma SecondMarkAllFindsNothing(d: State, saved: bool, t: State)
    requires Valid(d) && Step(d, MarkAllRead(saved), t)
    ensures UnreadIds(t) == {}
  {
    if UnreadIds(d) != {} {
      var marked := Acknowledged(d, UnreadIds(d));
      forall r | Published(t, r) ensures !Unread(r) {
        assert Published(marked, r) by {
          if r !in t.local {
            var alias :| alias in t.remotes && r in MergedRemote(t, alias);
            assert MergedRemote(marked, alias) == MergedRemote(t, alias);
          }
        }
        MarkAllLeavesNothingUnread(d, r);
      }
      NothingUnreadMeansNoTargets(t);
    }
  }

  lemma ActiveIsNoTarget(d: State, id: AgentId)
    requires Valid(d) && Stored(d, id).Some? && Active(Stored(d, id).value.state)
    ensures id !in UnreadIds(d)
  {
    match id
    case LocalId(_) =>
      var i :| 0 <= i < |d.local| && d.local[i] == Stored(d, id).value;
      LocalTargets(d, i);
    case RemoteId(alias, _) =>
      var i := MergedRecord(d, alias, id);
      RemoteTargets(d, alias, i);
      assert d.remotes[alias][i] in d.remotes[alias];
  }

  /** Mark-all-read never touches a working or blocked agent. */
  lemma MarkAllSkipsActive(d: State, saved: bool, t: State, id: AgentId)
    requires Valid(d) && Step(d, MarkAllRead(saved), t)
    requires Stored(d, id).Some? && Active(Stored(d, id).value.state)
    ensures Stored(t, id) == Stored(d, id)
  {
    ActiveIsNoTarget(d, id);
    StoredAfterMarking(d, UnreadIds(d), id);
  }

  lemma {:induction false} MarkedRecordOf(agents: seq<AgentRecord>, targets: set<AgentId>, id: AgentId)
    ensures RecordOf(Marked(agents, targets), id)
            == match RecordOf(agents, id)
               case Some(r) => Some(if id in targets then AckedRecord(r) else r)
               case None => None
  {
    if agents != [] {
      assert Marked(agents, targets)[1..] == Marked(agents[1..], targets);
      MarkedRecordOf(agents[1..], targets, id);
    }
  }

  lemma StoredAfterMarking(d: State, targets: set<AgentId>, id: AgentId)
    ensures Stored(Acknowledged(d, targets), id)
            == match Stored(d, id)
               case Some(r) => Some(if id in targets then AckedRecord(r) else r)
               case None => None
  {
    match id
    case LocalId(_) => MarkedRecordOf(d.local, targets, id);
    case RemoteId(alias, _) => if alias in d.remotes { MarkedRecordOf(d.remotes[alias], targets, id); }
  }

  // ---------------------------------------------------------------- acknowledged completions

  /** An acknowledged agent that will not be shown as Done. */
  ghost predicate Quiet(d: State, id: AgentId) {
    && id in d.acks.completions
    && (Stored(d, id).Some? && Stored(d, id).value.state.Idle? ==>
          Stored(d, id).value.seen
          && (id.RemoteId? && id in IndexOf(d, id.alias) ==> IndexOf(d, id.alias)[id]))
  }

  /** The report of this agent in a publication, as the daemon names it. */
  function Reported(op: Op, id: AgentId): Option<AgentRecord> {
    match op
    case PublishLocal(agents, _, _) => RecordOf(agents, id)
    case PublishRemote(alias, agents) => RecordOf(NamespacedAll(alias, agents), id)
    case _ => None
  }

  /** The operation reports the agent in a way that ends its acknowledgement. */
  predicate Reopens(d: State, op: Op, id: AgentId) {
    Reported(op, id).Some? && Clears(Reported(op, id).value, d.acks)
  }

  /** Only a report of the agent active, pursuing a goal, or with a terminal
      outcome other than the acknowledged one reopens.  Not all of those do: an
      active agent that still carries the acknowledged outcome as pending does
      not, nor does another outcome that is neither pending nor preceded by one. */
  lemma ReopeningMeans(d: State, op: Op, id: AgentId)
    requires id in d.acks.completions
    ensures Reopens(d, op, id) ==> var r := Reported(op, id).value;
      Active(r.state) || PursuesGoal(r) || (Outcome(r).Some? && Outcome(r) != AckedOutcome(d.acks, id))
    ensures Reported(op, id).Some? && !Reopens(d, op, id) ==> var r := Reported(op, id).value;
      && !PursuesGoal(r)
      && (Active(r.state) ==> GoalPending(r) && Outcome(r).Some? && Outcome(r) == AckedOutcome(d.acks, id))
      && (Outcome(r).Some? && Outcome(r) != AckedOutcome(d.acks, id) ==>
            !GoalPending(r) && AckedOutcome(d.acks, id).None?)
    ensures Reported(op, id).Some? && !PursuesGoal(Reported(op, id).value) ==> var r := Reported(op, id).value;
      && (Active(r.state) && GoalPending(r) && Outcome(r).Some? && Outcome(r) == AckedOutcome(d.acks, id) ==>
            !Reopens(d, op, id))
      && (!Active(r.state) && !GoalPending(r) && AckedOutcome(d.acks, id).None? ==> !Reopens(d, op, id))
      && (!Active(r.state) && r.goal.Some? && r.goal.value.observedAt == 0 ==> !Reopens(d, op, id))
  {
  }

  lemma QuietIsNotDone(d: State, id: AgentId, r: AgentRecord)
    requires Valid(d) && Quiet(d, id) && Published(d, r) && r.id == id
    ensures r.attention != Attention.Done
  {
    if r in d.local {
      QuietLocalIsNotDone(d, id, r);
    } else {
      var alias :| alias in d.remotes && r in MergedRemote(d, alias);
      var i :| 0 <= i < |d.remotes[alias]| && MergedRemote(d, alias)[i] == r;
      QuietRemoteIsNotDone(d, id, alias, i);
    }
  }

  lemma QuietLocalIsNotDone(d: State, id: AgentId, r: AgentRecord)
    requires Valid(d) && Quiet(d, id) && r in d.local && r.id == id
    ensures r.attention != Attention.Done
  {
    var i :| 0 <= i < |d.local| && d.local[i] == r;
    RecordAt(d.local, i);
    assert Stored(d, id) == Some(r);
  }

  lemma QuietRemoteIsNotDone(d: State, id: AgentId, alias: string, i: nat)
    requires Valid(d) && Quiet(d, id) && alias in d.remotes && i < |d.remotes[alias]| && d.remotes[alias][i].id == id
    ensures MergedRemote(d, alias)[i].attention != Attention.Done
  {
    var agent := d.remotes[alias][i];
    assert ValidRemote(alias, d.remotes[alias]) && agent in d.remotes[alias];
    RecordAt(d.remotes[alias], i);
    assert Stored(d, id) == Some(agent);
    assert IndexMatches(d.remotes[alias], d.transports, d.remoteSeen[alias]);
    assert MergedRemote(d, alias)[i] in MergedRemote(d, alias);
    PublishedIsConsistent(d, MergedRemote(d, alias)[i]);
  }

  lemma {:induction false} OverlaidRecordOf(agents: seq<AgentRecord>, acks: Acks, id: AgentId)
    ensures RecordOf(OverlayAll(agents, acks), id)
            == match RecordOf(agents, id) case Some(r) => Some(Overlay(r, acks)) case None => None
  {
    if agents != [] {
      assert OverlayAll(agents, acks)[1..] == OverlayAll(agents[1..], acks);
      OverlaidRecordOf(agents[1..], acks, id);
    }
  }

  /** A report that does not clear it leaves the acknowledgement in place. */
  lemma UnclearedStays(agents: seq<AgentRecord>, acks: Acks, id: AgentId)
    requires DistinctIds(agents)
    requires RecordOf(agents, id).Some? ==> !Clears(RecordOf(agents, id).value, acks)
    ensures id in acks.completions ==> id in AcksAfter(agents, acks).completions
    ensures AckedOutcome(AcksAfter(agents, acks), id) == AckedOutcome(acks, id)
  {
    forall i | 0 <= i < |agents| && agents[i].id == id ensures !Clears(agents[i], acks) { RecordAt(agents, i); }
  }

  /** An idle agent that counts as seen goes on counting as seen. */
  lemma SeenEntryStays(agent: AgentRecord, peers: seq<AgentRecord>, transports: seq<Transport>, entry: Option<bool>)
    requires agent.state.Idle? && agent.seen && entry != Some(false)
    ensures SeenEntry(agent, peers, Some(agent), transports, entry) != Some(false)
  {
  }

  lemma LocalPublishKeepsEntry(d: State, op: Op, t: State, id: AgentId)
    requires Valid(d) && Quiet(d, id) && op.PublishLocal? && Step(d, op, t)
    requires id.RemoteId? && Stored(d, id).Some? && Stored(d, id).value.state.Idle?
    ensures Lookup(IndexOf(t, id.alias), id) != Some(false)
  {
    if t.remoteSeen != d.remoteSeen {
      var agents := d.remotes[id.alias];
      var i := MergedRecord(d, id.alias, id);
      assert IsObservation(agents, agents, op.transports, IndexOf(d, id.alias), t.remoteSeen[id.alias]);
      assert EntryAt(agents, agents, op.transports, IndexOf(d, id.alias), i)
             == SeenEntry(agents[i], agents, Some(agents[i]), op.transports, Lookup(IndexOf(d, id.alias), id));
      SeenEntryStays(agents[i], agents, op.transports, Lookup(IndexOf(d, id.alias), id));
    }
  }

  lemma LocalPublishKeepsQuiet(d: State, op: Op, t: State, id: AgentId)
    requires Valid(d) && Quiet(d, id) && op.PublishLocal? && Admissible(op) && Step(d, op, t) && !Reopens(d, op, id)
    ensures Quiet(t, id)
  {
    UnclearedStays(op.agents, d.acks, id);
    if id.RemoteId? {
      assert Stored(t, id) == Stored(d, id);
      if Stored(d, id).Some? && Stored(d, id).value.state.Idle? { LocalPublishKeepsEntry(d, op, t, id); }
    } else {
      OverlaidRecordOf(op.agents, d.acks, id);
      assert t.local == OverlayAll(op.agents, d.acks);
    }
  }

  lemma RemotePublishKeepsQuiet(d: State, op: Op, t: State, id: AgentId)
    requires Valid(d) && Quiet(d, id) && op.PublishRemote? && Admissible(op) && Step(d, op, t) && !Reopens(d, op, id)
    ensures Quiet(t, id)
  {
    var agents := NamespacedAll(op.alias, op.agents);
    OverlayKeepsRemote(op.alias, op.agents, d.acks);
    UnclearedStays(agents, d.acks, id);
    OverlaidRecordOf(agents, d.acks, id);
    if id.RemoteId? && id.alias == op.alias && RecordOf(agents, id).Some? {
      var i :| 0 <= i < |agents| && agents[i].id == id;
      RecordAt(agents, i);
    }
  }

  lemma AcknowledgingKeepsQuiet(d: State, op: Op, t: State, id: AgentId)
    requires Valid(d) && Quiet(d, id) && (op.Acknowledge? || op.MarkAllRead?) && Step(d, op, t)
    ensures Quiet(t, id)
  {
    var marked := Acknowledged(d, Acknowledges(d, op));
    MarkedStaysQuiet(d, Acknowledges(d, op), id);
    assert t == d || t == marked.(revision := t.revision, heading := t.heading);
    assert Stored(t, id) in {Stored(d, id), Stored(marked, id)};
  }

  lemma MarkedStaysQuiet(d: State, targets: set<AgentId>, id: AgentId)
    requires Quiet(d, id)
    ensures Quiet(Acknowledged(d, targets), id)
  {
    StoredAfterMarking(d, targets, id);
  }

  /** No operation undoes an acknowledged completion, except a report that reopens it. */
  lemma StepKeepsQuiet(d: State, op: Op, t: State, id: AgentId)
    requires Valid(d) && Quiet(d, id) && Admissible(op) && Step(d, op, t) && !Reopens(d, op, id)
    ensures Quiet(t, id)
  {
    match op
    case PublishLocal(_, _, _) => LocalPublishKeepsQuiet(d, op, t, id);
    case PublishRemote(_, _) => RemotePublishKeepsQuiet(d, op, t, id);
    case PeerError(_) =>
    case Acknowledge(_, _) => AcknowledgingKeepsQuiet(d, op, t, id);
    case MarkAllRead(_) => AcknowledgingKeepsQuiet(d, op, t, id);
    case MarkUsed(_, _) =>
  }

  /** Acknowledging an idle agent makes it quiet at once, local or remote, alone
      or with everything unread. */
  lemma AcknowledgeMakesQuiet(d: State, op: Op, t: State, id: AgentId)
    requires Valid(d) && Step(d, op, t) && id in Acknowledges(d, op)
    requires Stored(d, id).Some? && Stored(d, id).value.state.Idle?
    ensures Quiet(t, id)
  {
    MarkedIsQuiet(d, Acknowledges(d, op), id);
    var marked := Acknowledged(d, Acknowledges(d, op));
    assert t == marked.(revision := t.revision, heading := t.heading);
    assert Stored(t, id) == Stored(marked, id);
  }

  lemma MarkedIsQuiet(d: State, targets: set<AgentId>, id: AgentId)
    requires Valid(d) && id in targets && Stored(d, id).Some? && Stored(d, id).value.state.Idle?
    ensures Quiet(Acknowledged(d, targets), id)
  {
    StoredAfterMarking(d, targets, id);
    if id.RemoteId? { var i := MergedRecord(d, id.alias, id); }
  }

  /** A run that starts by acknowledging an idle agent. */
  ghost predicate AcknowledgesIdle(states: seq<State>, ops: seq<Op>, id: AgentId) {
    && IsRun(states, ops) && Valid(states[0]) && |ops| > 0 && id in Acknowledges(states[0], ops[0])
    && Stored(states[0], id).Some? && Stored(states[0], id).value.state.Idle?
  }

  /** Once an idle agent is acknowledged, by itself or by mark-all-read, no
      snapshot published later in the run shows it as Done until some report
      reopens it: across reconnects, disappearances and transports coming and going. */
  lemma {:induction false} AcknowledgedStaysQuiet(states: seq<State>, ops: seq<Op>, id: AgentId, r: AgentRecord)
    requires AcknowledgesIdle(states, ops, id)
    requires forall k | 0 < k < |ops| :: !Reopens(states[k], ops[k], id)
    requires Published(states[|ops|], r) && r.id == id
    ensures r.attention != Attention.Done
  {
    QuietAtEnd(states, ops, id);
    RunKeepsValid(states, ops);
    QuietIsNotDone(states[|ops|], id, r);
  }

  lemma QuietAtEnd(states: seq<State>, ops: seq<Op>, id: AgentId)
    requires AcknowledgesIdle(states, ops, id)
    requires forall k | 0 < k < |ops| :: !Reopens(states[k], ops[k], id)
    ensures Quiet(states[|ops|], id)
  {
    AcknowledgeMakesQuiet(states[0], ops[0], states[1], id);
    QuietLasts(states, ops, id, 1, |ops|);
  }

  /** An agent that is quiet stays so until it is reopened. */
  lemma {:induction false} QuietLasts(states: seq<State>, ops: seq<Op>, id: AgentId, m: nat, n: nat)
    requires IsRun(states, ops) && Valid(states[0]) && m <= n <= |ops| && Quiet(states[m], id)
    requires forall k | m <= k < n :: !Reopens(states[k], ops[k], id)
    ensures Quiet(states[n], id)
    decreases n
  {
    if m < n {
      var j := n - 1;
      QuietLasts(states, ops, id, m, j);
      assert IsRun(states[..j + 1], ops[..j]);
      RunKeepsValid(states[..j + 1], ops[..j]);
      StepKeepsQuiet(states[j], ops[j], states[n], id);
    }
  }

  /** Acknowledgements survive a restart: an agent whose completion was persisted and
      is not cleared by the first scan is not shown as Done, then or later, until
      some report reopens it. */
  lemma PersistedStaysQuiet(states: seq<State>, ops: seq<Op>, first: Op, persisted: Acks, id: AgentId, r: AgentRecord)
    requires first.PublishLocal? && Admissible(first) && IsRun(states, ops)
    requires states[0] == Started(first.agents, first.transports, first.heading, persisted)
    requires id in persisted.completions
    requires Reported(first, id).Some? ==> !Clears(Reported(first, id).value, persisted)
    requires forall k | 0 <= k < |ops| :: !Reopens(states[k], ops[k], id)
    requires Published(states[|ops|], r) && r.id == id
    ensures r.attention != Attention.Done
  {
    StartedIsValid(first.agents, first.transports, first.heading, persisted);
    StartedIsQuiet(first, persisted, id);
    QuietLasts(states, ops, id, 0, |ops|);
    RunKeepsValid(states, ops);
    QuietIsNotDone(states[|ops|], id, r);
  }

  lemma StartedIsQuiet(first: Op, persisted: Acks, id: AgentId)
    requires first.PublishLocal? && Admissible(first) && id in persisted.completions
    requires Reported(first, id).Some? ==> !Clears(Reported(first, id).value, persisted)
    ensures Quiet(Started(first.agents, first.transports, first.heading, persisted), id)
  {
    UnclearedStays(first.agents, persisted, id);
    OverlaidRecordOf(first.agents, persisted, id);
  }

  // ---------------------------------------------------------------- judged by the reports alone

  /** The report, if there is one, shows the agent neither active nor pursuing a
      goal, and with no outcome but this one. */
  predicate NoNews(op: Op, id: AgentId, outcome: Option<nat>) {
    Reported(op, id).Some? ==> var r := Reported(op, id).value;
      !Active(r.state) && !PursuesGoal(r) && (Outcome(r).Some? ==> Outcome(r) == outcome)
  }

  /** Acknowledging the agent again could not change the acknowledged outcome. */
  ghost predicate Settled(d: State, id: AgentId, outcome: Option<nat>) {
    && id in d.acks.completions && AckedOutcome(d.acks, id) == outcome
    && (Stored(d, id).Some? && AckResultOf(Stored(d, id).value).goal.Some? ==>
          AckResultOf(Stored(d, id).value).goal == outcome)
  }

  lemma OverlaySettles(r: AgentRecord, acks: Acks)
    requires !PursuesGoal(r) && (Outcome(r).Some? ==> Outcome(r) == AckedOutcome(acks, r.id))
    ensures AckResultOf(Overlay(r, acks)).goal.None?
  {
  }

  lemma PublicationKeepsSettled(d: State, op: Op, t: State, id: AgentId, outcome: Option<nat>)
    requires Valid(d) && Admissible(op) && Step(d, op, t) && (op.PublishLocal? || op.PublishRemote?)
    requires Settled(d, id, outcome) && NoNews(op, id, outcome)
    ensures !Reopens(d, op, id) && Settled(t, id, outcome)
  {
    var agents := if op.PublishLocal? then op.agents else NamespacedAll(op.alias, op.agents);
    if op.PublishRemote? { OverlayKeepsRemote(op.alias, op.agents, d.acks); }
    UnclearedStays(agents, d.acks, id);
    OverlaidRecordOf(agents, d.acks, id);
    if RecordOf(agents, id).Some? { OverlaySettles(RecordOf(agents, id).value, d.acks); }
    assert t.acks == AcksAfter(agents, d.acks);
    StoredAfterPublication(d, op, t, id);
  }

  /** A publication replaces the records of one origin and leaves the others. */
  lemma StoredAfterPublication(d: State, op: Op, t: State, id: AgentId)
    requires Step(d, op, t) && (op.PublishLocal? || op.PublishRemote?)
    ensures Stored(t, id) ==
      if op.PublishLocal? && id.LocalId? then RecordOf(OverlayAll(op.agents, d.acks), id)
      else if op.PublishRemote? && id.RemoteId? && id.alias == op.alias
      then RecordOf(OverlayAll(NamespacedAll(op.alias, op.agents), d.acks), id)
      else Stored(d, id)
  {
  }

  lemma StepKeepsSettled(d: State, op: Op, t: State, id: AgentId, outcome: Option<nat>)
    requires Valid(d) && Admissible(op) && Step(d, op, t) && Settled(d, id, outcome) && NoNews(op, id, outcome)
    ensures !Reopens(d, op, id) && Settled(t, id, outcome)
  {
    match op
    case PublishLocal(_, _, _) => PublicationKeepsSettled(d, op, t, id, outcome);
    case PublishRemote(_, _) => PublicationKeepsSettled(d, op, t, id, outcome);
    case PeerError(_) =>
    case Acknowledge(target, _) => AcknowledgedKeepsSettled(d, {target}, id, outcome);
    case MarkAllRead(_) => AcknowledgedKeepsSettled(d, UnreadIds(d), id, outcome);
    case MarkUsed(_, _) =>
  }

  lemma AcknowledgedKeepsSettled(d: State, targets: set<AgentId>, id: AgentId, outcome: Option<nat>)
    requires Settled(d, id, outcome)
    ensures Settled(Acknowledged(d, targets), id, outcome)
  {
    StoredAfterMarking(d, targets, id);
  }

  /** The promise judged by what peers and scans report: an acknowledged idle agent
      is not shown as Done while no report has it active, pursuing a goal, or with
      an outcome other than the one acknowledged at the start. */
  lemma {:induction false} NoNewsNeverDone(states: seq<State>, ops: seq<Op>, id: AgentId, r: AgentRecord)
    requires AcknowledgesIdle(states, ops, id)
    requires forall k | 0 < k < |ops| :: NoNews(ops[k], id, AckedOutcome(states[1].acks, id))
    requires Published(states[|ops|], r) && r.id == id
    ensures r.attention != Attention.Done
  {
    forall k | 0 < k < |ops| ensures !Reopens(states[k], ops[k], id) { NoNewsDoesNotReopen(states, ops, id, k); }
    AcknowledgedStaysQuiet(states, ops, id, r);
  }

  lemma NoNewsDoesNotReopen(states: seq<State>, ops: seq<Op>, id: AgentId, k: nat)
    requires AcknowledgesIdle(states, ops, id) && 0 < k < |ops|
    requires forall k | 0 < k < |ops| :: NoNews(ops[k], id, AckedOutcome(states[1].acks, id))
    ensures !Reopens(states[k], ops[k], id)
  {
    SettledThrough(states, ops, id, k);
    assert IsRun(states[..k + 1], ops[..k]);
    RunKeepsValid(states[..k + 1], ops[..k]);
    StepKeepsSettled(states[k], ops[k], states[k + 1], id, AckedOutcome(states[1].acks, id));
  }

  lemma AcknowledgeSettles(d: State, op: Op, t: State, id: AgentId)
    requires Valid(d) && Step(d, op, t) && id in Acknowledges(d, op)
    requires Stored(d, id).Some? && Stored(d, id).value.state.Idle?
    ensures Settled(t, id, AckedOutcome(t.acks, id))
  {
    var marked := Acknowledged(d, Acknowledges(d, op));
    MarkedSettles(d, Acknowledges(d, op), id);
    assert t == marked.(revision := t.revision, heading := t.heading);
    assert Stored(t, id) == Stored(marked, id);
  }

  lemma MarkedSettles(d: State, targets: set<AgentId>, id: AgentId)
    requires id in targets && Stored(d, id).Some? && Stored(d, id).value.state.Idle?
    ensures var marked := Acknowledged(d, targets); Settled(marked, id, AckedOutcome(marked.acks, id))
  {
    StoredAfterMarking(d, targets, id);
  }

  lemma {:induction false} SettledThrough(states: seq<State>, ops: seq<Op>, id: AgentId, k: nat)
    requires AcknowledgesIdle(states, ops, id) && 0 < k <= |ops|
    requires forall k | 0 < k < |ops| :: NoNews(ops[k], id, AckedOutcome(states[1].acks, id))
    ensures Settled(states[k], id, AckedOutcome(states[1].acks, id))
    decreases k
  {
    var n := k - 1;
    if n == 0 {
      assert Step(states[0], ops[0], states[1]);
      AcknowledgeSettles(states[0], ops[0], states[1], id);
    } else {
      SettledThrough(states, ops, id, n);
      assert IsRun(states[..n + 1], ops[..n]);
      RunKeepsValid(states[..n + 1], ops[..n]);
      StepKeepsSettled(states[n], ops[n], states[k], id, AckedOutcome(states[1].acks, id));
    }
  }
}
