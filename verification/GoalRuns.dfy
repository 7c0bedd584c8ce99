/** Scanner and daemon together: goal outcomes over whole runs.

 The scanner advances its own records and knows nothing of acknowledgements;
 the daemon lays acknowledgements over each snapshot it receives.  A snapshot
 is in flight between a scan and its publication, and users may acknowledge
 what they still see in between. */
module GoalRuns {
  import opened Wrappers
  import opened AgentModel
  import opened Scanner
  import opened Acknowledgement
  import opened Daemon
  import DaemonRuns

  datatype Joint = Joint(previous: seq<AgentRecord>, inFlight: bool, clock: nat, daemon: Daemon.State)

  datatype Move =
    | Scan(sightings: seq<Sighting>, now: nat)
    | Publish(op: Op)
    | Request(op: Op)

  function ScanAll(previous: seq<AgentRecord>, sightings: seq<Sighting>, now: nat): seq<AgentRecord> {
    seq(|sightings|, i requires 0 <= i < |sightings| =>
      ScanRecord(RecordOf(previous, sightings[i].record.id), sightings[i], now))
  }

  /** The snapshot lists the scanned records, in whatever order it sorts them. */
  ghost predicate Lists(agents: seq<AgentRecord>, records: seq<AgentRecord>) {
    forall id :: RecordOf(agents, id) == RecordOf(records, id)
  }

  ghost predicate Moves(j: Joint, m: Move, k: Joint) {
    match m
    case Scan(sightings, now) =>
      && !j.inFlight && j.clock < now
      && DistinctIds(ScanAll(j.previous, sightings, now)) && (forall s | s in sightings :: s.record.id.LocalId?)
      && k == Joint(ScanAll(j.previous, sightings, now), true, now, j.daemon)
    case Publish(op) =>
      && j.inFlight && op.PublishLocal? && Admissible(op) && Lists(op.agents, j.previous)
      && Step(j.daemon, op, k.daemon)
      && k == Joint(j.previous, false, j.clock, k.daemon)
    case Request(op) =>
      && !op.PublishLocal? && Admissible(op)
      && Step(j.daemon, op, k.daemon)
      && k == j.(daemon := k.daemon)
  }

  /** The local record carries the outcome first observed at `t`. */
  predicate At(r: Option<AgentRecord>, t: nat) {
    r.Some? && r.value.goal.Some? && Terminal(r.value.goal.value.state) && r.value.goal.value.observedAt == t
  }

  predicate Pending(r: Option<AgentRecord>) { r.Some? && GoalPending(r.value) }

  function Scanned(j: Joint, id: AgentId): Option<AgentRecord> { RecordOf(j.previous, id) }

  function Shown(j: Joint, id: AgentId): Option<AgentRecord> { RecordOf(j.daemon.local, id) }

  /** A pursued goal is never pending and carries no time; nothing is dated after `limit`. */
  predicate Dated(r: AgentRecord, limit: nat) {
    r.goal.Some? ==>
      && (r.goal.value.state.Pursuing? ==> !r.goal.value.pending && r.goal.value.observedAt == 0)
      && r.goal.value.observedAt <= limit
  }

  /** The user cannot have seen the scan in flight: what is shown or
      acknowledged is older than it. */
  ghost predicate Ordered(j: Joint) {
    && Daemon.Valid(j.daemon)
    && (j.inFlight ==> j.clock > 0)
    && (forall r | r in j.previous :: Dated(r, j.clock))
    && var limit := if j.inFlight then j.clock - 1 else j.clock;
       && (forall r | r in j.daemon.local :: Dated(r, limit))
       && (forall id | id in j.daemon.acks.goals && id.LocalId? :: j.daemon.acks.goals[id] <= limit)
  }

  // ---------------------------------------------------------------- single steps

  lemma {:induction false} ScannedAfter(previous: seq<AgentRecord>, sightings: seq<Sighting>, now: nat, id: AgentId)
    ensures var r := RecordOf(ScanAll(previous, sightings, now), id);
      r.Some? ==> exists s ::
          s in sightings && s.record.id == id && r.value == ScanRecord(RecordOf(previous, id), s, now)
  {
    var all := ScanAll(previous, sightings, now);
    var r := RecordOf(all, id);
    if r.Some? {
      var i :| 0 <= i < |all| && all[i] == r.value;
      assert sightings[i] in sightings;
    }
  }

  lemma DatedScan(previous: Option<AgentRecord>, s: Sighting, now: nat, clock: nat)
    requires previous.Some? ==> Dated(previous.value, clock)
    requires clock < now
    ensures Dated(ScanRecord(previous, s, now), now)
  {
  }

  lemma ScanKeepsOrder(j: Joint, m: Move, k: Joint)
    requires Ordered(j) && m.Scan? && Moves(j, m, k)
    ensures Ordered(k)
  {
    forall r | r in k.previous ensures Dated(r, k.clock) {
      var i :| 0 <= i < |k.previous| && k.previous[i] == r;
      DatedScan(RecordOf(j.previous, m.sightings[i].record.id), m.sightings[i], m.now, j.clock);
    }
  }

  /** Showing a dated snapshot under acknowledgements leaves it dated. */
  lemma OverlaidIsDated(agents: seq<AgentRecord>, records: seq<AgentRecord>, acks: Acks, limit: nat)
    requires DistinctIds(agents) && Lists(agents, records) && forall r | r in records :: Dated(r, limit)
    ensures forall r | r in OverlayAll(agents, acks) :: Dated(r, limit)
  {
    var shown := OverlayAll(agents, acks);
    forall i | 0 <= i < |shown| ensures Dated(shown[i], limit) {
      RecordAt(agents, i);
      assert RecordOf(records, agents[i].id) == Some(agents[i]);
    }
  }

  lemma PublishKeepsOrder(j: Joint, m: Move, k: Joint)
    requires Ordered(j) && m.Publish? && Moves(j, m, k)
    ensures Ordered(k)
  {
    StepKeepsValid(j.daemon, m.op, k.daemon);
    OverlaidIsDated(m.op.agents, j.previous, j.daemon.acks, k.clock);
    assert k.daemon.local == OverlayAll(m.op.agents, j.daemon.acks);
  }

  lemma LocalAfterRequest(d: Daemon.State, op: Op, t: Daemon.State)
    requires Daemon.Valid(d) && Admissible(op) && !op.PublishLocal? && Step(d, op, t)
    ensures t.local == match op
                       case Acknowledge(target, _) =>
                         if Result(d, target).found then Marked(d.local, {target}) else d.local
                       case MarkAllRead(_) => Marked(d.local, UnreadIds(d))
                       case _ => d.local
  {
    if op.MarkAllRead? && UnreadIds(d) == {} { assert Marked(d.local, {}) == d.local; }
  }

  lemma GoalsAfterMarking(d: Daemon.State, targets: set<AgentId>, id: AgentId)
    ensures AckedOutcome(Acknowledged(d, targets).acks, id)
            == if id in targets && Result(d, id).goal.Some? then Result(d, id).goal else AckedOutcome(d.acks, id)
  {
  }

  lemma GoalsAfterReport(d: Daemon.State, op: Op, t: Daemon.State, id: AgentId)
    requires op.PublishRemote? && Step(d, op, t) && id.LocalId?
    ensures AckedOutcome(t.acks, id) == AckedOutcome(d.acks, id)
  {
    assert forall r | r in NamespacedAll(op.alias, op.agents) :: r.id.RemoteId?;
  }

  lemma RecordsAfterRequest(d: Daemon.State, op: Op, t: Daemon.State, id: AgentId)
    requires Daemon.Valid(d) && Admissible(op) && !op.PublishLocal? && Step(d, op, t)
    ensures RecordOf(t.local, id)
            == match RecordOf(d.local, id)
               case Some(r) => Some(if id in Acknowledges(d, op) then AckedRecord(r) else r)
               case None => None
  {
    LocalAfterRequest(d, op, t);
    match op
    case Acknowledge(target, _) =>
      DaemonRuns.MarkedRecordOf(d.local, {target}, id);
      if !Result(d, target).found { NoLocalRecord(d, target); }
    case MarkAllRead(_) => DaemonRuns.MarkedRecordOf(d.local, UnreadIds(d), id);
    case _ =>
  }

  lemma NoLocalRecord(d: Daemon.State, target: AgentId)
    requires Daemon.Valid(d) && Stored(d, target).None?
    ensures RecordOf(d.local, target).None?
  {
  }

  /** A request acknowledges the goals of its targets and leaves other local
      acknowledgements alone. */
  lemma GoalAcksAfterRequest(d: Daemon.State, op: Op, t: Daemon.State, id: AgentId)
    requires Daemon.Valid(d) && Admissible(op) && !op.PublishLocal? && Step(d, op, t) && id.LocalId?
    ensures AckedOutcome(t.acks, id)
            == if id in Acknowledges(d, op) && Result(d, id).goal.Some? then Result(d, id).goal
               else AckedOutcome(d.acks, id)
    ensures RecordOf(t.local, id)
            == match RecordOf(d.local, id)
               case Some(r) => Some(if id in Acknowledges(d, op) then AckedRecord(r) else r)
               case None => None
  {
    RecordsAfterRequest(d, op, t, id);
    match op
    case Acknowledge(target, _) => GoalsAfterMarking(d, {target}, id);
    case MarkAllRead(_) => GoalsAfterMarking(d, UnreadIds(d), id);
    case PublishRemote(_, _) => GoalsAfterReport(d, op, t, id);
    case _ =>
  }

  lemma DatedAfterRequest(d: Daemon.State, op: Op, t: Daemon.State, r: AgentRecord, limit: nat)
    requires Daemon.Valid(d) && Daemon.Valid(t) && Admissible(op) && !op.PublishLocal? && Step(d, op, t)
    requires r in t.local && forall q | q in d.local :: Dated(q, limit)
    ensures Dated(r, limit)
  {
    var i :| 0 <= i < |t.local| && t.local[i] == r;
    RecordAt(t.local, i);
    RecordsAfterRequest(d, op, t, r.id);
  }

  lemma RequestKeepsOrder(j: Joint, m: Move, k: Joint)
    requires Ordered(j) && m.Request? && Moves(j, m, k)
    ensures Ordered(k)
  {
    StepKeepsValid(j.daemon, m.op, k.daemon);
    var limit := if j.inFlight then j.clock - 1 else j.clock;
    forall r | r in k.daemon.local ensures Dated(r, limit) {
      DatedAfterRequest(j.daemon, m.op, k.daemon, r, limit);
    }
    forall id | id in k.daemon.acks.goals && id.LocalId? ensures k.daemon.acks.goals[id] <= limit {
      GoalAcksAfterRequest(j.daemon, m.op, k.daemon, id);
    }
  }

  /** A daemon and a scanner that have just started: the first scan, of records
      persisted before `now`, is shown under acknowledgements persisted before it. */
  ghost predicate Starts(j: Joint, earlier: seq<AgentRecord>, sightings: seq<Sighting>, op: Op, persisted: Acks) {
    && j.clock > 0 && !j.inFlight && j.previous == ScanAll(earlier, sightings, j.clock)
    && (forall r | r in earlier :: Dated(r, j.clock - 1))
    && (forall id | id in persisted.goals :: persisted.goals[id] < j.clock)
    && op.PublishLocal? && Admissible(op) && Lists(op.agents, j.previous)
    && j.daemon == Started(op.agents, op.transports, op.heading, persisted)
  }

  lemma FirstScanIsDated(earlier: seq<AgentRecord>, sightings: seq<Sighting>, now: nat, r: AgentRecord)
    requires now > 0 && (forall e | e in earlier :: Dated(e, now - 1)) && r in ScanAll(earlier, sightings, now)
    ensures Dated(r, now)
  {
    var all := ScanAll(earlier, sightings, now);
    var i :| 0 <= i < |all| && all[i] == r;
    DatedScan(RecordOf(earlier, sightings[i].record.id), sightings[i], now, now - 1);
  }

  lemma StartIsOrdered(j: Joint, earlier: seq<AgentRecord>, sightings: seq<Sighting>, op: Op, persisted: Acks)
    requires Starts(j, earlier, sightings, op, persisted)
    ensures Ordered(j)
  {
    StartedIsValid(op.agents, op.transports, op.heading, persisted);
    forall r | r in j.previous ensures Dated(r, j.clock) { FirstScanIsDated(earlier, sightings, j.clock, r); }
    OverlaidIsDated(op.agents, j.previous, persisted, j.clock);
  }

  lemma MoveKeepsOrder(j: Joint, m: Move, k: Joint)
    requires Ordered(j) && Moves(j, m, k)
    ensures Ordered(k)
  {
    match m
    case Scan(_, _) => ScanKeepsOrder(j, m, k);
    case Publish(_) => PublishKeepsOrder(j, m, k);
    case Request(_) => RequestKeepsOrder(j, m, k);
  }

  lemma PublishShows(j: Joint, m: Move, k: Joint, id: AgentId)
    requires Ordered(j) && m.Publish? && Moves(j, m, k)
    ensures Shown(k, id) == match Scanned(j, id) case Some(r) => Some(Overlay(r, j.daemon.acks)) case None => None
    ensures Scanned(j, id).Some? && !Clears(Scanned(j, id).value, j.daemon.acks) ==>
      AckedOutcome(k.daemon.acks, id) == AckedOutcome(j.daemon.acks, id)
    ensures AckedOutcome(k.daemon.acks, id).Some? ==> AckedOutcome(k.daemon.acks, id) == AckedOutcome(j.daemon.acks, id)
  {
    DaemonRuns.OverlaidRecordOf(m.op.agents, j.daemon.acks, id);
    assert k.daemon.local == OverlayAll(m.op.agents, j.daemon.acks);
    if Scanned(j, id).Some? && !Clears(Scanned(j, id).value, j.daemon.acks) {
      forall r | r in m.op.agents && r.id == id ensures !Clears(r, j.daemon.acks) {
        var i :| 0 <= i < |m.op.agents| && m.op.agents[i] == r;
        RecordAt(m.op.agents, i);
      }
    }
  }

  // ---------------------------------------------------------------- acknowledged outcomes stay silent

  /** The outcome of `id` first observed at `t` has been acknowledged for good. */
  ghost predicate Silenced(j: Joint, id: AgentId, t: nat) {
    && id.LocalId? && 0 < t <= j.clock
    && !(At(Shown(j, id), t) && Pending(Shown(j, id)))
    && (At(Scanned(j, id), t) ==>
          && (Pending(Scanned(j, id)) ==> AckedOutcome(j.daemon.acks, id) == Some(t))
          && !(Pending(Shown(j, id)) && Shown(j, id).value.goal.value.observedAt > 0))
  }

  /** A scan never turns an old outcome pending again. */
  lemma SilentScan(previous: Option<AgentRecord>, s: Sighting, now: nat, t: nat)
    requires 0 < t < now && (previous.Some? ==> Dated(previous.value, now))
    ensures var r := Some(ScanRecord(previous, s, now));
      At(r, t) ==> At(previous, t) && (Pending(r) ==> Pending(previous))
  {
  }

  lemma ScanKeepsSilence(j: Joint, m: Move, k: Joint, id: AgentId, t: nat)
    requires Ordered(j) && m.Scan? && Moves(j, m, k) && Silenced(j, id, t)
    ensures Silenced(k, id, t)
  {
    ScannedAfter(j.previous, m.sightings, m.now, id);
    if Scanned(k, id).Some? {
      var s :| s in m.sightings && s.record.id == id && Scanned(k, id).value == ScanRecord(Scanned(j, id), s, m.now);
      if Scanned(j, id).Some? { assert Dated(Scanned(j, id).value, j.clock); }
      SilentScan(Scanned(j, id), s, m.now, t);
    }
  }

  /** The overlay shows no acknowledged outcome as pending and keeps its acknowledgement. */
  lemma SilentOverlay(r: AgentRecord, acks: Acks, t: nat)
    requires t > 0
    ensures At(Some(Overlay(r, acks)), t) <==> At(Some(r), t)
    ensures At(Some(r), t) && (GoalPending(r) ==> AckedOutcome(acks, r.id) == Some(t)) ==>
      !GoalPending(Overlay(r, acks)) && (GoalPending(r) ==> !Clears(r, acks))
  {
  }

  lemma PublishKeepsSilence(j: Joint, m: Move, k: Joint, id: AgentId, t: nat)
    requires Ordered(j) && m.Publish? && Moves(j, m, k) && Silenced(j, id, t)
    ensures Silenced(k, id, t)
  {
    PublishShows(j, m, k, id);
    assert Scanned(k, id) == Scanned(j, id);
    if Scanned(j, id).Some? { SilentOverlay(Scanned(j, id).value, j.daemon.acks, t); }
  }

  lemma RequestKeepsSilence(j: Joint, m: Move, k: Joint, id: AgentId, t: nat)
    requires Ordered(j) && m.Request? && Moves(j, m, k) && Silenced(j, id, t)
    ensures Silenced(k, id, t)
  {
    GoalAcksAfterRequest(j.daemon, m.op, k.daemon, id);
  }

  lemma MoveKeepsSilence(j: Joint, m: Move, k: Joint, id: AgentId, t: nat)
    requires Ordered(j) && Moves(j, m, k) && Silenced(j, id, t)
    ensures Silenced(k, id, t)
  {
    match m
    case Scan(_, _) => ScanKeepsSilence(j, m, k, id, t);
    case Publish(_) => PublishKeepsSilence(j, m, k, id, t);
    case Request(_) => RequestKeepsSilence(j, m, k, id, t);
  }

  lemma AcknowledgingSilences(j: Joint, m: Move, k: Joint, id: AgentId, t: nat)
    requires Ordered(j) && Moves(j, m, k) && m.Request? && id.LocalId? && id in Acknowledges(j.daemon, m.op)
    requires At(Shown(j, id), t) && Pending(Shown(j, id)) && t > 0
    ensures Silenced(k, id, t)
  {
    GoalAcksAfterRequest(j.daemon, m.op, k.daemon, id);
    assert Dated(Shown(j, id).value, j.clock);
  }

  ghost predicate IsRun(states: seq<Joint>, moves: seq<Move>) {
    && |states| == |moves| + 1
    && forall i | 0 <= i < |moves| :: Moves(states[i], moves[i], states[i + 1])
  }

  lemma {:induction false} RunKeepsOrder(states: seq<Joint>, moves: seq<Move>)
    requires IsRun(states, moves) && Ordered(states[0])
    ensures Ordered(states[|moves|])
    decreases |moves|
  {
    if moves != [] {
      var n := |moves| - 1;
      assert IsRun(states[..n + 1], moves[..n]);
      RunKeepsOrder(states[..n + 1], moves[..n]);
      MoveKeepsOrder(states[n], moves[n], states[n + 1]);
    }
  }

  /** Once a terminal outcome is acknowledged, no snapshot published later in
      the run shows that outcome as pending again. */
  lemma {:induction false} AcknowledgedOutcomeStaysSilent(states: seq<Joint>, moves: seq<Move>, id: AgentId, t: nat)
    requires IsRun(states, moves) && Ordered(states[0]) && |moves| > 0
    requires moves[0].Request? && id.LocalId? && id in Acknowledges(states[0].daemon, moves[0].op)
    requires At(Shown(states[0], id), t) && Pending(Shown(states[0], id)) && t > 0
    ensures Silenced(states[|moves|], id, t)
    ensures !(At(Shown(states[|moves|], id), t) && Pending(Shown(states[|moves|], id)))
    decreases |moves|
  {
    var n := |moves| - 1;
    if n == 0 {
      AcknowledgingSilences(states[0], moves[0], states[1], id, t);
    } else {
      assert IsRun(states[..n + 1], moves[..n]);
      AcknowledgedOutcomeStaysSilent(states[..n + 1], moves[..n], id, t);
      RunKeepsOrder(states[..n + 1], moves[..n]);
      MoveKeepsSilence(states[n], moves[n], states[n + 1], id, t);
    }
  }

  // ---------------------------------------------------------------- new outcomes are shown

  /** Scanned as pending at `t` and not acknowledged. */
  ghost predicate Awaited(j: Joint, id: AgentId, t: nat) {
    && id.LocalId? && t > 0
    && At(Scanned(j, id), t) && Pending(Scanned(j, id)) && AckedOutcome(j.daemon.acks, id) != Some(t)
  }

  /** ... and published so. */
  ghost predicate Outstanding(j: Joint, id: AgentId, t: nat) {
    Awaited(j, id, t) && At(Shown(j, id), t) && Pending(Shown(j, id))
  }

  /** What may end a pending outcome: the agent disappears, turns from inactive
      to active, or reports another goal; or the user acknowledges what is shown. */
  ghost predicate Releases(j: Joint, m: Move, id: AgentId, t: nat) {
    match m
    case Scan(sightings, _) =>
      forall s | s in sightings && s.record.id == id ::
        || (Active(s.record.state) && !(Scanned(j, id).Some? && Active(Scanned(j, id).value.state)))
        || (s.goal.Some? && (s.goal.value.state.Pursuing? || NewOutcome(Scanned(j, id), s.goal.value)))
    case Publish(_) => false
    case Request(op) => At(Shown(j, id), t) && id in Acknowledges(j.daemon, op)
  }

  lemma NewOutcomeIsAwaited(j: Joint, m: Move, k: Joint, i: nat)
    requires Ordered(j) && m.Scan? && Moves(j, m, k) && i < |m.sightings|
    requires var s := m.sightings[i]; s.goal.Some? && NewOutcome(Scanned(j, s.record.id), s.goal.value)
    ensures Awaited(k, m.sightings[i].record.id, m.now) && k.inFlight
  {
    RecordAt(k.previous, i);
  }

  lemma ScanKeepsAwaited(j: Joint, m: Move, k: Joint, id: AgentId, t: nat)
    requires m.Scan? && Moves(j, m, k) && Outstanding(j, id, t) && !Releases(j, m, id, t)
    ensures Outstanding(k, id, t)
  {
    var s :| s in m.sightings && s.record.id == id
      && !(Active(s.record.state) && !(Scanned(j, id).Some? && Active(Scanned(j, id).value.state)))
      && !(s.goal.Some? && (s.goal.value.state.Pursuing? || NewOutcome(Scanned(j, id), s.goal.value)));
    var i :| 0 <= i < |m.sightings| && m.sightings[i] == s;
    RecordAt(k.previous, i);
  }

  lemma PublishKeepsAwaited(j: Joint, m: Move, k: Joint, id: AgentId, t: nat)
    requires Ordered(j) && m.Publish? && Moves(j, m, k) && Awaited(j, id, t)
    ensures Outstanding(k, id, t)
  {
    PublishShows(j, m, k, id);
    AwaitedOverlay(Scanned(j, id).value, j.daemon.acks, t);
    assert Scanned(k, id) == Scanned(j, id);
  }

  /** The overlay leaves an outcome that is not acknowledged as it is. */
  lemma AwaitedOverlay(r: AgentRecord, acks: Acks, t: nat)
    requires t > 0 && At(Some(r), t) && GoalPending(r) && AckedOutcome(acks, r.id) != Some(t)
    ensures At(Some(Overlay(r, acks)), t) && GoalPending(Overlay(r, acks))
  {
  }

  lemma RequestKeepsAwaited(j: Joint, m: Move, k: Joint, id: AgentId, t: nat)
    requires Ordered(j) && m.Request? && Moves(j, m, k) && Awaited(j, id, t) && !Releases(j, m, id, t)
    requires Outstanding(j, id, t) || (j.inFlight && t == j.clock)
    ensures Awaited(k, id, t) && (Outstanding(j, id, t) ==> Outstanding(k, id, t))
  {
    GoalAcksAfterRequest(j.daemon, m.op, k.daemon, id);
    if Shown(j, id).Some? { assert Dated(Shown(j, id).value, if j.inFlight then j.clock - 1 else j.clock); }
  }

  lemma MoveKeepsAwaited(j: Joint, m: Move, k: Joint, id: AgentId, t: nat)
    requires Ordered(j) && Moves(j, m, k) && Awaited(j, id, t) && !Releases(j, m, id, t)
    requires Outstanding(j, id, t) || (j.inFlight && t == j.clock)
    ensures Awaited(k, id, t)
    ensures Outstanding(j, id, t) || m.Publish? ==> Outstanding(k, id, t)
  {
    match m
    case Scan(_, _) => ScanKeepsAwaited(j, m, k, id, t);
    case Publish(_) => PublishKeepsAwaited(j, m, k, id, t);
    case Request(_) => RequestKeepsAwaited(j, m, k, id, t);
  }

  /** A new outcome is published as pending, and stays pending in every
      snapshot until something releases it. */
  lemma {:induction false} NewOutcomeStaysPending(states: seq<Joint>, moves: seq<Move>, i: nat)
    requires IsRun(states, moves) && Ordered(states[0]) && |moves| > 0
    requires moves[0].Scan? && i < |moves[0].sightings|
    requires var s := moves[0].sightings[i]; s.goal.Some? && NewOutcome(Scanned(states[0], s.record.id), s.goal.value)
    requires var id := moves[0].sightings[i].record.id;
      forall k | 0 < k < |moves| :: !Releases(states[k], moves[k], id, moves[0].now)
    ensures var id, n := moves[0].sightings[i].record.id, |moves|;
      && Awaited(states[n], id, moves[0].now)
      && (if exists k :: 0 < k < n && moves[k].Publish? then Outstanding(states[n], id, moves[0].now)
          else states[n].inFlight && states[n].clock == moves[0].now)
    decreases |moves|
  {
    var n := |moves| - 1;
    if n == 0 {
      NewOutcomeIsAwaited(states[0], moves[0], states[1], i);
    } else {
      assert IsRun(states[..n + 1], moves[..n]);
      NewOutcomeStaysPending(states[..n + 1], moves[..n], i);
      RunKeepsOrder(states[..n + 1], moves[..n]);
      var id := moves[0].sightings[i].record.id;
      assert states[n] == states[..n + 1][n];
      if k :| 0 < k < n && moves[k].Publish? { assert moves[..n][k].Publish?; }
      MoveKeepsAwaited(states[n], moves[n], states[n + 1], id, moves[0].now);
    }
  }
}
