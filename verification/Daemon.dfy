/** The aggregate the daemon guards with one lock (`Aggregate`, `Shared` of
    src/daemon.rs): its operations as transitions, and what every run keeps. */
module Daemon {
  import opened Wrappers
  import opened AgentModel
  import opened Acknowledgement
  import opened Transports

  /** What heads a local snapshot. */
  datatype Heading = Heading(host: string, server: string, revision: nat)

  datatype State = State(
    local: seq<AgentRecord>, transports: seq<Transport>, heading: Heading,
    remotes: map<string, seq<AgentRecord>>, remoteSeen: map<string, map<AgentId, bool>>,
    acks: Acks, lastUsed: map<AgentId, nat>, revision: nat)

  datatype Op =
    | PublishLocal(agents: seq<AgentRecord>, transports: seq<Transport>, heading: Heading)
    | PublishRemote(alias: string, agents: seq<AgentRecord>)
    | PeerError(alias: string)
    | Acknowledge(target: AgentId, saved: bool)
    | MarkAllRead(saved: bool)
    | MarkUsed(target: AgentId, now: nat)

  function Bumped(heading: Heading): Heading {
    heading.(revision := heading.revision + 1)
  }

  predicate SameOrigin(a: Heading, b: Heading) {
    a.host == b.host && a.server == b.server
  }

  /** A daemon that shows its first snapshot under the persisted acknowledgements. */
  ghost function Started(
    agents: seq<AgentRecord>, transports: seq<Transport>, heading: Heading, persisted: Acks): State
  {
    State(OverlayAll(agents, persisted), transports, heading, map[], map[], AcksAfter(agents, persisted), map[], 1)
  }

  /** `namespace_remote`. */
  function Namespaced(alias: string, r: AgentRecord): AgentRecord {
    r.(id := RemoteId(alias, r.id), route := r.route.(remoteAlias := Some(alias)),
       place := r.place.(host := alias, focusTarget := None),
       subagent := if r.subagent.Some?
                   then Some(r.subagent.value.(parentId := RemoteId(alias, r.subagent.value.parentId))) else None)
  }

  function NamespacedAll(alias: string, agents: seq<AgentRecord>): seq<AgentRecord> {
    seq(|agents|, i requires 0 <= i < |agents| => Namespaced(alias, agents[i]))
  }

  function OverlayAll(agents: seq<AgentRecord>, acks: Acks): seq<AgentRecord> {
    seq(|agents|, i requires 0 <= i < |agents| => Overlay(agents[i], acks))
  }

  /** What the surrounding program guarantees about reports. */
  ghost predicate Admissible(op: Op) {
    match op
    case PublishLocal(agents, _, _) =>
      DistinctIds(agents) && forall r | r in agents :: r.id.LocalId? && Consistent(r)
    case PublishRemote(_, agents) =>
      DistinctIds(agents) && forall r | r in agents :: Consistent(r)
    case _ => true
  }

  ghost function KnownIds(local: seq<AgentRecord>, remotes: map<string, seq<AgentRecord>>): set<AgentId> {
    Ids(local) + set alias, r | alias in remotes && r in remotes[alias] :: r.id
  }

  /** `prune_last_used`. */
  ghost function Pruned(d: State): State {
    d.(lastUsed := Restricted(d.lastUsed, KnownIds(d.local, d.remotes)))
  }

  function Restricted(lastUsed: map<AgentId, nat>, known: set<AgentId>): map<AgentId, nat> {
    map id | id in lastUsed && id in known :: lastUsed[id]
  }

  function IndexOf(d: State, alias: string): map<AgentId, bool> {
    Lookup(d.remoteSeen, alias).GetOr(map[])
  }

  /** The record the daemon holds under an ID. */
  function Stored(d: State, id: AgentId): Option<AgentRecord> {
    match id
    case LocalId(_) => RecordOf(d.local, id)
    case RemoteId(alias, _) => RecordOf(Lookup(d.remotes, alias).GetOr([]), id)
  }

  function Result(d: State, id: AgentId): AckResult {
    match Stored(d, id)
    case Some(r) => AckResultOf(r)
    case None => NOT_FOUND
  }

  /** The targets whose completion is remembered. */
  ghost function Completed(d: State, targets: set<AgentId>): set<AgentId> {
    set id | id in targets && Result(d, id).persistCompletion
  }

  /** An index in which these agents count as seen. */
  function Raised(index: map<AgentId, bool>, targets: set<AgentId>): map<AgentId, bool> {
    map id | id in index :: index[id] || id in targets
  }

  /** The aggregate with these records acknowledged. */
  ghost function Acknowledged(d: State, targets: set<AgentId>): State {
    d.(local := Marked(d.local, targets),
       remotes := map alias | alias in d.remotes :: Marked(d.remotes[alias], targets),
       remoteSeen := map alias | alias in d.remoteSeen :: Raised(d.remoteSeen[alias], Completed(d, targets)),
       acks := Acks(
         d.acks.completions + Completed(d, targets),
         d.acks.goals + Outcomes(d, targets)))
  }

  /** The pending outcomes of the targets, by the time they were observed. */
  ghost function Outcomes(d: State, targets: set<AgentId>): map<AgentId, nat> {
    map id | id in targets && Result(d, id).goal.Some? :: Result(d, id).goal.value
  }

  /** A peer's records as the merged snapshot shows them. */
  function MergedRemote(d: State, alias: string): seq<AgentRecord>
    requires alias in d.remotes
  {
    var agents := d.remotes[alias];
    seq(|agents|, i requires 0 <= i < |agents| => Reconciled(agents[i], agents, d.transports, IndexOf(d, alias)))
  }

  /** `Shared::snapshot` contains this record. */
  ghost predicate Published(d: State, r: AgentRecord) {
    r in d.local || exists alias :: alias in d.remotes && r in MergedRemote(d, alias)
  }

  /** What mark-all-read acknowledges. */
  ghost function UnreadIds(d: State): set<AgentId> {
    (set r | r in d.local && Unread(r) :: r.id)
    + (set alias, r | alias in d.remotes && r in MergedRemote(d, alias) && Unread(r) :: r.id)
  }

  /** The IDs an operation acknowledges. */
  ghost function Acknowledges(d: State, op: Op): set<AgentId> {
    match op
    case Acknowledge(target, _) => {target}
    case MarkAllRead(_) => UnreadIds(d)
    case _ => {}
  }

  ghost predicate LocalPublished(
    d: State, agents: seq<AgentRecord>, transports: seq<Transport>, heading: Heading, t: State)
  {
    var shown := OverlayAll(agents, d.acks);
    var left := AcksAfter(agents, d.acks);
    if shown == d.local && transports == d.transports && SameOrigin(heading, d.heading) then t == d.(acks := left)
    else
      && t == Pruned(d.(local := shown, transports := transports, heading := heading, acks := left,
                        remoteSeen := t.remoteSeen, revision := d.revision + 1))
      && t.remoteSeen.Keys == d.remoteSeen.Keys + d.remotes.Keys
      && (forall alias | alias in d.remoteSeen && alias !in d.remotes :: t.remoteSeen[alias] == d.remoteSeen[alias])
      && forall alias | alias in d.remotes ::
           IsObservation(d.remotes[alias], d.remotes[alias], transports, IndexOf(d, alias), t.remoteSeen[alias])
  }

  /** An observation in which acknowledged idle agents count as seen. */
  ghost predicate IsAckedObservation(
    agents: seq<AgentRecord>, observed: map<AgentId, bool>, left: Acks, index: map<AgentId, bool>)
  {
    && index.Keys == observed.Keys
    && forall i | 0 <= i < |agents| && agents[i].id in observed ::
         index[agents[i].id] == (observed[agents[i].id] || (agents[i].id in left.completions && agents[i].state.Idle?))
  }

  ghost predicate RemotePublished(d: State, alias: string, raw: seq<AgentRecord>, t: State) {
    var agents := NamespacedAll(alias, raw);
    var previous := Lookup(d.remotes, alias).GetOr([]);
    var left := AcksAfter(agents, d.acks);
    && alias in t.remoteSeen
    && t == Pruned(d.(remotes := d.remotes[alias := OverlayAll(agents, d.acks)], acks := left,
                      remoteSeen := d.remoteSeen[alias := t.remoteSeen[alias]], revision := d.revision + 1))
    && exists observed: map<AgentId, bool> ::
         && IsObservation(agents, previous, d.transports, IndexOf(d, alias), observed)
         && IsAckedObservation(agents, observed, left, t.remoteSeen[alias])
  }

  /** Acknowledging bumps revisions once the acknowledgements are on disk; a
      failed write keeps the acknowledgement in memory only. */
  ghost function Committed(d: State, t: State, needsSave: bool, saved: bool, touchesLocal: bool): State {
    if needsSave && !saved then t
    else t.(revision := d.revision + 1, heading := if touchesLocal then Bumped(d.heading) else d.heading)
  }

  predicate AnyLocal(targets: set<AgentId>) { exists id :: id in targets && id.LocalId? }

  ghost predicate AllRead(d: State, targets: set<AgentId>, saved: bool, t: State) {
    t == if targets == {} then d else Committed(d, Acknowledged(d, targets), true, saved, AnyLocal(targets))
  }

  ghost predicate Step(d: State, op: Op, t: State) {
    match op
    case PublishLocal(agents, transports, heading) => LocalPublished(d, agents, transports, heading, t)
    case PublishRemote(alias, agents) => RemotePublished(d, alias, agents, t)
    case PeerError(alias) =>
      t == Pruned(d.(remotes := d.remotes - {alias}, remoteSeen := d.remoteSeen - {alias}, revision := d.revision + 1))
    case Acknowledge(target, saved) =>
      var result := Result(d, target);
      t == if !result.found then d
           else Committed(d, Acknowledged(d, {target}), result.persistCompletion, saved, target.LocalId?)
    case MarkAllRead(saved) => AllRead(d, UnreadIds(d), saved, t)
    case MarkUsed(target, now) =>
      t == if Stored(d, target).Some? && Stored(d, target).value.subagent.None?
           then d.(lastUsed := d.lastUsed[target := now], revision := d.revision + 1) else d
  }

  // ---------------------------------------------------------------- validity

  /** The index of one peer: an entry exactly for the records that one local
      transport shows, and a set one for those the user is looking at. */
  ghost predicate IndexMatches(agents: seq<AgentRecord>, transports: seq<Transport>, index: map<AgentId, bool>) {
    && index.Keys <= Ids(agents)
    && forall i | 0 <= i < |agents| ::
         var resolution := Resolve(agents[i], agents, transports);
         && (agents[i].id in index <==> resolution.One?)
         && (resolution.One? && agents[i].visible && resolution.transport.visible ==> index[agents[i].id])
  }

  ghost predicate Valid(d: State) {
    && DistinctIds(d.local)
    && (forall r | r in d.local :: r.id.LocalId? && Consistent(r))
    && d.remoteSeen.Keys == d.remotes.Keys
    && (forall alias | alias in d.remotes :: ValidRemote(alias, d.remotes[alias]))
    && (forall alias | alias in d.remotes :: IndexMatches(d.remotes[alias], d.transports, d.remoteSeen[alias]))
    && d.lastUsed.Keys <= KnownIds(d.local, d.remotes)
  }

  ghost predicate ValidRemote(alias: string, agents: seq<AgentRecord>) {
    && DistinctIds(agents)
    && forall r | r in agents ::
         r.id.RemoteId? && r.id.alias == alias && r.route.remoteAlias == Some(alias) && Consistent(r)
  }

  lemma ObservationMatches(agents: seq<AgentRecord>, previous: seq<AgentRecord>, transports: seq<Transport>,
                           before: map<AgentId, bool>, after: map<AgentId, bool>)
    requires IsObservation(agents, previous, transports, before, after)
    ensures IndexMatches(agents, transports, after)
  {
    forall i | 0 <= i < |agents|
      ensures var resolution := Resolve(agents[i], agents, transports);
        && (agents[i].id in after <==> resolution.One?)
        && (resolution.One? && agents[i].visible && resolution.transport.visible ==> after[agents[i].id])
    {
      assert Lookup(after, agents[i].id) == EntryAt(agents, previous, transports, before, i);
    }
  }

  /** Reading records, or counting more entries as seen, keeps the index right. */
  lemma MatchesAfterReading(agents: seq<AgentRecord>, shown: seq<AgentRecord>, transports: seq<Transport>,
                            index: map<AgentId, bool>, raised: map<AgentId, bool>)
    requires IndexMatches(agents, transports, index) && SameRoutes(agents, shown)
    requires raised.Keys == index.Keys && forall id | id in index && index[id] :: raised[id]
    ensures IndexMatches(shown, transports, raised)
  {
    forall i | 0 <= i < |shown|
      ensures var resolution := Resolve(shown[i], shown, transports);
        && (shown[i].id in raised <==> resolution.One?)
        && (resolution.One? && shown[i].visible && resolution.transport.visible ==> raised[shown[i].id])
    {
      assert SameRoute(agents[i], shown[i]);
      SameResolution(agents[i], shown[i], agents, shown, transports);
    }
    assert Ids(shown) == Ids(agents) by {
      forall id | id in Ids(agents) ensures id in Ids(shown) {
        var i :| 0 <= i < |agents| && agents[i].id == id;
        assert SameRoute(agents[i], shown[i]) && shown[i] in shown;
      }
      forall id | id in Ids(shown) ensures id in Ids(agents) {
        var i :| 0 <= i < |shown| && shown[i].id == id;
        assert SameRoute(agents[i], shown[i]) && agents[i] in agents;
      }
    }
  }

  lemma OverlayKeepsRemote(alias: string, raw: seq<AgentRecord>, acks: Acks)
    requires DistinctIds(raw) && forall r | r in raw :: Consistent(r)
    ensures var agents := NamespacedAll(alias, raw);
      ValidRemote(alias, agents) && ValidRemote(alias, OverlayAll(agents, acks))
          && SameRoutes(agents, OverlayAll(agents, acks))
  {
    var agents := NamespacedAll(alias, raw);
    forall i | 0 <= i < |agents| ensures Consistent(agents[i]) { assert raw[i] in raw; }
  }

  lemma MarkedKeepsRemote(alias: string, agents: seq<AgentRecord>, targets: set<AgentId>)
    requires ValidRemote(alias, agents)
    ensures ValidRemote(alias, Marked(agents, targets)) && SameRoutes(agents, Marked(agents, targets))
  {
    var marked := Marked(agents, targets);
    forall i | 0 <= i < |agents| ensures Consistent(marked[i]) && SameRoute(agents[i], marked[i]) {
      assert agents[i] in agents;
    }
  }

  lemma MarkedIds(agents: seq<AgentRecord>, targets: set<AgentId>)
    ensures Ids(Marked(agents, targets)) == Ids(agents)
  {
    var marked := Marked(agents, targets);
    forall i | 0 <= i < |agents| ensures marked[i].id == agents[i].id && marked[i] in marked && agents[i] in agents { }
    forall id | id in Ids(agents) ensures id in Ids(marked) {
      var i :| 0 <= i < |agents| && agents[i].id == id;
      assert marked[i] in marked;
    }
    forall id | id in Ids(marked) ensures id in Ids(agents) {
      var i :| 0 <= i < |marked| && marked[i].id == id;
      assert agents[i] in agents;
    }
  }

  lemma LocalPublishKeepsValid(
    d: State, agents: seq<AgentRecord>, transports: seq<Transport>, heading: Heading, t: State)
    requires Valid(d) && Admissible(PublishLocal(agents, transports, heading))
    requires LocalPublished(d, agents, transports, heading, t)
    ensures Valid(t)
  {
    var shown := OverlayAll(agents, d.acks);
    forall i | 0 <= i < |shown| ensures shown[i].id.LocalId? && Consistent(shown[i]) { assert agents[i] in agents; }
    if shown != d.local || transports != d.transports || !SameOrigin(heading, d.heading) {
      forall alias | alias in t.remotes ensures IndexMatches(t.remotes[alias], t.transports, t.remoteSeen[alias]) {
        ObservationMatches(d.remotes[alias], d.remotes[alias], transports, IndexOf(d, alias), t.remoteSeen[alias]);
      }
    }
  }

  lemma AckedObservationMatches(
    alias: string, raw: seq<AgentRecord>, previous: seq<AgentRecord>, transports: seq<Transport>,
    before: map<AgentId, bool>, acks: Acks, observed: map<AgentId, bool>, index: map<AgentId, bool>)
    requires DistinctIds(raw) && forall r | r in raw :: Consistent(r)
    requires IsObservation(NamespacedAll(alias, raw), previous, transports, before, observed)
    requires IsAckedObservation(NamespacedAll(alias, raw), observed, AcksAfter(NamespacedAll(alias, raw), acks), index)
    ensures IndexMatches(OverlayAll(NamespacedAll(alias, raw), acks), transports, index)
  {
    var agents := NamespacedAll(alias, raw);
    OverlayKeepsRemote(alias, raw, acks);
    ObservationMatches(agents, previous, transports, before, observed);
    forall id | id in observed && observed[id] ensures index[id] {
      var i :| 0 <= i < |agents| && agents[i].id == id;
    }
    MatchesAfterReading(agents, OverlayAll(agents, acks), transports, observed, index);
  }

  lemma ReplacedRemoteKeepsValid(d: State, alias: string, agents: seq<AgentRecord>, index: map<AgentId, bool>, t: State)
    requires Valid(d) && ValidRemote(alias, agents) && IndexMatches(agents, d.transports, index)
    requires t.local == d.local && t.transports == d.transports
    requires t.remotes == d.remotes[alias := agents] && t.remoteSeen == d.remoteSeen[alias := index]
    requires t.lastUsed == Restricted(d.lastUsed, KnownIds(t.local, t.remotes))
    ensures Valid(t)
  {
    forall other | other in t.remotes
      ensures ValidRemote(other, t.remotes[other]) && IndexMatches(t.remotes[other], t.transports, t.remoteSeen[other])
    {
      if other != alias { assert t.remotes[other] == d.remotes[other] && t.remoteSeen[other] == d.remoteSeen[other]; }
    }
  }

  lemma RemotePublishKeepsValid(d: State, alias: string, raw: seq<AgentRecord>, t: State)
    requires Valid(d) && Admissible(PublishRemote(alias, raw)) && RemotePublished(d, alias, raw, t)
    ensures Valid(t)
  {
    var agents := NamespacedAll(alias, raw);
    var previous := Lookup(d.remotes, alias).GetOr([]);
    var observed: map<AgentId, bool> :|
      && IsObservation(agents, previous, d.transports, IndexOf(d, alias), observed)
      && IsAckedObservation(agents, observed, AcksAfter(agents, d.acks), t.remoteSeen[alias]);
    AckedObservationMatches(alias, raw, previous, d.transports, IndexOf(d, alias), d.acks, observed,
        t.remoteSeen[alias]);
    OverlayKeepsRemote(alias, raw, d.acks);
    ReplacedRemoteKeepsValid(d, alias, OverlayAll(agents, d.acks), t.remoteSeen[alias], t);
  }

  lemma StartedIsValid(agents: seq<AgentRecord>, transports: seq<Transport>, heading: Heading, persisted: Acks)
    requires Admissible(PublishLocal(agents, transports, heading))
    ensures Valid(Started(agents, transports, heading, persisted))
  {
    var shown := OverlayAll(agents, persisted);
    forall i | 0 <= i < |shown| ensures shown[i].id.LocalId? && Consistent(shown[i]) { assert agents[i] in agents; }
  }

  lemma AcknowledgedKeepsValid(d: State, targets: set<AgentId>)
    requires Valid(d)
    ensures Valid(Acknowledged(d, targets))
  {
    var t := Acknowledged(d, targets);
    forall i | 0 <= i < |t.local| ensures t.local[i].id.LocalId? && Consistent(t.local[i]) {
      assert d.local[i] in d.local;
    }
    forall alias | alias in t.remotes
      ensures ValidRemote(alias, t.remotes[alias]) && IndexMatches(t.remotes[alias], t.transports, t.remoteSeen[alias])
      ensures Ids(t.remotes[alias]) == Ids(d.remotes[alias])
    {
      MarkedKeepsRemote(alias, d.remotes[alias], targets);
      MatchesAfterReading(d.remotes[alias], t.remotes[alias], d.transports, d.remoteSeen[alias], t.remoteSeen[alias]);
      MarkedIds(d.remotes[alias], targets);
    }
    MarkedIds(d.local, targets);
    SameKnownIds(d, t);
  }

  lemma SameKnownIds(d: State, t: State)
    requires Ids(d.local) == Ids(t.local) && d.remotes.Keys == t.remotes.Keys
    requires forall alias | alias in d.remotes :: Ids(d.remotes[alias]) == Ids(t.remotes[alias])
    ensures KnownIds(d.local, d.remotes) <= KnownIds(t.local, t.remotes)
  {
    forall id | id in KnownIds(d.local, d.remotes) ensures id in KnownIds(t.local, t.remotes) {
      if id !in Ids(d.local) {
        var alias, r :| alias in d.remotes && r in d.remotes[alias] && r.id == id;
        assert id in Ids(t.remotes[alias]);
        var q :| q in t.remotes[alias] && q.id == id;
      }
    }
  }

  lemma CommittedKeepsValid(d: State, t: State, needsSave: bool, saved: bool, touchesLocal: bool)
    requires Valid(t)
    ensures Valid(Committed(d, t, needsSave, saved, touchesLocal))
  {
  }

  /** Every operation keeps the aggregate valid. */
  lemma StepKeepsValid(d: State, op: Op, t: State)
    requires Valid(d) && Admissible(op) && Step(d, op, t)
    ensures Valid(t)
  {
    match op
    case PublishLocal(agents, transports, heading) => LocalPublishKeepsValid(d, agents, transports, heading, t);
    case PublishRemote(alias, agents) => RemotePublishKeepsValid(d, alias, agents, t);
    case PeerError(_) =>
    case Acknowledge(target, _) => AcknowledgedKeepsValid(d, {target});
    case MarkAllRead(_) => AcknowledgedKeepsValid(d, UnreadIds(d));
    case MarkUsed(target, _) =>
      if Stored(d, target).Some? { assert Stored(d, target).value.id in KnownIds(d.local, d.remotes); }
  }
}
