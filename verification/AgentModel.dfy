/** Agent records as they travel between scanner, daemon and peers (src/model.rs). */
module AgentModel {
  import opened Wrappers

  datatype AgentState = Working | Blocked | Idle | Unknown
  datatype Attention = Blocked | Done | Working | Idle | Unknown

  datatype GoalState = Pursuing | Achieved | Unmet
  datatype GoalProgress = Elapsed(seconds: nat) | Tokens(used: nat, budget: Option<nat>)
  datatype GoalInfo = GoalInfo(state: GoalState, progress: GoalProgress, pending: bool, observedAt: nat)

  /** The daemon renders a peer's record as `remote/<alias>/<id>`; the rendering
      is taken to be injective. */
  datatype AgentId = LocalId(name: string) | RemoteId(alias: string, inner: AgentId)

  datatype Subagent = Subagent(
    parentId: AgentId, startedAt: nat, finishedAt: Option<nat>, name: Option<string>, threadId: Option<string>)

  datatype Endpoint = Endpoint(address: string, port: nat)
  datatype Client = SshClient(connection: string) | MoshClient(endpoint: Endpoint)
  datatype Session = Session(complete: bool, clients: seq<Client>)

  /** What decides which local connection shows a record.  Titles are stored
      normalised, addresses in canonical form. */
  datatype Route = Route(
    tmux: bool, remoteAlias: Option<string>, sshConnection: Option<string>, session: Option<Session>,
    sessionName: string, title: string)

  /** Where a record lives and how it is labelled. */
  datatype Place = Place(
    host: string, windowIndex: nat, paneIndex: nat, agent: string, cwd: string, caption: Option<string>,
    focusTarget: Option<string>)

  datatype AgentRecord = AgentRecord(
    id: AgentId, state: AgentState, attention: Attention, visible: bool, seen: bool, changedAt: nat,
    goal: Option<GoalInfo>, subagent: Option<Subagent>, route: Route, place: Place)

  predicate Active(s: AgentState) { s.Working? || s.Blocked? }

  predicate Terminal(g: GoalState) { g.Achieved? || g.Unmet? }

  /** `attention`: what the user is shown for a state. */
  function AttentionOf(state: AgentState, seen: bool): Attention {
    match state
    case Blocked => Attention.Blocked
    case Working => Attention.Working
    case Idle => if seen then Attention.Idle else Attention.Done
    case Unknown => Attention.Unknown
  }

  predicate Consistent(r: AgentRecord) { r.attention == AttentionOf(r.state, r.seen) }

  predicate GoalPending(r: AgentRecord) { r.goal.Some? && r.goal.value.pending }

  ghost predicate DistinctIds(agents: seq<AgentRecord>) {
    forall i, j | 0 <= i < j < |agents| :: agents[i].id != agents[j].id
  }

  function Ids(agents: seq<AgentRecord>): set<AgentId> {
    set r | r in agents :: r.id
  }

  /** The record with this ID, if any. */
  function RecordOf(agents: seq<AgentRecord>, id: AgentId): (r: Option<AgentRecord>)
    ensures r.Some? ==> r.value in agents && r.value.id == id
    ensures r.None? <==> id !in Ids(agents)
  {
    if agents == [] then None
    else if agents[0].id == id then Some(agents[0])
    else
      assert agents == [agents[0]] + agents[1..];
      RecordOf(agents[1..], id)
  }

  lemma {:induction false} RecordAt(agents: seq<AgentRecord>, i: nat)
    requires DistinctIds(agents) && i < |agents|
    ensures RecordOf(agents, agents[i].id) == Some(agents[i])
  {
    if i > 0 { RecordAt(agents[1..], i - 1); }
  }
}
