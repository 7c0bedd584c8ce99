/** Which local connection shows a remote agent, and what that says about its
    visibility (`resolve_transport`, `observe_remote_agents`,
    `reconcile_transports_with_observations` of src/daemon.rs). */
module Transports {
  import opened Wrappers
  import opened AgentModel
  import Scanner

  datatype Transport = Transport(
    connection: Option<string>, mosh: Option<Endpoint>, remoteHost: string, remoteHostExplicit: bool,
    remoteSession: Option<string>, title: string, caption: Option<string>, visible: bool, target: string)

  datatype Resolution = NoTransport | One(transport: Transport, exactConnection: bool) | Ambiguous

  function Filter<T>(xs: seq<T>, keep: T -> bool): seq<T> {
    if xs == [] then [] else (if keep(xs[0]) then [xs[0]] else []) + Filter(xs[1..], keep)
  }

  predicate ClientMatches(agent: AgentRecord, client: Client, transport: Transport) {
    match client
    case SshClient(connection) => transport.connection == Some(connection)
    case MoshClient(endpoint) =>
      && transport.mosh.Some?
      && endpoint.port == transport.mosh.value.port
      && (endpoint.address == transport.mosh.value.address
          || (endpoint.address in ["*", "0.0.0.0", "::"] && agent.route.remoteAlias == Some(transport.remoteHost)))
  }

  /** `session_transports`, one per local pane. */
  function SessionTransports(agent: AgentRecord, session: Session, transports: seq<Transport>): seq<Transport> {
    OnePerPane(Serving(agent, session, transports))
  }

  function Serving(agent: AgentRecord, session: Session, transports: seq<Transport>): seq<Transport> {
    Filter(transports, (t: Transport) => exists c | c in session.clients :: ClientMatches(agent, c, t))
  }

  /** Keeps the first of the transports that share a pane. */
  function OnePerPane(transports: seq<Transport>): seq<Transport>
    decreases |transports|
  {
    if transports == [] then []
    else
      var rest := OnePerPane(transports[..|transports| - 1]);
      var last := transports[|transports| - 1];
      if OnPane(rest, last.target) then rest else rest + [last]
  }

  function Unique(matches: seq<Transport>, exactConnection: bool): Resolution {
    if matches == [] then NoTransport
    else if |matches| == 1 then One(matches[0], exactConnection)
    else Ambiguous
  }

  /** `remote_title_counts` at one key. */
  function TitleCount(agents: seq<AgentRecord>, alias: string, title: string): nat {
    if agents == [] then 0
    else (if agents[0].route.remoteAlias == Some(alias) && agents[0].route.title == title && title != "" then 1 else 0)
         + TitleCount(agents[1..], alias, title)
  }

  /** `resolve_transport`; `peers` are the records reported together with this one. */
  function Resolve(agent: AgentRecord, peers: seq<AgentRecord>, transports: seq<Transport>): Resolution {
    if agent.route.tmux && agent.route.session.Some? then
      var matches := SessionTransports(agent, agent.route.session.value, transports);
      if |matches| == 1 then One(matches[0], true)
      else if matches != [] then Ambiguous
      else if agent.route.session.value.complete then NoTransport
      else ResolveByConnection(agent, peers, transports)
    else ResolveByConnection(agent, peers, transports)
  }

  function ResolveByConnection(agent: AgentRecord, peers: seq<AgentRecord>, transports: seq<Transport>): Resolution {
    var exact := if agent.route.sshConnection.None? then NoTransport
                 else Unique(Filter(transports, (t: Transport) => t.connection == agent.route.sshConnection), true);
    if !exact.NoTransport? then exact
    else if agent.route.remoteAlias.None? then NoTransport
    else if agent.route.tmux then
      Unique(Filter(transports, (t: Transport) =>
        t.remoteHost == agent.route.remoteAlias.value && t.remoteHostExplicit
            && t.remoteSession == Some(agent.route.sessionName)), false)
    else if agent.route.title == ""
        || TitleCount(peers, agent.route.remoteAlias.value, agent.route.title) != 1 then NoTransport
    else
      Unique(Filter(transports, (t: Transport) =>
        t.remoteHost == agent.route.remoteAlias.value && !t.remoteHostExplicit && t.remoteSession.None?
        && t.title == agent.route.title), false)
  }

  predicate FitsSession(agent: AgentRecord, t: Transport) {
    agent.route.tmux && agent.route.session.Some?
    && exists c | c in agent.route.session.value.clients :: ClientMatches(agent, c, t)
  }

  predicate FitsConnection(agent: AgentRecord, t: Transport) {
    agent.route.sshConnection.Some? && t.connection == agent.route.sshConnection
  }

  /** Fits by the name of the peer and of the session, or else by a title that
      only this record of the peer has. */
  predicate FitsName(agent: AgentRecord, peers: seq<AgentRecord>, t: Transport) {
    && agent.route.remoteAlias == Some(t.remoteHost)
    && if agent.route.tmux then t.remoteHostExplicit && t.remoteSession == Some(agent.route.sessionName)
       else
         && !t.remoteHostExplicit && t.remoteSession.None? && t.title == agent.route.title != ""
         && TitleCount(peers, t.remoteHost, t.title) == 1
  }

  lemma {:induction false} FilterHolds(transports: seq<Transport>, keep: Transport -> bool, t: Transport)
    ensures t in Filter(transports, keep) <==> t in transports && keep(t)
  {
    if transports != [] { FilterHolds(transports[1..], keep, t); }
  }

  predicate OnPane(transports: seq<Transport>, target: string) {
    exists t | t in transports :: t.target == target
  }

  lemma {:induction false} OnePerPaneHolds(transports: seq<Transport>, t: Transport)
    ensures t in OnePerPane(transports) ==> t in transports
    ensures t in transports ==> OnPane(OnePerPane(transports), t.target)
    decreases |transports|
  {
    if transports != [] {
      var n := |transports| - 1;
      var rest, last := OnePerPane(transports[..n]), transports[n];
      OnePerPaneHolds(transports[..n], t);
      assert t in transports ==> t in transports[..n] || t == last;
      if OnPane(rest, last.target) {
        assert OnePerPane(transports) == rest;
      } else {
        assert OnePerPane(transports) == rest + [last];
        if OnPane(rest, t.target) {
          var u :| u in rest && u.target == t.target;
          assert u in OnePerPane(transports);
        }
        assert last in OnePerPane(transports);
      }
    }
  }

  lemma SessionHolds(agent: AgentRecord, transports: seq<Transport>, t: Transport)
    requires agent.route.tmux && agent.route.session.Some?
    ensures var matches := SessionTransports(agent, agent.route.session.value, transports);
      && (t in matches ==> t in transports && FitsSession(agent, t))
      && (t in transports && FitsSession(agent, t) ==> OnPane(matches, t.target))
  {
    var session := agent.route.session.value;
    var keep := (t: Transport) => exists c | c in session.clients :: ClientMatches(agent, c, t);
    FilterHolds(transports, keep, t);
    OnePerPaneHolds(Filter(transports, keep), t);
  }

  /** Records that agree on everything transport resolution looks at. */
  predicate SameRoute(a: AgentRecord, b: AgentRecord) {
    a.id == b.id && a.route == b.route && a.visible == b.visible && a.state == b.state
  }

  ghost predicate SameRoutes(a: seq<AgentRecord>, b: seq<AgentRecord>) {
    |a| == |b| && forall i | 0 <= i < |a| :: SameRoute(a[i], b[i])
  }

  lemma {:induction false} SameTitleCount(a: seq<AgentRecord>, b: seq<AgentRecord>, alias: string, title: string)
    requires SameRoutes(a, b)
    ensures TitleCount(a, alias, title) == TitleCount(b, alias, title)
  {
    if a != [] {
      assert SameRoute(a[0], b[0]);
      SameTitleCount(a[1..], b[1..], alias, title);
    }
  }

  /** Reading a record never changes which transport shows it. */
  lemma SameResolution(
    x: AgentRecord, y: AgentRecord, a: seq<AgentRecord>, b: seq<AgentRecord>, transports: seq<Transport>)
    requires SameRoute(x, y) && SameRoutes(a, b)
    ensures Resolve(x, a, transports) == Resolve(y, b, transports)
  {
    if x.route.remoteAlias.Some? { SameTitleCount(a, b, x.route.remoteAlias.value, x.route.title); }
    var session := x.route.session;
    if session.Some? {
      SameFilter(transports,
        (t: Transport) => exists c | c in session.value.clients :: ClientMatches(x, c, t),
        (t: Transport) => exists c | c in session.value.clients :: ClientMatches(y, c, t));
    }
    SameFilter(transports, (t: Transport) => t.connection == x.route.sshConnection, (t: Transport) => t.connection
        == y.route.sshConnection);
    if x.route.remoteAlias.Some? {
      SameFilter(transports,
        (t: Transport) => t.remoteHost == x.route.remoteAlias.value && t.remoteHostExplicit
            && t.remoteSession == Some(x.route.sessionName),
        (t: Transport) => t.remoteHost == y.route.remoteAlias.value && t.remoteHostExplicit
            && t.remoteSession == Some(y.route.sessionName));
      SameFilter(transports,
        (t: Transport) => t.remoteHost == x.route.remoteAlias.value && !t.remoteHostExplicit && t.remoteSession.None?
            && t.title == x.route.title,
        (t: Transport) => t.remoteHost == y.route.remoteAlias.value && !t.remoteHostExplicit && t.remoteSession.None?
            && t.title == y.route.title);
    }
  }

  lemma {:induction false} SameFilter(transports: seq<Transport>, f: Transport -> bool, g: Transport -> bool)
    requires forall t :: f(t) == g(t)
    ensures Filter(transports, f) == Filter(transports, g)
  {
    if transports != [] { SameFilter(transports[1..], f, g); }
  }

  // ---------------------------------------------------------------- observations

  /** The index entry this daemon keeps for one remote agent, if it resolves. */
  function SeenEntry(agent: AgentRecord, peers: seq<AgentRecord>, previous: Option<AgentRecord>,
                     transports: seq<Transport>, entry: Option<bool>): Option<bool> {
    var resolution := Resolve(agent, peers, transports);
    if !resolution.One? then None
    else
      var visible := agent.visible && resolution.transport.visible;
      Some(match previous
           case Some(p) => Scanner.NextSeen(Some(p.(seen := entry.GetOr(p.seen))), agent.state, visible)
           case None => visible || agent.seen)
  }

  function Lookup<K, V>(m: map<K, V>, k: K): Option<V> {
    if k in m then Some(m[k]) else None
  }

  /** The map with one entry written or removed. */
  function WithEntry<K(!new), V>(m: map<K, V>, k: K, v: Option<V>): (r: map<K, V>)
    ensures Lookup(r, k) == v && r.Keys <= m.Keys + {k}
    ensures forall x :: x != k ==> Lookup(r, x) == Lookup(m, x)
  {
    if v.Some? then m[k := v.value] else m - {k}
  }

  /** The index entry that an observation leaves for the record at position `i`. */
  function EntryAt(agents: seq<AgentRecord>, previous: seq<AgentRecord>, transports: seq<Transport>,
                   before: map<AgentId, bool>, i: nat): Option<bool>
    requires i < |agents|
  {
    SeenEntry(agents[i], agents, RecordOf(previous, agents[i].id), transports, Lookup(before, agents[i].id))
  }

  /** The index after an observation, entry by entry. */
  ghost predicate IsObservation(agents: seq<AgentRecord>, previous: seq<AgentRecord>, transports: seq<Transport>,
                                before: map<AgentId, bool>, after: map<AgentId, bool>)
  {
    && after.Keys <= Ids(agents)
    && forall i | 0 <= i < |agents| ::
         Lookup(after, agents[i].id) == EntryAt(agents, previous, transports, before, i)
  }

  /** `observe_remote_agents`: forgets vanished agents, then refreshes or drops
      one entry after the other. */
  method ObserveRemoteAgents(agents: seq<AgentRecord>, previous: seq<AgentRecord>, transports: seq<Transport>,
                             before: map<AgentId, bool>) returns (observed: map<AgentId, bool>)
    requires DistinctIds(agents)
    ensures IsObservation(agents, previous, transports, before, observed)
  {
    observed := map id | id in before && id in Ids(agents) :: before[id];
    for i := 0 to |agents|
      invariant observed.Keys <= Ids(agents)
      invariant forall k | 0 <= k < i ::
        Lookup(observed, agents[k].id) == EntryAt(agents, previous, transports, before, k)
      invariant forall k | i <= k < |agents| :: Lookup(observed, agents[k].id) == Lookup(before, agents[k].id)
    {
      var entry := EntryAt(agents, previous, transports, observed, i);
      assert entry == EntryAt(agents, previous, transports, before, i);
      observed := WithEntry(observed, agents[i].id, entry);
    }
  }

  /** `apply_transport` followed by the index override: the record as published. */
  function Reconciled(agent: AgentRecord, peers: seq<AgentRecord>, transports: seq<Transport>,
                      entries: map<AgentId, bool>): (r: AgentRecord)
    ensures r.id == agent.id && r.state == agent.state && r.goal == agent.goal
    ensures Consistent(agent) ==> Consistent(r)
    ensures !Resolve(agent, peers, transports).One? ==> r == agent
  {
    var resolution := Resolve(agent, peers, transports);
    if !resolution.One? then agent
    else
      var shown := Carried(agent, resolution.transport, resolution.exactConnection);
      if agent.id in entries
      then shown.(seen := entries[agent.id], attention := AttentionOf(agent.state, entries[agent.id]))
      else shown
  }

  function Carried(agent: AgentRecord, transport: Transport, exactConnection: bool): (r: AgentRecord)
    ensures r.id == agent.id && r.state == agent.state && r.goal == agent.goal
    ensures Consistent(agent) ==> Consistent(r)
  {
    var visible := agent.visible && transport.visible;
    var place := agent.place.(
      focusTarget := if exactConnection then Some(transport.target) else agent.place.focusTarget,
      caption := if transport.caption.Some?
          && transport.caption.value != "" then transport.caption else agent.place.caption);
    var shown := agent.(visible := visible, place := place);
    if visible && agent.state.Idle? then shown.(seen := true, attention := Attention.Idle) else shown
  }
}
