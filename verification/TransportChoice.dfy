/** How a remote agent is matched to a local connection, exactly
    (`resolve_transport` of src/daemon.rs, `session_transports` of src/tmux.rs). */
module TransportChoice {
  import opened Wrappers
  import opened AgentModel
  import opened Transports

  /** The only position at which something fits. */
  ghost predicate OnlyAt<T(!new)>(xs: seq<T>, fits: T -> bool, i: int) {
    0 <= i < |xs| && fits(xs[i]) && forall j | 0 <= j < |xs| && j != i :: !fits(xs[j])
  }

  lemma {:induction false} FilterAlone<T(!new)>(xs: seq<T>, fits: T -> bool)
    ensures Filter(xs, fits) == [] <==> forall x | x in xs :: !fits(x)
    ensures |Filter(xs, fits)| == 1 <==> exists i :: OnlyAt(xs, fits, i)
    ensures |Filter(xs, fits)| == 1 ==> exists i :: OnlyAt(xs, fits, i) && Filter(xs, fits) == [xs[i]]
  {
    if xs != [] {
      var rest := xs[1..];
      FilterAlone(rest, fits);
      assert forall x :: x in xs <==> x == xs[0] || x in rest;
      if fits(xs[0]) {
        if Filter(rest, fits) == [] {
          assert OnlyAt(xs, fits, 0);
        } else {
          var k :| 0 <= k < |rest| && fits(rest[k]);
          assert fits(xs[k + 1]);
        }
      } else {
        if i :| OnlyAt(rest, fits, i) { LaterOnlyAt(xs, fits, i); }
        if i :| OnlyAt(xs, fits, i) { LaterOnlyAt(xs, fits, i - 1); }
      }
    }
  }

  lemma LaterOnlyAt<T(!new)>(xs: seq<T>, fits: T -> bool, i: int)
    requires xs != [] && !fits(xs[0])
    ensures OnlyAt(xs[1..], fits, i) <==> 0 <= i && OnlyAt(xs, fits, i + 1)
  {
    var rest := xs[1..];
    assert forall j | 0 <= j < |rest| :: rest[j] == xs[j + 1];
    if OnlyAt(rest, fits, i) {
      forall j | 0 <= j < |xs| && j != i + 1 ensures !fits(xs[j]) { if j > 0 { assert !fits(rest[j - 1]); } }
    }
  }

  /** What a choice among fitting transports must say: none, the only one, or that
      there are several. */
  ghost predicate Chooses(transports: seq<Transport>, fits: Transport -> bool, exact: bool, r: Resolution) {
    && (r.NoTransport? <==> forall t | t in transports :: !fits(t))
    && (r.One? <==> exists i :: OnlyAt(transports, fits, i))
    && (r.One? ==> exists i :: OnlyAt(transports, fits, i) && r == One(transports[i], exact))
  }

  lemma UniqueChooses(transports: seq<Transport>, fits: Transport -> bool, exact: bool)
    ensures Chooses(transports, fits, exact, Unique(Filter(transports, fits), exact))
  {
    FilterAlone(transports, fits);
  }

  /** The record is reported under this alias with this title. */
  predicate HasTitle(r: AgentRecord, alias: string, title: string) {
    r.route.remoteAlias == Some(alias) && r.route.title == title
  }

  /** Exactly one of the records carries this title under this alias. */
  ghost predicate OnlyTitle(agents: seq<AgentRecord>, alias: string, title: string) {
    exists i :: OnlyTitleAt(agents, alias, title, i)
  }

  ghost predicate OnlyTitleAt(agents: seq<AgentRecord>, alias: string, title: string, i: int) {
    OnlyAt(agents, r => HasTitle(r, alias, title), i)
  }

  lemma {:induction false} TitleCountIsFilter(agents: seq<AgentRecord>, alias: string, title: string)
    requires title != ""
    ensures TitleCount(agents, alias, title) == |Filter(agents, r => HasTitle(r, alias, title))|
  {
    if agents != [] { TitleCountIsFilter(agents[1..], alias, title); }
  }

  lemma OneTitle(agents: seq<AgentRecord>, alias: string, title: string)
    requires title != ""
    ensures TitleCount(agents, alias, title) == 1 <==> OnlyTitle(agents, alias, title)
  {
    TitleCountIsFilter(agents, alias, title);
    var fits := r => HasTitle(r, alias, title);
    FilterAlone(agents, fits);
    if i :| OnlyAt(agents, fits, i) { assert OnlyTitleAt(agents, alias, title, i); }
    if i :| OnlyTitleAt(agents, alias, title, i) { assert OnlyAt(agents, fits, i); }
  }

  /** A client of the session is at this transport's end: on its connection, or at
      its Mosh port, at its address or at any address of the same peer. */
  ghost predicate ServesSession(agent: AgentRecord, t: Transport) {
    && agent.route.tmux && agent.route.session.Some?
    && exists c | c in agent.route.session.value.clients ::
         || (c.SshClient? && t.connection == Some(c.connection))
         || (c.MoshClient? && t.mosh.Some? && t.mosh.value.port == c.endpoint.port
             && (t.mosh.value.address == c.endpoint.address
                 || (c.endpoint.address in {"*", "0.0.0.0", "::"} && agent.route.remoteAlias == Some(t.remoteHost))))
  }

  lemma FitsSessionMeans(agent: AgentRecord, t: Transport)
    ensures FitsSession(agent, t) <==> ServesSession(agent, t)
  {
    if FitsSession(agent, t) {
      var c :| c in agent.route.session.value.clients && ClientMatches(agent, c, t);
    }
    if ServesSession(agent, t) {
      var c :| c in agent.route.session.value.clients &&
        ((c.SshClient? && t.connection == Some(c.connection))
         || (c.MoshClient? && t.mosh.Some? && t.mosh.value.port == c.endpoint.port
             && (t.mosh.value.address == c.endpoint.address
                 || (c.endpoint.address in {"*", "0.0.0.0", "::"} && agent.route.remoteAlias == Some(t.remoteHost)))));
      assert ClientMatches(agent, c, t);
    }
  }

  ghost predicate NamedByPeer(agent: AgentRecord, peers: seq<AgentRecord>, t: Transport) {
    && agent.route.remoteAlias == Some(t.remoteHost)
    && if agent.route.tmux then t.remoteHostExplicit && t.remoteSession == Some(agent.route.sessionName)
       else
         && !t.remoteHostExplicit && t.remoteSession.None? && t.title == agent.route.title && t.title != ""
         && OnlyTitle(peers, t.remoteHost, t.title)
  }

  lemma ConnectionChooses(agent: AgentRecord, peers: seq<AgentRecord>, transports: seq<Transport>)
    ensures var r := ResolveByConnection(agent, peers, transports);
      if exists t | t in transports :: FitsConnection(agent, t)
      then Chooses(transports, t => FitsConnection(agent, t), true, r) && !r.NoTransport?
      else Chooses(transports, t => FitsName(agent, peers, t), false, r)
  {
    var onConnection := t => FitsConnection(agent, t);
    if agent.route.sshConnection.Some? {
      var keep := (t: Transport) => t.connection == agent.route.sshConnection;
      UniqueChooses(transports, keep, true);
      SameChoice(transports, keep, onConnection, true, Unique(Filter(transports, keep), true));
    }
    if !exists t | t in transports :: FitsConnection(agent, t) { NameChooses(agent, peers, transports); }
  }

  lemma NameChooses(agent: AgentRecord, peers: seq<AgentRecord>, transports: seq<Transport>)
    requires forall t | t in transports :: !FitsConnection(agent, t)
    ensures Chooses(transports, t => FitsName(agent, peers, t), false, ResolveByConnection(agent, peers, transports))
  {
    if agent.route.sshConnection.Some? {
      var keep := (t: Transport) => t.connection == agent.route.sshConnection;
      FilterAlone(transports, keep);
      assert forall t | t in transports :: !keep(t) by {
        forall t | t in transports ensures !keep(t) { assert !FitsConnection(agent, t); }
      }
    }
    var fits := t => FitsName(agent, peers, t);
    if agent.route.remoteAlias.Some? {
      var tmux := (t: Transport) =>
        t.remoteHost == agent.route.remoteAlias.value && t.remoteHostExplicit
            && t.remoteSession == Some(agent.route.sessionName);
      var titled := (t: Transport) =>
        t.remoteHost == agent.route.remoteAlias.value && !t.remoteHostExplicit && t.remoteSession.None?
        && t.title == agent.route.title;
      UniqueChooses(transports, tmux, false);
      UniqueChooses(transports, titled, false);
      if agent.route.tmux {
        SameChoice(transports, tmux, fits, false, Unique(Filter(transports, tmux), false));
      } else if agent.route.title != "" && TitleCount(peers, agent.route.remoteAlias.value, agent.route.title) == 1 {
        SameChoice(transports, titled, fits, false, Unique(Filter(transports, titled), false));
      }
    }
  }

  lemma SameChoice(
    transports: seq<Transport>, f: Transport -> bool, g: Transport -> bool, exact: bool, r: Resolution)
    requires forall t | t in transports :: f(t) == g(t)
    requires Chooses(transports, f, exact, r)
    ensures Chooses(transports, g, exact, r)
  {
    forall i | OnlyAt(transports, f, i) ensures OnlyAt(transports, g, i) { }
    forall i | OnlyAt(transports, g, i) ensures OnlyAt(transports, f, i) { }
  }

  /** The transports that serve the session all sit on one pane. */
  ghost predicate OnOnePane(agent: AgentRecord, transports: seq<Transport>) {
    forall t, u | t in transports && u in transports && ServesSession(agent, t) && ServesSession(agent, u) ::
      t.target == u.target
  }

  predicate PanesDistinct(transports: seq<Transport>) {
    forall i, j | 0 <= i < j < |transports| :: transports[i].target != transports[j].target
  }

  lemma {:induction false} PanesDiffer(transports: seq<Transport>)
    ensures PanesDistinct(OnePerPane(transports))
    decreases |transports|
  {
    if transports != [] {
      var n := |transports| - 1;
      var rest, last := OnePerPane(transports[..n]), transports[n];
      PanesDiffer(transports[..n]);
      var kept := OnePerPane(transports);
      assert kept == if OnPane(rest, last.target) then rest else rest + [last];
      forall i, j | 0 <= i < j < |kept| ensures kept[i].target != kept[j].target {
        assert kept[i] == rest[i] && rest[i] in rest;
        if j < |rest| { assert kept[j] == rest[j]; } else { assert kept[j] == last; }
      }
    }
  }

  /** The first of the transports that serve the session. */
  ghost predicate FirstServing(agent: AgentRecord, transports: seq<Transport>, i: nat) {
    && i < |transports| && ServesSession(agent, transports[i])
    && forall j | 0 <= j < i :: !ServesSession(agent, transports[j])
  }

  lemma {:induction false} FirstOfPanes(transports: seq<Transport>)
    ensures transports != [] ==> OnePerPane(transports) != [] && OnePerPane(transports)[0] == transports[0]
    decreases |transports|
  {
    if |transports| > 1 { FirstOfPanes(transports[..|transports| - 1]); }
    else if transports != [] { assert OnePerPane(transports[..0]) == []; }
  }

  lemma {:induction false} FirstFits(transports: seq<Transport>, fits: Transport -> bool) returns (i: nat)
    requires Filter(transports, fits) != []
    ensures i < |transports| && fits(transports[i]) && Filter(transports, fits)[0] == transports[i]
    ensures forall j | 0 <= j < i :: !fits(transports[j])
  {
    if fits(transports[0]) {
      i := 0;
    } else {
      var k := FirstFits(transports[1..], fits);
      i := k + 1;
      forall j | 0 <= j < i ensures !fits(transports[j]) {
        if j > 0 { assert transports[j] == transports[1..][j - 1]; }
      }
    }
  }

  lemma FirstIsKept(agent: AgentRecord, session: Session, transports: seq<Transport>) returns (i: nat)
    requires agent.route.tmux && agent.route.session == Some(session)
    requires SessionTransports(agent, session, transports) != []
    ensures FirstServing(agent, transports, i) && SessionTransports(agent, session, transports)[0] == transports[i]
  {
    var fits := (t: Transport) => exists c | c in session.clients :: ClientMatches(agent, c, t);
    var serving := Serving(agent, session, transports);
    assert OnePerPane([]) == [];
    FirstOfPanes(serving);
    i := FirstFits(transports, fits);
    forall t ensures fits(t) <==> ServesSession(agent, t) { FitsSessionMeans(agent, t); }
  }

  /** Several panes are left exactly when several serve. */
  lemma PanesDecide(agent: AgentRecord, transports: seq<Transport>, matches: seq<Transport>)
    requires PanesDistinct(matches)
    requires forall t | t in matches :: t in transports && ServesSession(agent, t)
    requires forall t | t in transports && ServesSession(agent, t) :: OnPane(matches, t.target)
    ensures |matches| > 1 <==> !OnOnePane(agent, transports)
  {
    if |matches| > 1 {
      assert matches[0] in matches && matches[1] in matches;
      assert matches[0].target != matches[1].target;
    }
    if !OnOnePane(agent, transports) {
      var t, u :| t in transports && u in transports && ServesSession(agent, t) && ServesSession(agent, u)
        && t.target != u.target;
      assert OnPane(matches, t.target) && OnPane(matches, u.target);
    }
  }

  /** What the transports that serve the session decide. */
  lemma SessionChooses(agent: AgentRecord, transports: seq<Transport>)
    requires agent.route.tmux && agent.route.session.Some?
    ensures var matches := SessionTransports(agent, agent.route.session.value, transports);
      && (matches == [] <==> forall t | t in transports :: !ServesSession(agent, t))
      && (|matches| > 1 <==> !OnOnePane(agent, transports))
      && (matches != [] ==> exists i: nat :: FirstServing(agent, transports, i) && matches[0] == transports[i])
  {
    var session := agent.route.session.value;
    var matches := SessionTransports(agent, session, transports);
    forall t
      ensures t in matches ==> t in transports && ServesSession(agent, t)
      ensures t in transports && ServesSession(agent, t) ==> OnPane(matches, t.target)
    {
      SessionHolds(agent, transports, t);
      FitsSessionMeans(agent, t);
    }
    PanesDiffer(Serving(agent, session, transports));
    if matches != [] { var i := FirstIsKept(agent, session, transports); }
    PanesDecide(agent, transports, matches);
  }

  /** How an agent resolves, exactly.  Transports that serve its session decide if
      there are any: they must share one pane.  Otherwise, unless the session is
      known completely, the transports on its own connection decide, and without
      any of those the ones that fit by name: exactly one must fit. */
  lemma ResolvesExactly(agent: AgentRecord, peers: seq<AgentRecord>, transports: seq<Transport>)
    ensures var r := Resolve(agent, peers, transports);
      if exists t | t in transports :: ServesSession(agent, t) then
        if OnOnePane(agent, transports)
        then exists i: nat :: FirstServing(agent, transports, i) && r == One(transports[i], true)
        else r.Ambiguous?
      else if agent.route.tmux && agent.route.session.Some? && agent.route.session.value.complete then r.NoTransport?
      else if exists t | t in transports :: FitsConnection(agent, t) then
        Chooses(transports, t => FitsConnection(agent, t), true, r)
      else Chooses(transports, t => NamedByPeer(agent, peers, t), false, r)
  {
    if agent.route.tmux && agent.route.session.Some? { SessionChooses(agent, transports); }
    ConnectionChooses(agent, peers, transports);
    var fits, named := t => FitsName(agent, peers, t), t => NamedByPeer(agent, peers, t);
    if !(exists t | t in transports :: FitsConnection(agent, t)) {
      forall t | t in transports ensures fits(t) == named(t) {
        if t.title != "" { OneTitle(peers, t.remoteHost, t.title); }
      }
      SameChoice(transports, fits, named, false, ResolveByConnection(agent, peers, transports));
    }
  }
}
