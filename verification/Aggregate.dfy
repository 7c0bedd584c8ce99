/** The daemon's mutable aggregate: each method does what `Shared` does under
    its write lock, and is one step of the transition system in Daemon. */
module Aggregate {
  import opened Wrappers
  import opened AgentModel
  import opened Acknowledgement
  import opened Transports
  import opened Daemon
  import DaemonRuns
  import Forest

  /** No record in the list belongs to one of these peers. */
  ghost predicate ApartFrom(agents: seq<AgentRecord>, aliases: set<string>) {
    forall r | r in agents :: r.id.RemoteId? ==> r.id.alias !in aliases
  }

  lemma ShownIds(d: State, alias: string)
    requires Daemon.Valid(d) && alias in d.remotes
    ensures DistinctIds(MergedRemote(d, alias))
    ensures forall r | r in MergedRemote(d, alias) :: r.id.RemoteId? && r.id.alias == alias
  {
    var agents, shown := d.remotes[alias], MergedRemote(d, alias);
    assert ValidRemote(alias, agents);
    forall i | 0 <= i < |shown| ensures shown[i].id == agents[i].id && agents[i] in agents { }
  }

  lemma ConcatDistinct(a: seq<AgentRecord>, b: seq<AgentRecord>, alias: string)
    requires DistinctIds(a) && DistinctIds(b) && ApartFrom(a, {alias})
    requires forall r | r in b :: r.id.RemoteId? && r.id.alias == alias
    ensures DistinctIds(a + b)
  {
    forall i, j | 0 <= i < j < |a + b| ensures (a + b)[i].id != (a + b)[j].id {
      if i < |a| <= j { assert a[i] in a && b[j - |a|] in b; }
    }
  }

  /** What `acknowledge` does to a stored agent is a step. */
  lemma AcknowledgeIsStep(d: State, target: AgentId, saved: bool, t: State)
    requires Daemon.Valid(d) && Result(d, target).found
    requires t == Committed(d, Acknowledged(d, {target}), Result(d, target).persistCompletion, saved, target.LocalId?)
    ensures Daemon.Valid(t) && Step(d, Op.Acknowledge(target, saved), t)
  {
    AcknowledgedKeepsValid(d, {target});
    CommittedKeepsValid(d, Acknowledged(d, {target}), Result(d, target).persistCompletion, saved, target.LocalId?);
  }

  /** Replacing the local records under the acknowledgements left is publishing. */
  lemma ReplacedIsPublished(
    d: State, between: State, agents: seq<AgentRecord>, transports: seq<Transport>, heading: Heading, t: State)
    requires between == d.(acks := AcksAfter(agents, d.acks))
    requires t == Pruned(between.(local := OverlayAll(agents, d.acks), transports := transports, heading := heading,
                                  remoteSeen := t.remoteSeen, revision := d.revision + 1))
    requires t.remoteSeen.Keys == d.remoteSeen.Keys + d.remotes.Keys
    requires forall alias | alias in d.remoteSeen && alias !in d.remotes :: t.remoteSeen[alias] == d.remoteSeen[alias]
    requires forall alias | alias in d.remotes ::
      IsObservation(d.remotes[alias], d.remotes[alias], transports, IndexOf(d, alias), t.remoteSeen[alias])
    requires !(OverlayAll(agents, d.acks) == d.local && transports == d.transports && SameOrigin(heading, d.heading))
    ensures LocalPublished(d, agents, transports, heading, t)
  {
  }

  /** The acknowledgements with one more target. */
  function Remembered(acks: Acks, target: AgentId, result: AckResult): Acks {
    Acks(if result.persistCompletion then acks.completions + {target} else acks.completions,
         if result.goal.Some? then acks.goals[target := result.goal.value] else acks.goals)
  }

  lemma MarkedOneMore(d: State, done: set<AgentId>, id: AgentId, now: State, t: State)
    requires Daemon.Valid(d) && id !in done && Stored(d, id).Some? && now == Acknowledged(d, done)
    requires t == if Result(now, id).found then Acknowledged(now, {id}) else now
    ensures Daemon.Valid(t) && t == Acknowledged(d, done + {id})
  {
    MarkingComposes(d, done, id);
    AcknowledgedKeepsValid(d, done + {id});
  }

  class Aggregate {
    var local: seq<AgentRecord>
    var transports: seq<Transport>
    var heading: Heading
    var remotes: map<string, seq<AgentRecord>>
    var remoteSeen: map<string, map<AgentId, bool>>
    var acks: Acks
    var lastUsed: map<AgentId, nat>
    var revision: nat

    ghost function Model(): State
      reads this
    {
      State(local, transports, heading, remotes, remoteSeen, acks, lastUsed, revision)
    }

    ghost predicate Valid()
      reads this
    {
      Daemon.Valid(Model())
    }

    /** `Shared::new`: the first scan under the persisted acknowledgements. */
    constructor (agents: seq<AgentRecord>, transports: seq<Transport>, heading: Heading, persisted: Acks)
      requires Admissible(Op.PublishLocal(agents, transports, heading))
      ensures Valid()
      ensures Model() == Started(agents, transports, heading, persisted)
    {
      var shown, left, _ := ApplyAcknowledgements(agents, persisted);
      local, acks := shown, left;
      this.transports, this.heading := transports, heading;
      remotes, remoteSeen, lastUsed, revision := map[], map[], map[], 1;
      new;
      assert shown == OverlayAll(agents, persisted);
      StartedIsValid(agents, transports, heading, persisted);
    }

    method PruneLastUsed()
      modifies this`lastUsed
      ensures lastUsed == Restricted(old(lastUsed), KnownIds(local, remotes))
    {
      var known := Ids(local);
      var todo := remotes.Keys;
      while todo != {}
        invariant todo <= remotes.Keys
        invariant forall id :: id in known <==>
          id in Ids(local) || exists alias :: alias in remotes && alias !in todo && id in Ids(remotes[alias])
        decreases todo
      {
        var alias :| alias in todo;
        todo := todo - {alias};
        known := known + Ids(remotes[alias]);
      }
      assert known == KnownIds(local, remotes);
      lastUsed := Restricted(lastUsed, known);
    }

    method PublishLocal(agents: seq<AgentRecord>, transports: seq<Transport>, heading: Heading)
      returns (changed: bool)
      requires Valid() && Admissible(Op.PublishLocal(agents, transports, heading))
      modifies this
      ensures Valid() && LocalPublished(old(Model()), agents, transports, heading, Model())
      ensures changed <==> revision != old(revision)
    {
      ghost var before := Model();
      var shown, left, _ := ApplyAcknowledgements(agents, acks);
      assert shown == OverlayAll(agents, acks);
      acks := left;
      changed := !(local == shown && this.transports == transports && SameOrigin(heading, this.heading));
      ghost var between := Model();
      if changed {
        ReplaceLocal(shown, transports, heading);
        ReplacedIsPublished(before, between, agents, transports, heading, Model());
      }
      LocalPublishKeepsValid(before, agents, transports, heading, Model());
    }

    /** The part of `publish_local` that runs when something changed. */
    method ReplaceLocal(shown: seq<AgentRecord>, transports: seq<Transport>, heading: Heading)
      requires forall alias | alias in remotes :: DistinctIds(remotes[alias])
      modifies this
      ensures Model() == Pruned(old(Model()).(local := shown, transports := transports, heading := heading,
                                              remoteSeen := remoteSeen, revision := old(revision) + 1))
      ensures remoteSeen.Keys == old(remoteSeen).Keys + remotes.Keys
      ensures forall alias | alias in old(remoteSeen) && alias !in remotes ::
        remoteSeen[alias] == old(remoteSeen)[alias]
      ensures forall alias | alias in remotes ::
        IsObservation(remotes[alias], remotes[alias], transports, old(IndexOf(Model(), alias)), remoteSeen[alias])
    {
      local, this.transports, this.heading := shown, transports, heading;
      ObserveAll();
      PruneLastUsed();
      revision := revision + 1;
    }

    /** Refreshes the index of every peer against the local transports. */
    method ObserveAll()
      requires forall alias | alias in remotes :: DistinctIds(remotes[alias])
      modifies this`remoteSeen
      ensures remoteSeen.Keys == old(remoteSeen).Keys + remotes.Keys
      ensures forall alias | alias in old(remoteSeen) && alias !in remotes ::
        remoteSeen[alias] == old(remoteSeen)[alias]
      ensures forall alias | alias in remotes ::
        IsObservation(remotes[alias], remotes[alias], transports,
                      Lookup(old(remoteSeen), alias).GetOr(map[]), remoteSeen[alias])
    {
      var todo := remotes.Keys;
      while todo != {}
        invariant todo <= remotes.Keys
        invariant remoteSeen.Keys == old(remoteSeen).Keys + (remotes.Keys - todo)
        invariant forall alias | alias in old(remoteSeen) && (alias !in remotes || alias in todo) ::
          remoteSeen[alias] == old(remoteSeen)[alias]
        invariant forall alias | alias in remotes && alias !in todo ::
          IsObservation(remotes[alias], remotes[alias], transports,
                        Lookup(old(remoteSeen), alias).GetOr(map[]), remoteSeen[alias])
        decreases todo
      {
        var alias :| alias in todo;
        todo := todo - {alias};
        var entry := Lookup(remoteSeen, alias).GetOr(map[]);
        var observed := ObserveRemoteAgents(remotes[alias], remotes[alias], transports, entry);
        remoteSeen := remoteSeen[alias := observed];
      }
    }

    method PublishRemote(alias: string, raw: seq<AgentRecord>)
      requires Valid() && Admissible(Op.PublishRemote(alias, raw))
      modifies this
      ensures Valid() && RemotePublished(old(Model()), alias, raw, Model())
    {
      ghost var before := Model();
      var agents := NamespacedAll(alias, raw);
      OverlayKeepsRemote(alias, raw, acks);
      var previous, entries := Lookup(remotes, alias).GetOr([]), Lookup(remoteSeen, alias).GetOr(map[]);
      var shown, index;
      shown, index, acks := IndexRemote(agents, previous, transports, entries, acks);
      ReplaceRemote(alias, shown, index);
      RemotePublishKeepsValid(before, alias, raw, Model());
    }

    /** Observes a peer's records, then applies the acknowledgements. */
    static method IndexRemote(agents: seq<AgentRecord>, previous: seq<AgentRecord>, transports: seq<Transport>,
                              entries: map<AgentId, bool>, acks: Acks)
      returns (shown: seq<AgentRecord>, index: map<AgentId, bool>, left: Acks)
      requires DistinctIds(agents)
      ensures shown == OverlayAll(agents, acks) && left == AcksAfter(agents, acks)
      ensures exists observed: map<AgentId, bool> ::
        && IsObservation(agents, previous, transports, entries, observed)
        && IsAckedObservation(agents, observed, left, index)
    {
      var observed := ObserveRemoteAgents(agents, previous, transports, entries);
      var changed;
      shown, left, changed := ApplyAcknowledgements(agents, acks);
      index := CountAcknowledgedAsSeen(shown, observed, left);
      forall i | 0 <= i < |agents| ensures agents[i].id == shown[i].id && agents[i].state == shown[i].state { }
      assert IsAckedObservation(agents, observed, left, index);
    }

    method ReplaceRemote(alias: string, shown: seq<AgentRecord>, index: map<AgentId, bool>)
      modifies this
      ensures Model() == Pruned(old(Model()).(
        remotes := old(remotes)[alias := shown], remoteSeen := old(remoteSeen)[alias := index],
        revision := old(revision) + 1))
    {
      remoteSeen := remoteSeen[alias := index];
      remotes := remotes[alias := shown];
      PruneLastUsed();
      revision := revision + 1;
    }

    /** The closing loop of `publish_remote`. */
    static method CountAcknowledgedAsSeen(agents: seq<AgentRecord>, observed: map<AgentId, bool>, left: Acks)
      returns (index: map<AgentId, bool>)
      requires DistinctIds(agents)
      ensures IsAckedObservation(agents, observed, left, index)
    {
      index := observed;
      for i := 0 to |agents|
        invariant index.Keys == observed.Keys
        invariant forall k | 0 <= k < i && agents[k].id in observed ::
          index[agents[k].id] == (observed[agents[k].id] || (agents[k].id in left.completions && agents[k].state.Idle?))
        invariant forall k | i <= k < |agents| && agents[k].id in observed ::
          index[agents[k].id] == observed[agents[k].id]
      {
        if agents[i].id in index && agents[i].id in left.completions && agents[i].state.Idle? {
          index := index[agents[i].id := true];
        }
      }
    }

    method PeerError(alias: string)
      requires Valid()
      modifies this
      ensures Valid() && Step(old(Model()), Op.PeerError(alias), Model())
    {
      ghost var before := Model();
      remotes, remoteSeen := remotes - {alias}, remoteSeen - {alias};
      PruneLastUsed();
      revision := revision + 1;
      StepKeepsValid(before, Op.PeerError(alias), Model());
    }

    /** Marks the target in the first peer that knows it. */
    method AcknowledgeRemote(target: AgentId) returns (result: AckResult)
      requires forall alias | alias in remotes :: ValidRemote(alias, remotes[alias])
      modifies this`remotes
      ensures remotes == map alias | alias in old(remotes) :: Marked(old(remotes)[alias], {target})
      ensures result == if target.RemoteId? then old(Result(Model(), target)) else NOT_FOUND
    {
      var todo := remotes.Keys;
      while todo != {}
        invariant todo <= remotes.Keys && remotes == old(remotes)
        invariant forall alias | alias in remotes && alias !in todo :: RecordOf(remotes[alias], target).None?
        decreases todo
      {
        var alias :| alias in todo;
        todo := todo - {alias};
        var marked, found := AcknowledgeRecords(remotes[alias], target);
        if found.found {
          remotes := remotes[alias := marked];
          OthersDoNotKnow(old(remotes), alias, target);
          return found;
        }
      }
      forall alias | alias in remotes ensures Marked(remotes[alias], {target}) == remotes[alias] {
        UnknownUnmarked(remotes[alias], {target});
      }
      return NOT_FOUND;
    }

    /** Sets the entry of an acknowledged agent in every index that has one. */
    method CountAsSeen(targets: set<AgentId>)
      modifies this`remoteSeen
      ensures remoteSeen == map alias | alias in old(remoteSeen) :: Raised(old(remoteSeen)[alias], targets)
    {
      var todo := remoteSeen.Keys;
      while todo != {}
        invariant todo <= remoteSeen.Keys == old(remoteSeen).Keys
        invariant forall alias | alias in remoteSeen ::
          remoteSeen[alias] == if alias in todo then old(remoteSeen)[alias] else Raised(old(remoteSeen)[alias], targets)
        decreases todo
      {
        var alias :| alias in todo;
        todo := todo - {alias};
        remoteSeen := remoteSeen[alias := Raised(remoteSeen[alias], targets)];
      }
    }

    /** Marks one record wherever it is and remembers what was acknowledged. */
    method MarkOne(target: AgentId) returns (result: AckResult)
      requires Valid()
      modifies this
      ensures result == Result(old(Model()), target)
      ensures Model() == if result.found then Acknowledged(old(Model()), {target}) else old(Model())
    {
      ghost var before := Model();
      var ofPeer;
      result, ofPeer := MarkRecords(target);
      Remember(target, result, ofPeer);
      if result.found { AcknowledgedOne(before, Model(), target); } else { NothingMarked(before, target); }
    }

    /** Marks the local record, or else the one of a peer. */
    method MarkRecords(target: AgentId) returns (result: AckResult, ofPeer: bool)
      requires Valid()
      modifies this`local, this`remotes
      ensures local == Marked(old(local), {target})
      ensures remotes == map alias | alias in old(remotes) :: Marked(old(remotes)[alias], {target})
      ensures result == Result(old(Model()), target) && ofPeer == (target.RemoteId? && result.persistCompletion)
    {
      KnownOnce(Model(), target);
      var localResult, remoteResult;
      local, localResult := AcknowledgeRecords(local, target);
      remoteResult := AcknowledgeRemote(target);
      result := if localResult.found then localResult else remoteResult;
      ofPeer := remoteResult.persistCompletion;
    }

    /** Enters an acknowledgement; a peer's completion also counts as seen. */
    method Remember(target: AgentId, result: AckResult, ofPeer: bool)
      modifies this`acks, this`remoteSeen
      ensures acks == Remembered(old(acks), target, result)
      ensures remoteSeen == if result.persistCompletion && ofPeer
                            then map alias | alias in old(remoteSeen) :: Raised(old(remoteSeen)[alias], {target})
                            else old(remoteSeen)
    {
      if result.persistCompletion {
        acks := Acks(acks.completions + {target}, acks.goals);
        if ofPeer { CountAsSeen({target}); }
      }
      if result.goal.Some? { acks := Acks(acks.completions, acks.goals[target := result.goal.value]); }
    }

    /** The end of an acknowledging request. */
    method Commit(saved: bool, touchesLocal: bool)
      modifies this`revision, this`heading
      ensures revision == if saved then old(revision) + 1 else old(revision)
      ensures heading == if saved && touchesLocal then Bumped(old(heading)) else old(heading)
    {
      if !saved { return; }
      if touchesLocal { heading := Bumped(heading); }
      revision := revision + 1;
    }

    /** `acknowledge`: None when writing the acknowledgements failed. */
    method Acknowledge(target: AgentId, saved: bool) returns (found: Option<bool>)
      requires Valid()
      modifies this
      ensures Valid() && Step(old(Model()), Op.Acknowledge(target, saved), Model())
      ensures found == if !Result(old(Model()), target).found then Some(false)
                       else if Result(old(Model()), target).persistCompletion && !saved then None
                       else Some(true)
    {
      ghost var before := Model();
      var result := MarkOne(target);
      if !result.found { return Some(false); }
      var failed := result.persistCompletion && !saved;
      Commit(!failed, target.LocalId?);
      AcknowledgeIsStep(before, target, saved, Model());
      return if failed then None else Some(true);
    }

    /** Marks every target, one after the other. */
    method MarkTargets(targets: set<AgentId>)
      requires Valid() && forall id | id in targets :: Stored(Model(), id).Some?
      modifies this
      ensures Valid() && Model() == Acknowledged(old(Model()), targets)
    {
      var todo := targets;
      ghost var before, done := Model(), {};
      NothingAcknowledged(before);
      while todo != {}
        invariant done + todo == targets && done !! todo
        invariant Model() == Acknowledged(before, done)
        decreases todo
      {
        var id :| id in todo;
        MarkNext(id, before, done);
        todo, done := todo - {id}, done + {id};
      }
      AcknowledgedKeepsValid(before, done);
      assert done == targets;
    }

    method MarkNext(id: AgentId, ghost before: State, ghost done: set<AgentId>)
      requires Daemon.Valid(before) && id !in done && Stored(before, id).Some?
      requires Model() == Acknowledged(before, done)
      modifies this
      ensures Model() == Acknowledged(before, done + {id})
    {
      ghost var now := Model();
      AcknowledgedKeepsValid(before, done);
      var _ := MarkOne(id);
      MarkedOneMore(before, done, id, now, Model());
    }

    /** The records of one peer as published (`reconcile_transports_with_observations`). */
    static method ReconcileTransports(agents: seq<AgentRecord>, transports: seq<Transport>, entries: map<AgentId, bool>)
      returns (shown: seq<AgentRecord>)
      ensures |shown| == |agents| && forall i | 0 <= i < |agents| ::
        shown[i] == Reconciled(agents[i], agents, transports, entries)
    {
      shown := [];
      for i := 0 to |agents|
        invariant |shown| == i && forall k | 0 <= k < i ::
          shown[k] == Reconciled(agents[k], agents, transports, entries)
      {
        shown := shown + [Reconciled(agents[i], agents, transports, entries)];
      }
    }

    /** Every record of the merged snapshot, before sorting. */
    method Merge() returns (merged: seq<AgentRecord>)
      requires Valid()
      ensures forall r :: r in merged <==> Published(Model(), r)
      ensures DistinctIds(merged)
    {
      merged := local;
      var todo := remotes.Keys;
      while todo != {}
        invariant todo <= remotes.Keys
        invariant forall r :: r in merged <==>
          r in local || exists alias :: alias in remotes && alias !in todo && r in MergedRemote(Model(), alias)
        invariant DistinctIds(merged) && ApartFrom(merged, todo)
        decreases todo
      {
        var alias :| alias in todo;
        todo := todo - {alias};
        var shown := ReconcileTransports(remotes[alias], transports, Lookup(remoteSeen, alias).GetOr(map[]));
        assert shown == MergedRemote(Model(), alias);
        ShownIds(Model(), alias);
        ConcatDistinct(merged, shown, alias);
        merged := merged + shown;
      }
    }

    /** `snapshot`: every published record once, in display order. */
    method Snapshot() returns (agents: seq<AgentRecord>)
      requires Valid()
      ensures exists merged ::
        && DistinctIds(merged) && (forall r :: r in merged <==> Published(Model(), r))
        && Forest.IsDisplayed(merged, lastUsed, agents) && multiset(agents) == multiset(merged)
    {
      var merged := Merge();
      agents := Forest.SortAgentsByLastUsed(merged, lastUsed);
    }

    /** The unread agents of the merged snapshot. */
    method UnreadTargets() returns (targets: set<AgentId>)
      requires Valid()
      ensures targets == UnreadIds(Model())
    {
      var merged := Merge();
      targets := set id | id in Targets(merged);
      UnreadIsPublished(Model());
    }

    /** `mark_all_read`: the number of agents read, or None when writing the
        acknowledgements failed.  The targets are taken from the merged
        snapshot, so that completions only the transport overlay shows count. */
    method MarkAllRead(saved: bool) returns (count: Option<nat>)
      requires Valid()
      modifies this
      ensures Valid() && AllRead(old(Model()), UnreadIds(old(Model())), saved, Model())
      ensures count == if UnreadIds(old(Model())) != {} && !saved then None else Some(|UnreadIds(old(Model()))|)
    {
      ghost var before := Model();
      var targets := UnreadTargets();
      assert targets == UnreadIds(before);
      if targets == {} { return Some(0); }
      UnreadIsStored(before);
      MarkAndCommit(targets, saved);
      return if saved then Some(|targets|) else None;
    }

    method MarkAndCommit(targets: set<AgentId>, saved: bool)
      requires Valid() && forall id | id in targets :: Stored(Model(), id).Some?
      modifies this
      ensures Valid()
      ensures Model() == Committed(
        old(Model()), Acknowledged(old(Model()), targets), true, saved, AnyLocal(targets))
    {
      ghost var before := Model();
      MarkTargets(targets);
      Commit(saved, AnyLocal(targets));
      AllReadIsValid(before, targets, saved, Model());
    }

    /** `mark_used`. */
    method MarkUsed(target: AgentId, now: nat) returns (known: bool)
      requires Valid()
      modifies this`lastUsed, this`revision
      ensures Valid() && Step(old(Model()), Op.MarkUsed(target, now), Model())
      ensures known <==> revision != old(revision)
    {
      ghost var before := Model();
      var agents := match target case LocalId(_) => local case RemoteId(alias, _) => Lookup(remotes, alias).GetOr([]);
      var record := RecordOf(agents, target);
      known := record.Some? && record.value.subagent.None?;
      if known { lastUsed, revision := lastUsed[target := now], revision + 1; }
      StepKeepsValid(before, Op.MarkUsed(target, now), Model());
    }
  }

  lemma AllReadIsValid(d: State, targets: set<AgentId>, saved: bool, t: State)
    requires Daemon.Valid(d) && t == Committed(d, Acknowledged(d, targets), true, saved, AnyLocal(targets))
    ensures Daemon.Valid(t)
  {
    AcknowledgedKeepsValid(d, targets);
    CommittedKeepsValid(d, Acknowledged(d, targets), true, saved, AnyLocal(targets));
  }

  lemma NothingAcknowledged(d: State)
    ensures Acknowledged(d, {}) == d
  {
    var t := Acknowledged(d, {});
    UnknownUnmarked(d.local, {});
    forall alias | alias in d.remotes ensures t.remotes[alias] == d.remotes[alias] {
      UnknownUnmarked(d.remotes[alias], {});
    }
    forall alias | alias in d.remoteSeen ensures t.remoteSeen[alias] == d.remoteSeen[alias] {
      NothingRaised(d.remoteSeen[alias], Completed(d, {}));
    }
  }

  lemma MarkedTwice(agents: seq<AgentRecord>, targets: set<AgentId>, id: AgentId)
    requires id !in targets
    ensures Marked(Marked(agents, targets), {id}) == Marked(agents, targets + {id})
  {
  }

  lemma CompletedTwice(d: State, targets: set<AgentId>, id: AgentId)
    requires id !in targets
    ensures Result(Acknowledged(d, targets), id) == Result(d, id)
    ensures Completed(d, targets + {id}) == Completed(d, targets) + Completed(Acknowledged(d, targets), {id})
  {
    DaemonRuns.StoredAfterMarking(d, targets, id);
  }

  lemma GoalsTwice(d: State, targets: set<AgentId>, id: AgentId)
    requires id !in targets && Result(Acknowledged(d, targets), id) == Result(d, id)
    ensures Acknowledged(Acknowledged(d, targets), {id}).acks.goals == Acknowledged(d, targets + {id}).acks.goals
  {
    var t := Acknowledged(d, targets);
    OutcomesOfOneMore(d, t, targets, id);
    AddedInTurn(d.acks.goals, Outcomes(d, targets), Outcomes(t, {id}));
  }

  lemma OutcomesOfOneMore(d: State, t: State, targets: set<AgentId>, id: AgentId)
    requires id !in targets && Result(t, id) == Result(d, id)
    ensures Outcomes(d, targets + {id}) == Outcomes(d, targets) + Outcomes(t, {id})
  {
  }

  lemma AddedInTurn(a: map<AgentId, nat>, b: map<AgentId, nat>, c: map<AgentId, nat>)
    ensures a + b + c == a + (b + c)
  {
  }

  /** Acknowledging one more agent after others is acknowledging all of them. */
  lemma MarkingComposes(d: State, targets: set<AgentId>, id: AgentId)
    requires id !in targets
    ensures Acknowledged(Acknowledged(d, targets), {id}) == Acknowledged(d, targets + {id})
    ensures Result(Acknowledged(d, targets), id) == Result(d, id)
  {
    CompletedTwice(d, targets, id);
    GoalsTwice(d, targets, id);
    var t := Acknowledged(d, targets);
    var u, v := Acknowledged(t, {id}), Acknowledged(d, targets + {id});
    MarkedTwice(d.local, targets, id);
    assert u.remotes == v.remotes by {
      forall alias | alias in d.remotes ensures u.remotes[alias] == v.remotes[alias] {
        MarkedTwice(d.remotes[alias], targets, id);
      }
    }
    assert u.remoteSeen == v.remoteSeen by {
      forall alias | alias in d.remoteSeen ensures u.remoteSeen[alias] == v.remoteSeen[alias] {
        RaisedTwice(d.remoteSeen[alias], Completed(d, targets), Completed(t, {id}));
      }
    }
    assert u.acks.completions == v.acks.completions;
  }

  lemma RaisedTwice(index: map<AgentId, bool>, a: set<AgentId>, b: set<AgentId>)
    ensures Raised(Raised(index, a), b) == Raised(index, a + b)
  {
  }

  lemma UnreadIsPublished(d: State)
    ensures forall id :: id in UnreadIds(d) <==> exists r :: Published(d, r) && Unread(r) && r.id == id
  {
    forall id | id in UnreadIds(d) ensures exists r :: Published(d, r) && Unread(r) && r.id == id {
      if r :| r in d.local && Unread(r) && r.id == id {
        assert Published(d, r);
      } else {
        var alias, r :| alias in d.remotes && r in MergedRemote(d, alias) && Unread(r) && r.id == id;
        assert Published(d, r);
      }
    }
  }

  lemma UnreadIsStored(d: State)
    requires Daemon.Valid(d)
    ensures forall id | id in UnreadIds(d) :: Stored(d, id).Some?
  {
    forall id | id in UnreadIds(d) ensures Stored(d, id).Some? {
      if r :| r in d.local && Unread(r) && r.id == id {
        assert id in Ids(d.local);
      } else {
        var alias, r :| alias in d.remotes && r in MergedRemote(d, alias) && Unread(r) && r.id == id;
        var i := DaemonRuns.MergedSource(d, alias, r);
        RecordAt(d.remotes[alias], i);
      }
    }
  }

  lemma UnknownUnmarked(agents: seq<AgentRecord>, targets: set<AgentId>)
    requires Ids(agents) !! targets
    ensures Marked(agents, targets) == agents
  {
    forall i | 0 <= i < |agents| ensures agents[i].id !in targets { assert agents[i] in agents; }
  }

  lemma OthersDoNotKnow(remotes: map<string, seq<AgentRecord>>, alias: string, target: AgentId)
    requires forall other | other in remotes :: ValidRemote(other, remotes[other])
    requires alias in remotes && RecordOf(remotes[alias], target).Some?
    ensures target.RemoteId? && target.alias == alias
    ensures forall other | other in remotes && other != alias :: Marked(remotes[other], {target}) == remotes[other]
  {
    forall other | other in remotes && other != alias ensures Marked(remotes[other], {target}) == remotes[other] {
      UnknownUnmarked(remotes[other], {target});
    }
  }

  /** Local and remote IDs never coincide. */
  lemma KnownOnce(d: State, target: AgentId)
    requires Daemon.Valid(d)
    ensures target.RemoteId? ==> RecordOf(d.local, target).None?
    ensures forall alias | alias in d.remotes && !(target.RemoteId? && target.alias == alias) ::
      target !in Ids(d.remotes[alias])
  {
  }

  lemma NothingMarked(d: State, target: AgentId)
    requires Daemon.Valid(d) && !Result(d, target).found
    ensures Marked(d.local, {target}) == d.local
    ensures (map alias | alias in d.remotes :: Marked(d.remotes[alias], {target})) == d.remotes
  {
    KnownOnce(d, target);
    UnknownUnmarked(d.local, {target});
    forall alias | alias in d.remotes ensures Marked(d.remotes[alias], {target}) == d.remotes[alias] {
      UnknownUnmarked(d.remotes[alias], {target});
    }
  }

  /** Acknowledging step by step gives the specified aggregate. */
  lemma AcknowledgedOne(d: State, t: State, target: AgentId)
    requires Daemon.Valid(d) && Result(d, target).found
    requires t == Acknowledged(d, {target}).(remoteSeen := t.remoteSeen, acks := t.acks)
    requires t.acks == Remembered(d.acks, target, Result(d, target))
    requires t.remoteSeen == if target.RemoteId? && Result(d, target).persistCompletion
                             then map alias | alias in d.remoteSeen :: Raised(d.remoteSeen[alias], {target})
                             else d.remoteSeen
    ensures t == Acknowledged(d, {target})
  {
    AckedOne(d, target);
    IndexOne(d, target);
  }

  lemma AckedOne(d: State, target: AgentId)
    ensures Acknowledged(d, {target}).acks == Remembered(d.acks, target, Result(d, target))
  {
  }

  lemma IndexOne(d: State, target: AgentId)
    requires Daemon.Valid(d)
    ensures Acknowledged(d, {target}).remoteSeen
            == if target.RemoteId? && Result(d, target).persistCompletion
               then map alias | alias in d.remoteSeen :: Raised(d.remoteSeen[alias], {target})
               else d.remoteSeen
  {
    KnownOnce(d, target);
    var persisted := Result(d, target).persistCompletion;
    assert Completed(d, {target}) == if persisted then {target} else {};
    forall alias | alias in d.remoteSeen && !(target.RemoteId? && persisted)
      ensures Raised(d.remoteSeen[alias], Completed(d, {target})) == d.remoteSeen[alias]
    {
      NothingRaised(d.remoteSeen[alias], Completed(d, {target}));
    }
  }

  lemma NothingRaised(index: map<AgentId, bool>, targets: set<AgentId>)
    requires index.Keys !! targets
    ensures Raised(index, targets) == index
  {
  }
}
