/** Where linking puts threads and records, exactly, in terms of the records and
    rollouts alone (src/codex/ownership.rs). */
module LinkingRules {
  import opened Wrappers
  import opened AgentModel
  import opened ParentLinks
  import opened Sorting
  import opened Ownership

  // ---------------------------------------------------------------- reparenting

  /** The thread may have started the process behind this child record: it is a
      sibling of `t` without a process, in the child's directory, that was running
      when the child started and whose agent path fits the child's name. */
  ghost predicate MayHaveStarted(c: Context, u: Thread, t: Thread, e: Entry) {
    && e.sub.Some? && e.sub.value.name.Some?
    && !u.processBacked && u.parentId == t.parentId && u.cwd == e.cwd
    && u.startedAt <= e.sub.value.startedAt
    && (u.finishedAt.Some? ==> e.sub.value.startedAt <= u.finishedAt.value)
    && c.naming.score(u, c.naming.normalize(e.sub.value.name.value)).Some?
  }

  function ScoreFor(c: Context, u: Thread, e: Entry): int {
    if e.sub.None? || e.sub.value.name.None? then -1
    else
      var score := c.naming.score(u, c.naming.normalize(e.sub.value.name.value));
      if score.Some? then score.value else -1
  }

  /** Thread `k` started last of those that may have started the child, or at the
      same time with the best score. */
  ghost predicate LatestStarter(c: Context, t: Thread, e: Entry, k: nat) {
    && k < |c.threads| && MayHaveStarted(c, c.threads[k], t, e)
    && forall j | 0 <= j < |c.threads| && j != k && MayHaveStarted(c, c.threads[j], t, e) ::
         || c.threads[j].startedAt < c.threads[k].startedAt
         || (c.threads[j].startedAt == c.threads[k].startedAt
             && ScoreFor(c, c.threads[j], e) < ScoreFor(c, c.threads[k], e))
  }

  /** An unclaimed Codex child of the parent, in the thread's directory, that the
      thread started. */
  ghost predicate StartedBy(c: Context, records: Entries, t: Thread, parent: RecordId, own: RecordId, id: RecordId) {
    && id in records && id != own
    && var e := records[id];
       && e.codex && e.cwd == t.cwd && e.sub.Some? && e.sub.value.parentId == parent
       && e.sub.value.threadId.None? && e.sub.value.name.Some?
       && exists k: nat :: LatestStarter(c, t, e, k) && c.threads[k].id == t.id
  }

  lemma StartedByMeans(c: Context, records: Entries, t: Thread, parent: RecordId, own: RecordId, id: RecordId)
    ensures StartedBy(c, records, t, parent, own, id) <==> id in Hits(c, records, ByAgentPath(parent, own), t)
  {
    if id in records && id != own && records[id].codex && records[id].cwd == t.cwd && records[id].sub.Some?
        && records[id].sub.value.name.Some? {
      var e := records[id];
      forall k: nat
        ensures LatestStarter(c, t, e, k) <==>
          Beats(c, t, c.naming.normalize(e.sub.value.name.value), e.sub.value.startedAt, k)
      {
        StarterBeats(c, t, e, k);
      }
      assert Preferred(c, t, c.naming.normalize(e.sub.value.name.value), e.sub.value.startedAt) <==>
        exists k: nat :: LatestStarter(c, t, e, k) && c.threads[k].id == t.id;
    }
  }

  lemma StarterBeats(c: Context, t: Thread, e: Entry, k: nat)
    requires e.cwd == t.cwd && e.sub.Some? && e.sub.value.name.Some?
    ensures LatestStarter(c, t, e, k) <==>
      Beats(c, t, c.naming.normalize(e.sub.value.name.value), e.sub.value.startedAt, k)
  {
    var name := c.naming.normalize(e.sub.value.name.value);
    forall u ensures MayHaveStarted(c, u, t, e) <==> Eligible(c, u, t, name, e.sub.value.startedAt) { }
  }

  /** After a thread found its place: a child process moves below it exactly if the
      thread has no process itself and this is the one child it started. */
  lemma ReparentsExactly(c: Context, records: Entries, t: Thread, parent: RecordId, own: RecordId, id: RecordId)
    requires id in records
    ensures var after := Reparented(c, records, t, parent, own);
      after.Keys == records.Keys &&
      after[id] ==
        if !t.processBacked && StartedBy(c, records, t, parent, own, id)
           && (forall other | StartedBy(c, records, t, parent, own, other) :: other == id)
        then records[id].(sub := Some(records[id].sub.value.(parentId := own))) else records[id]
  {
    var hits := Hits(c, records, ByAgentPath(parent, own), t);
    forall other ensures StartedBy(c, records, t, parent, own, other) <==> other in hits {
      StartedByMeans(c, records, t, parent, own, other);
    }
    if StartedBy(c, records, t, parent, own, id)
        && (forall other | StartedBy(c, records, t, parent, own, other) :: other == id) {
      assert hits == {id};
    }
    if Only(hits).Some? { assert Only(hits).value in hits; }
  }

  /** So linking moves a record other than the thread's own only below the thread
      that started its process last. */
  lemma MovedChildGoesToLatest(c: Context, s: Linking, t: Thread, id: RecordId) returns (k: nat)
    requires id in s.records && id in Linked(c, s, t).records && s.records[id].sub.Some?
    requires !DestinationOf(c, s, t).Wait? && id != HomeOf(DestinationOf(c, s, t), t)
    requires var after := Linked(c, s, t).records[id].sub;
      after.None? || after.value.parentId != s.records[id].sub.value.parentId
    ensures var after := Linked(c, s, t).records[id].sub;
      after == Some(s.records[id].sub.value.(parentId := Linked(c, s, t).linked[t.id]))
    ensures LatestStarter(c, t, s.records[id], k) && c.threads[k].id == t.id
  {
    var placed, parent := Placed(c, s, t), ParentFor(c, s, t).value;
    var own := HomeOf(DestinationOf(c, s, t), t);
    AttachableIsRecord(c, s.records, t, parent);
    assert placed[id] == s.records[id];
    ReparentsExactly(c, placed, t, parent, own, id);
    assert StartedBy(c, placed, t, parent, own, id);
    k :| LatestStarter(c, t, placed[id], k) && c.threads[k].id == t.id;
  }

  // ---------------------------------------------------------------- attaching

  /** A Codex record below the parent that carries this thread. */
  ghost predicate CarriesBelow(records: Entries, t: Thread, parent: RecordId, id: RecordId) {
    && id in records && records[id].codex && records[id].sub.Some? && records[id].sub.value.threadId == Some(t.id)
    && Descends(records, records[id], parent)
  }

  /** Thread `u` and the record agree in directory, start (within two minutes) and
      name, as far as both have one, and the thread reports a process. */
  ghost predicate Alike(c: Context, e: Entry, u: Thread) {
    && u.processBacked && e.codex && e.cwd == u.cwd && e.sub.Some?
    && -120_000 <= e.sub.value.startedAt - u.startedAt <= 120_000
    && (e.sub.value.name.Some? && u.name.Some? ==>
          c.naming.normalize(e.sub.value.name.value) == c.naming.normalize(u.name.value))
  }

  ghost predicate AlikeAt(c: Context, threads: seq<Thread>, e: Entry, t: Thread, i: int) {
    0 <= i < |threads| && threads[i].parentId == t.parentId && Alike(c, e, threads[i])
  }

  /** Just one of the threads under the same parent thread is like the record. */
  ghost predicate OneAlike(c: Context, threads: seq<Thread>, e: Entry, t: Thread) {
    exists i :: AlikeAt(c, threads, e, t, i) && forall j | AlikeAt(c, threads, e, t, j) :: j == i
  }

  /** An unclaimed record like this thread and no sibling of it: a child of the
      parent itself, or further below. */
  ghost predicate AlikeBelow(c: Context, records: Entries, t: Thread, parent: RecordId, child: bool, id: RecordId) {
    && id in records && Alike(c, records[id], t) && OneAlike(c, c.threads, records[id], t)
    && records[id].sub.value.threadId.None?
    && if child then records[id].sub.value.parentId == parent
       else records[id].sub.value.parentId != parent && Descends(records, records[id], parent)
  }

  lemma LooksLikeMeans(c: Context, e: Entry, u: Thread)
    ensures LooksLike(c, e, u) <==> Alike(c, e, u) && e.sub.value.threadId.None?
  {
  }

  /** The count of look-alikes tells whether there is none or just one. */
  lemma {:induction false} CountsAlike(c: Context, threads: seq<Thread>, e: Entry, t: Thread)
    requires e.sub.Some? && e.sub.value.threadId.None?
    ensures LookAlikes(c, threads, e, t) == 0 <==> forall i :: !AlikeAt(c, threads, e, t, i)
    ensures LookAlikes(c, threads, e, t) == 1 <==> OneAlike(c, threads, e, t)
  {
    if threads != [] {
      var rest := threads[1..];
      CountsAlike(c, rest, e, t);
      LooksLikeMeans(c, e, threads[0]);
      forall i ensures i >= 0 ==> AlikeAt(c, threads, e, t, i + 1) == AlikeAt(c, rest, e, t, i) { }
      NoneAlikeFurther(c, threads, e, t);
      OneAlikeFurther(c, threads, e, t);
    }
  }

  lemma NoneAlikeFurther(c: Context, threads: seq<Thread>, e: Entry, t: Thread)
    requires threads != []
    ensures (forall i :: !AlikeAt(c, threads, e, t, i)) <==>
      !AlikeAt(c, threads, e, t, 0) && forall i :: !AlikeAt(c, threads[1..], e, t, i)
  {
    if i :| AlikeAt(c, threads[1..], e, t, i) { assert AlikeAt(c, threads, e, t, i + 1); }
    if i :| AlikeAt(c, threads, e, t, i) && i > 0 { assert AlikeAt(c, threads[1..], e, t, i - 1); }
  }

  lemma OneAlikeFurther(c: Context, threads: seq<Thread>, e: Entry, t: Thread)
    requires threads != []
    ensures OneAlike(c, threads, e, t) <==>
      if AlikeAt(c, threads, e, t, 0) then forall i :: !AlikeAt(c, threads[1..], e, t, i)
      else OneAlike(c, threads[1..], e, t)
  {
    var rest := threads[1..];
    if OneAlike(c, threads, e, t) {
      var i :| AlikeAt(c, threads, e, t, i) && forall j | AlikeAt(c, threads, e, t, j) :: j == i;
      forall j | AlikeAt(c, rest, e, t, j) ensures j == i - 1 { assert AlikeAt(c, threads, e, t, j + 1); }
      if i > 0 { assert AlikeAt(c, rest, e, t, i - 1); }
    }
    if AlikeAt(c, threads, e, t, 0) && forall i :: !AlikeAt(c, rest, e, t, i) {
      forall j | AlikeAt(c, threads, e, t, j) ensures j == 0 { assert !AlikeAt(c, rest, e, t, j - 1); }
    }
    if !AlikeAt(c, threads, e, t, 0) && OneAlike(c, rest, e, t) {
      var i :| AlikeAt(c, rest, e, t, i) && forall j | AlikeAt(c, rest, e, t, j) :: j == i;
      assert AlikeAt(c, threads, e, t, i + 1);
      forall j | AlikeAt(c, threads, e, t, j) ensures j == i + 1 { assert AlikeAt(c, rest, e, t, j - 1); }
    }
  }

  lemma AlikeBelowMeans(c: Context, records: Entries, t: Thread, parent: RecordId, id: RecordId)
    ensures AlikeBelow(c, records, t, parent, true, id) <==> id in Hits(c, records, Direct(parent), t)
    ensures AlikeBelow(c, records, t, parent, false, id) <==> id in Hits(c, records, Nested(parent), t)
    ensures CarriesBelow(records, t, parent, id) <==> id in Hits(c, records, Exact(parent), t)
  {
    if id in records && records[id].sub.Some? && records[id].sub.value.threadId.None? {
      var e := records[id];
      LooksLikeMeans(c, e, t);
      CountsAlike(c, c.threads, e, t);
    }
  }

  /** The record is the only one of its kind. */
  ghost predicate Alone(ids: iset<RecordId>, id: RecordId) { id in ids && forall other | other in ids :: other == id }

  ghost function CarryingBelow(records: Entries, t: Thread, parent: RecordId): iset<RecordId> {
    iset id | CarriesBelow(records, t, parent, id)
  }

  ghost function AllAlikeBelow(c: Context, records: Entries, t: Thread, parent: RecordId, child: bool): iset<RecordId> {
    iset id | AlikeBelow(c, records, t, parent, child, id)
  }

  lemma AloneIsOnly(s: set<RecordId>, i: iset<RecordId>, id: RecordId)
    requires forall x :: x in s <==> x in i
    ensures Only(s) == Some(id) <==> Alone(i, id)
    ensures s == {} <==> i == iset{}
  {
    if Alone(i, id) { assert s == {id}; }
    if Only(s) == Some(id) { assert s == {id}; }
    if s == {} { assert i == iset{}; }
    if i == iset{} { assert s == {}; }
  }

  /** A thread is attached to the one record below its parent that carries it; if
      none does, to the one child of the parent that is like it alone; if there is
      no such child, to the one such record further below; and to none if the
      first of these kinds that exists has several. */
  lemma AttachesExactly(c: Context, records: Entries, t: Thread, parent: RecordId, id: RecordId)
    ensures Attachable(c, records, t, parent) == Some(id) <==>
      var carrying := CarryingBelow(records, t, parent);
      var children := AllAlikeBelow(c, records, t, parent, true);
      if carrying != iset{} then Alone(carrying, id)
      else if children != iset{} then Alone(children, id)
      else Alone(AllAlikeBelow(c, records, t, parent, false), id)
  {
    forall x
      ensures x in CarryingBelow(records, t, parent) <==> x in Hits(c, records, Exact(parent), t)
      ensures x in AllAlikeBelow(c, records, t, parent, true) <==> x in Hits(c, records, Direct(parent), t)
      ensures x in AllAlikeBelow(c, records, t, parent, false) <==> x in Hits(c, records, Nested(parent), t)
    {
      AlikeBelowMeans(c, records, t, parent, x);
    }
    AloneIsOnly(Hits(c, records, Exact(parent), t), CarryingBelow(records, t, parent), id);
    AloneIsOnly(Hits(c, records, Direct(parent), t), AllAlikeBelow(c, records, t, parent, true), id);
    AloneIsOnly(Hits(c, records, Nested(parent), t), AllAlikeBelow(c, records, t, parent, false), id);
  }

  // ---------------------------------------------------------------- parents

  /** A top-level Codex record in the root's directory that started within ten
      seconds of it. */
  ghost predicate IsRootRecord(c: Context, records: Entries, root: Root, id: RecordId) {
    && id in records && records[id].codex && records[id].sub.None? && records[id].cwd == root.cwd
    && id in c.starts && -10_000 <= c.starts[id] - root.startedAt <= 10_000
  }

  /** The parent of a thread is the record that alone claims its parent thread, else
      the record that thread is linked to; else, for a top-level thread whose parent
      thread has no rollout of its own, the one record of that root. */
  lemma ParentExactly(c: Context, s: Linking, t: Thread, id: RecordId)
    ensures ParentFor(c, s, t) == Some(id) <==>
      if t.parentId in c.explicitParents then id == c.explicitParents[t.parentId]
      else if t.parentId in s.linked then id == s.linked[t.parentId]
      else
        && (t.depth.None? || t.depth.value <= 1) && (forall u | u in c.threads :: u.id != t.parentId)
        && t.parentId in c.roots && IsRootRecord(c, s.records, c.roots[t.parentId], id)
        && forall other | IsRootRecord(c, s.records, c.roots[t.parentId], other) :: other == id
  {
    if t.parentId in c.roots {
      var root := c.roots[t.parentId];
      var roots := iset x | IsRootRecord(c, s.records, root, x);
      var hits := Hits(c, s.records, RootFor(root), t);
      forall x ensures x in hits <==> x in roots { }
      AloneIsOnly(hits, roots, id);
      assert Alone(roots, id) <==>
        IsRootRecord(c, s.records, root, id) && forall other | IsRootRecord(c, s.records, root, other) ::
            other == id by {
        if Alone(roots, id) {
          forall other | IsRootRecord(c, s.records, root, other) ensures other == id { assert other in roots; }
        }
      }
    }
  }

  // ---------------------------------------------------------------- what is shown

  /** The record a thread is linked to carries it and its start; it shows the thread
      as finished if it is, and a record made for it shows it working below the
      parent until then. */
  lemma LinkedRecordShows(c: Context, s: Linking, t: Thread)
    requires !DestinationOf(c, s, t).Wait?
    ensures var after, home, parent := Linked(c, s, t), HomeOf(DestinationOf(c, s, t), t), ParentFor(c, s, t).value;
      && t.id in after.linked && after.linked[t.id] == home && home in after.records
      && var e := after.records[home];
         && e.sub.Some? && e.sub.value.threadId == Some(t.id) && e.sub.value.startedAt == t.startedAt && e.codex
         && (t.finishedAt.Some? ==>
               e.state == AgentState.Idle && e.attention == Attention.Done && !e.seen
               && e.changedAt == t.finishedAt.value && e.sub.value.finishedAt == t.finishedAt)
         && (DestinationOf(c, s, t).Create? ==>
               && e.sub.value.parentId == parent && e.cwd == t.cwd && e.sub.value.name == t.name
               && parent in s.records && e.place == s.records[parent].place && !e.seen
               && (t.finishedAt.None? ==>
                     e.state == AgentState.Working && e.attention == Attention.Working
                     && e.changedAt == t.startedAt && e.sub.value.finishedAt.None?))
         && (DestinationOf(c, s, t).Attach? ==>
               && home in s.records && s.records[home].sub.Some?
               && e.sub.value.parentId == s.records[home].sub.value.parentId && e.cwd == s.records[home].cwd
               && e.sub.value.name == (if s.records[home].sub.value.name.Some? then s.records[home].sub.value.name
                                       else t.name)
               && (t.finishedAt.None? ==> e == s.records[home].(sub := e.sub)
                                          && e.sub.value.finishedAt == s.records[home].sub.value.finishedAt))
  {
    var placed, parent := Placed(c, s, t), ParentFor(c, s, t).value;
    var home := HomeOf(DestinationOf(c, s, t), t);
    AttachableIsRecord(c, s.records, t, parent);
    ReparentsExactly(c, placed, t, parent, home, home);
    assert !StartedBy(c, placed, t, parent, home, home);
  }

  /** Threads are linked in order of depth, those without one as depth 1, and then
      of start. */
  lemma ThreadsInOrder(threads: seq<Thread>, i: nat, j: nat)
    requires i < j < |threads|
    ensures |StableSort(threads, ByDepthAndStart)| == |threads|
    ensures var a, b := StableSort(threads, ByDepthAndStart)[i], StableSort(threads, ByDepthAndStart)[j];
      var m, n := if a.depth.Some? then a.depth.value else 1, if b.depth.Some? then b.depth.value else 1;
      m < n || (m == n && a.startedAt <= b.startedAt)
  {
    assert |multiset(StableSort(threads, ByDepthAndStart))| == |multiset(threads)|;
    assert TotalPreorder(ByDepthAndStart);
    StableSortSorts(threads, ByDepthAndStart);
    var sorted := StableSort(threads, ByDepthAndStart);
    assert !ByDepthAndStart(sorted[i], sorted[j]).Greater?;
  }
}
