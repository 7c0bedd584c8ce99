/** Linking Codex threads to agent records (src/codex/ownership.rs). */
module Ownership {
  import opened Wrappers
  import opened AgentModel
  import opened ParentLinks
  import opened Sorting

  type ThreadId = string

  /** Records made for threads have IDs of their own, `<host>/codex-thread/<thread>`. */
  datatype RecordId = Observed(name: string) | CodexThread(thread: ThreadId)

  datatype Sub = Sub(
    parentId: RecordId, startedAt: nat, finishedAt: Option<nat>, name: Option<string>, threadId: Option<ThreadId>)

  /** What linking reads and writes of a record; directories have no trailing slash. */
  datatype Entry = Entry(
    codex: bool, state: AgentState, attention: Attention, seen: bool, changedAt: nat, cwd: string, place: string,
    sub: Option<Sub>)

  datatype Thread = Thread(
    id: ThreadId, parentId: ThreadId, cwd: string, startedAt: nat, finishedAt: Option<nat>, name: Option<string>,
    agentPath: Option<string>, depth: Option<nat>, processBacked: bool)

  datatype Root = Root(cwd: string, startedAt: nat)

  type Entries = map<RecordId, Entry>

  /** Name normalisation, and how well a thread's agent path fits a process name. */
  datatype Naming = Naming(normalize: string -> string, score: (Thread, string) -> Option<nat>)

  /** What one linking call reads and does not change. */
  datatype Context = Context(
    threads: seq<Thread>, explicitParents: map<ThreadId, RecordId>, roots: map<ThreadId, Root>,
    starts: map<RecordId, nat>, naming: Naming)

  const START_TOLERANCE_MS: nat := 120000
  const ROOT_TOLERANCE_MS: nat := 10000

  function Distance(a: nat, b: nat): nat { if a < b then b - a else a - b }

  // ---------------------------------------------------------------- descendants

  /** Each record with a parent link, and its parent. */
  function Links(records: Entries): map<RecordId, RecordId> {
    map id | id in records && records[id].sub.Some? :: records[id].sub.value.parentId
  }

  /** One or more parent links lead from the record to the ancestor. */
  ghost predicate Descends(records: Entries, record: Entry, ancestor: RecordId) {
    record.sub.Some? && exists k: nat :: Up(Links(records), record.sub.value.parentId, k) == Some(ancestor)
  }

  /** `is_subagent_descendant_of`. */
  method IsSubagentDescendantOf(records: Entries, record: Entry, ancestor: RecordId) returns (found: bool)
    ensures found <==> Descends(records, record, ancestor)
  {
    if record.sub.None? { return false; }
    ghost var links := Links(records);
    ghost var first, n: nat := record.sub.value.parentId, 0;
    var parent := record.sub.value.parentId;
    var visited: set<RecordId> := {};
    while true
      invariant Up(links, first, n) == Some(parent)
      invariant ancestor !in visited && Closed(links, visited, Some(parent))
      invariant n == 0 || first in visited
      invariant visited <= links.Keys
      decreases links.Keys - visited
    {
      if parent == ancestor { return true; }
      if parent in visited {
        NotAbove(links, visited, first, ancestor);
        return false;
      }
      if parent !in records || records[parent].sub.None? {
        NotAbove(links, visited + {parent}, first, ancestor);
        return false;
      }
      visited := visited + {parent};
      parent := records[parent].sub.value.parentId;
      n := n + 1;
    }
  }

  lemma NotAbove(links: map<RecordId, RecordId>, visited: set<RecordId>, first: RecordId, ancestor: RecordId)
    requires Closed(links, visited, None) && first in visited && ancestor !in visited
    ensures !exists k: nat :: Up(links, first, k) == Some(ancestor)
  {
    forall k: nat ensures Up(links, first, k) != Some(ancestor) {
      if Up(links, first, k).Some? { ClosedUp(links, visited, first, k); }
    }
  }

  // ---------------------------------------------------------------- candidates

  function NamesFit(c: Context, sub: Sub, t: Thread): bool {
    t.name.None? || sub.name.None? || c.naming.normalize(t.name.value) == c.naming.normalize(sub.name.value)
  }

  /** The checks shared by both heuristics. */
  predicate LooksLike(c: Context, e: Entry, t: Thread) {
    && t.processBacked && e.codex && e.cwd == t.cwd && e.sub.Some? && e.sub.value.threadId.None?
    && Distance(e.sub.value.startedAt, t.startedAt) <= START_TOLERANCE_MS
    && NamesFit(c, e.sub.value, t)
  }

  /** Siblings of a thread, by parent thread, that look like the record. */
  function LookAlikes(c: Context, threads: seq<Thread>, e: Entry, t: Thread): nat {
    if threads == [] then 0
    else (if threads[0].parentId == t.parentId && LooksLike(c, e, threads[0]) then 1 else 0)
         + LookAlikes(c, threads[1..], e, t)
  }

  /** A thread that may have started the named process. */
  predicate Eligible(c: Context, candidate: Thread, t: Thread, name: string, startedAt: nat) {
    && !candidate.processBacked && candidate.parentId == t.parentId && candidate.cwd == t.cwd
    && candidate.startedAt <= startedAt && (candidate.finishedAt.None? || startedAt <= candidate.finishedAt.value)
    && c.naming.score(candidate, name).Some?
  }

  /** The comparison of candidates: by start, then by score. */
  predicate Better(c: Context, a: Thread, b: Thread, name: string)
    requires c.naming.score(a, name).Some? && c.naming.score(b, name).Some?
  {
    a.startedAt > b.startedAt
    || (a.startedAt == b.startedAt && c.naming.score(a, name).value > c.naming.score(b, name).value)
  }

  /** Candidate `j` is not beaten by candidate `i`. */
  ghost predicate Rivals(c: Context, t: Thread, name: string, startedAt: nat, i: nat, j: nat) {
    && i < |c.threads| && j < |c.threads|
    && Eligible(c, c.threads[i], t, name, startedAt) && Eligible(c, c.threads[j], t, name, startedAt)
    && !Better(c, c.threads[i], c.threads[j], name)
  }

  /** Every other eligible candidate started earlier, or at the same time with a
      lower score. */
  ghost predicate Beats(c: Context, t: Thread, name: string, startedAt: nat, i: nat) {
    && i < |c.threads| && Eligible(c, c.threads[i], t, name, startedAt)
    && forall j | 0 <= j < |c.threads| && j != i && Eligible(c, c.threads[j], t, name, startedAt) ::
         || c.threads[j].startedAt < c.threads[i].startedAt
         || (c.threads[j].startedAt == c.threads[i].startedAt
             && c.naming.score(c.threads[j], name).value < c.naming.score(c.threads[i], name).value)
  }

  ghost predicate Preferred(c: Context, t: Thread, name: string, startedAt: nat) {
    exists i: nat :: Beats(c, t, name, startedAt, i) && c.threads[i].id == t.id
  }

  /** `preferred_agent_path_owner`. */
  method PreferredAgentPathOwner(c: Context, t: Thread, name: string, startedAt: nat) returns (preferred: bool)
    ensures preferred <==> Preferred(c, t, name, startedAt)
  {
    var best: Option<nat> := None;
    var tied := false;
    for i := 0 to |c.threads|
      invariant best.None? ==> !tied && forall j | 0 <= j < i :: !Eligible(c, c.threads[j], t, name, startedAt)
      invariant best.Some? ==> best.value < i && Eligible(c, c.threads[best.value], t, name, startedAt)
      invariant best.Some? ==> forall j | 0 <= j < i && Eligible(c, c.threads[j], t, name, startedAt) ::
        !Better(c, c.threads[j], c.threads[best.value], name)
      invariant best.Some? && !tied ==>
        forall j | 0 <= j < i && j != best.value && Eligible(c, c.threads[j], t, name, startedAt) ::
        Better(c, c.threads[best.value], c.threads[j], name)
      invariant tied ==> best.Some? && exists j ::
        0 <= j < i && j != best.value && Rivals(c, t, name, startedAt, best.value, j)
    {
      var candidate := c.threads[i];
      if Eligible(c, candidate, t, name, startedAt) {
        if best.None? {
          best := Some(i);
        } else if Better(c, candidate, c.threads[best.value], name) {
          best, tied := Some(i), false;
        } else if !Better(c, c.threads[best.value], candidate, name) {
          tied := true;
          assert Rivals(c, t, name, startedAt, best.value, i);
        }
      }
    }
    preferred := best.Some? && !tied && c.threads[best.value].id == t.id;
    if preferred {
      assert Beats(c, t, name, startedAt, best.value);
    } else {
      forall i: nat | Beats(c, t, name, startedAt, i) ensures c.threads[i].id != t.id {
        assert i == best.value;
      }
    }
  }

  /** Which records a search is for. */
  datatype Search =
    | Exact(parent: RecordId)
    | Direct(parent: RecordId)
    | Nested(parent: RecordId)
    | ByAgentPath(parent: RecordId, own: RecordId)
    | RootFor(root: Root)

  ghost predicate Matches(c: Context, records: Entries, search: Search, t: Thread, id: RecordId)
    requires id in records
  {
    var e := records[id];
    match search
    case Exact(parent) => e.codex && Descends(records, e, parent) && e.sub.value.threadId == Some(t.id)
    case Direct(parent) =>
      LooksLike(c, e, t) && e.sub.value.parentId == parent && LookAlikes(c, c.threads, e, t) == 1
    case Nested(parent) =>
      && LooksLike(c, e, t) && Descends(records, e, parent) && e.sub.value.parentId != parent
      && LookAlikes(c, c.threads, e, t) == 1
    case ByAgentPath(parent, own) =>
      && id != own && e.codex && e.cwd == t.cwd && e.sub.Some? && e.sub.value.parentId == parent
      && e.sub.value.threadId.None? && e.sub.value.name.Some?
      && Preferred(c, t, c.naming.normalize(e.sub.value.name.value), e.sub.value.startedAt)
    case RootFor(root) =>
      && e.codex && e.sub.None? && e.cwd == root.cwd
      && id in c.starts && Distance(c.starts[id], root.startedAt) <= ROOT_TOLERANCE_MS
  }

  ghost function Hits(c: Context, records: Entries, search: Search, t: Thread): set<RecordId> {
    set id | id in records && Matches(c, records, search, t, id)
  }

  /** The one member, if there is just one. */
  ghost function Only(s: set<RecordId>): (r: Option<RecordId>)
    ensures r.Some? <==> exists id :: s == {id}
    ensures r.Some? ==> s == {r.value}
  {
    if id :| s == {id} then Some(id) else None
  }

  method MatchesNow(c: Context, records: Entries, search: Search, t: Thread, id: RecordId) returns (yes: bool)
    requires id in records
    ensures yes <==> Matches(c, records, search, t, id)
  {
    var e := records[id];
    match search
    case Exact(parent) =>
      var below := IsSubagentDescendantOf(records, e, parent);
      yes := e.codex && below && e.sub.value.threadId == Some(t.id);
    case Direct(parent) =>
      yes := LooksLike(c, e, t) && e.sub.value.parentId == parent && LookAlikes(c, c.threads, e, t) == 1;
    case Nested(parent) =>
      var below := IsSubagentDescendantOf(records, e, parent);
      yes := LooksLike(c, e, t) && below && e.sub.value.parentId != parent && LookAlikes(c, c.threads, e, t) == 1;
    case ByAgentPath(parent, own) =>
      yes := id != own && e.codex && e.cwd == t.cwd && e.sub.Some? && e.sub.value.parentId == parent
             && e.sub.value.threadId.None? && e.sub.value.name.Some?;
      if yes {
        yes := PreferredAgentPathOwner(c, t, c.naming.normalize(e.sub.value.name.value), e.sub.value.startedAt);
      }
    case RootFor(root) =>
      yes := e.codex && e.sub.None? && e.cwd == root.cwd
             && id in c.starts && Distance(c.starts[id], root.startedAt) <= ROOT_TOLERANCE_MS;
  }

  /** Looks through all records, in any order, for at most two matches. */
  method Find(c: Context, records: Entries, search: Search, t: Thread) returns (first: Option<RecordId>, several: bool)
    ensures first.None? <==> Hits(c, records, search, t) == {}
    ensures (if first.Some? && !several then first else None) == Only(Hits(c, records, search, t))
  {
    ghost var hits := Hits(c, records, search, t);
    first, several := None, false;
    var todo := records.Keys;
    while todo != {} && !several
      invariant todo <= records.Keys
      invariant first.Some? ==> first.value in hits && first.value !in todo
      invariant several ==> first.Some? && exists id :: id in hits && id != first.value
      invariant !several ==> forall id | id in hits && id !in todo :: first == Some(id)
      decreases todo
    {
      var id :| id in todo;
      todo := todo - {id};
      var yes := MatchesNow(c, records, search, t, id);
      if yes {
        if first.None? { first := Some(id); } else { several := true; }
        assert id in hits;
      }
    }
    if first.Some? && !several { assert hits == {first.value}; }
  }

  // ---------------------------------------------------------------- one thread

  /** The state of linking: records, links made so far, and the threads linked
      in this call, in order. */
  datatype Linking = Linking(records: Entries, linked: map<ThreadId, RecordId>, order: seq<ThreadId>)

  ghost function ParentFor(c: Context, s: Linking, t: Thread): Option<RecordId> {
    if t.parentId in c.explicitParents then Some(c.explicitParents[t.parentId])
    else if t.parentId in s.linked then Some(s.linked[t.parentId])
    else if t.depth.GetOr(1) <= 1 && (forall u | u in c.threads :: u.id != t.parentId) && t.parentId in c.roots then
      Only(Hits(c, s.records, RootFor(c.roots[t.parentId]), t))
    else None
  }

  /** `attach_thread_to_process_child`: the record chosen, if one is. */
  ghost function Attachable(c: Context, records: Entries, t: Thread, parent: RecordId): Option<RecordId> {
    if Hits(c, records, Exact(parent), t) != {} then Only(Hits(c, records, Exact(parent), t))
    else if Hits(c, records, Direct(parent), t) != {} then Only(Hits(c, records, Direct(parent), t))
    else Only(Hits(c, records, Nested(parent), t))
  }

  /** `update_process_child`. */
  function Updated(e: Entry, t: Thread): Entry
    requires e.sub.Some?
  {
    var sub := e.sub.value.(threadId := Some(t.id), startedAt := t.startedAt, name := e.sub.value.name.OrElse(t.name));
    if t.finishedAt.None? then e.(sub := Some(sub))
    else e.(sub := Some(sub.(finishedAt := t.finishedAt)), state := AgentState.Idle, attention := Attention.Done,
            seen := false, changedAt := t.finishedAt.value)
  }

  /** The record made for a thread without a process record. */
  function Synthetic(parent: RecordId, place: string, t: Thread): Entry {
    var done := t.finishedAt.Some?;
    var (state, attention) :=
      if done then (AgentState.Idle, Attention.Done) else (AgentState.Working, Attention.Working);
    Entry(true, state, attention, false, t.finishedAt.GetOr(t.startedAt), t.cwd, place,
          Some(Sub(parent, t.startedAt, t.finishedAt, t.name, Some(t.id))))
  }

  function Moved(e: Entry, parent: RecordId): Entry
    requires e.sub.Some?
  {
    e.(sub := Some(e.sub.value.(parentId := parent)))
  }

  /** `reparent_agent_path_process_child`. */
  ghost function Reparented(c: Context, records: Entries, t: Thread, parent: RecordId, own: RecordId): Entries {
    var child := Only(Hits(c, records, ByAgentPath(parent, own), t));
    if t.processBacked || child.None? then records
    else assert child.value in Hits(c, records, ByAgentPath(parent, own), t);
         records[child.value := Moved(records[child.value], own)]
  }

  /** Where a thread goes: onto a process record, into a record of its own, or nowhere yet. */
  datatype Destination = Attach(id: RecordId) | Create | Wait

  ghost function DestinationOf(c: Context, s: Linking, t: Thread): Destination {
    var parent := ParentFor(c, s, t);
    if parent.None? then Wait
    else
      var found := Attachable(c, s.records, t, parent.value);
      if found.Some? then Attach(found.value) else if parent.value in s.records then Create else Wait
  }

  /** A thread is attached only to a Codex record below the parent that carries
      this thread already, or no thread at all. */
  lemma AttachesBelowTheParent(c: Context, records: Entries, t: Thread, parent: RecordId)
    requires Attachable(c, records, t, parent).Some?
    ensures var id := Attachable(c, records, t, parent).value;
      && id in records && records[id].codex && Descends(records, records[id], parent)
      && ThreadOf(records[id]) in {None, Some(t.id)}
      && (ThreadOf(records[id]).None? ==>
           forall other | other in records && Descends(records, records[other], parent) ::
            !(records[other].codex && ThreadOf(records[other]) == Some(t.id)))
  {
    var id := Attachable(c, records, t, parent).value;
    AttachableIsRecord(c, records, t, parent);
    assert Up(Links(records), records[id].sub.value.parentId, 0) == Some(records[id].sub.value.parentId);
    if Hits(c, records, Exact(parent), t) != {} {
      assert id in Hits(c, records, Exact(parent), t);
    } else {
      forall other | other in records && Descends(records, records[other], parent)
        ensures !(records[other].codex && ThreadOf(records[other]) == Some(t.id))
      {
        assert other !in Hits(c, records, Exact(parent), t);
      }
      if Hits(c, records, Direct(parent), t) != {} { assert id in Hits(c, records, Direct(parent), t); }
      else { assert id in Hits(c, records, Nested(parent), t); }
    }
  }

  /** Reparenting moves at most one record: an unclaimed child of the same parent,
      to the thread's record, and changes nothing else of it. */
  lemma ReparentedMovesOneChild(
    c: Context, records: Entries, t: Thread, parent: RecordId, own: RecordId) returns (id: RecordId)
    requires Reparented(c, records, t, parent, own) != records
    ensures !t.processBacked && id in records && id != own && records[id].codex
    ensures records[id].sub.Some? && records[id].sub.value.parentId == parent && ThreadOf(records[id]).None?
    ensures Reparented(c, records, t, parent, own) == records[id := Moved(records[id], own)]
  {
    id := Only(Hits(c, records, ByAgentPath(parent, own), t)).value;
    assert id in Hits(c, records, ByAgentPath(parent, own), t);
  }

  lemma AttachableIsRecord(c: Context, records: Entries, t: Thread, parent: RecordId)
    ensures var r := Attachable(c, records, t, parent);
      r.Some? ==> r.value in records && records[r.value].sub.Some? && records[r.value].codex
                  && (records[r.value].sub.value.threadId == Some(t.id) || records[r.value].sub.value.threadId.None?)
  {
    var r := Attachable(c, records, t, parent);
    if r.Some? {
      if Hits(c, records, Exact(parent), t) != {} { assert r.value in Hits(c, records, Exact(parent), t); }
      else if Hits(c, records, Direct(parent), t) != {} { assert r.value in Hits(c, records, Direct(parent), t); }
      else { assert r.value in Hits(c, records, Nested(parent), t); }
    }
  }

  /** The records after a thread found its place. */
  ghost function Placed(c: Context, s: Linking, t: Thread): Entries
    requires !DestinationOf(c, s, t).Wait?
  {
    var parent := ParentFor(c, s, t).value;
    match DestinationOf(c, s, t)
    case Attach(id) => AttachableIsRecord(c, s.records, t, parent); s.records[id := Updated(s.records[id], t)]
    case Create => s.records[CodexThread(t.id) := Synthetic(parent, s.records[parent].place, t)]
  }

  ghost function HomeOf(d: Destination, t: Thread): RecordId {
    if d.Attach? then d.id else CodexThread(t.id)
  }

  ghost function Linked(c: Context, s: Linking, t: Thread): Linking {
    var d := DestinationOf(c, s, t);
    if d.Wait? then s
    else
      var home := HomeOf(d, t);
      Linking(Reparented(c, Placed(c, s, t), t, ParentFor(c, s, t).value, home), s.linked[t.id := home],
          s.order + [t.id])
  }

  // ---------------------------------------------------------------- passes

  datatype Progress = Progress(state: Linking, remaining: seq<Thread>)

  /** One pass over the pending threads. */
  ghost function Pass(c: Context, s: Linking, pending: seq<Thread>): (p: Progress)
    ensures |p.remaining| <= |pending|
    decreases |pending|
  {
    if pending == [] then Progress(s, [])
    else
      var rest := Pass(c, Linked(c, s, pending[0]), pending[1..]);
      Progress(rest.state, (if DestinationOf(c, s, pending[0]).Wait? then [pending[0]] else []) + rest.remaining)
  }

  lemma PassStep(c: Context, s: Linking, pending: seq<Thread>)
    requires pending != []
    ensures var now, later := Pass(c, s, pending), Pass(c, Linked(c, s, pending[0]), pending[1..]);
      && now.state == later.state
      && now.remaining == (if DestinationOf(c, s, pending[0]).Wait? then [pending[0]] else []) + later.remaining
  {
  }

  /** Half-way through a pass: going on from here gives the whole pass. */
  ghost predicate LeadsTo(c: Context, s: Linking, todo: seq<Thread>, remaining: seq<Thread>, whole: Progress) {
    whole == Progress(Pass(c, s, todo).state, remaining + Pass(c, s, todo).remaining)
  }

  lemma Regroup(a: seq<Thread>, b: seq<Thread>, c: seq<Thread>)
    ensures a + (b + c) == a + b + c && a + [] == a
  {
  }

  lemma OneThreadOn(c: Context, s: Linking, todo: seq<Thread>, remaining: seq<Thread>, whole: Progress)
    requires todo != [] && LeadsTo(c, s, todo, remaining, whole)
    ensures var waits := if DestinationOf(c, s, todo[0]).Wait? then remaining + [todo[0]] else remaining;
      LeadsTo(c, Linked(c, s, todo[0]), todo[1..], waits, whole)
  {
    var waiting := if DestinationOf(c, s, todo[0]).Wait? then [todo[0]] else [];
    var next := Linked(c, s, todo[0]);
    PassStep(c, s, todo);
    Regroup(remaining, waiting, Pass(c, next, todo[1..]).remaining);
    assert LeadsTo(c, next, todo[1..], remaining + waiting, whole);
  }

  /** Passes until one links nothing or nothing is left. */
  ghost function Passes(c: Context, s: Linking, pending: seq<Thread>): Progress
    decreases |pending|
  {
    var p := Pass(c, s, pending);
    if |p.remaining| == |pending| || p.remaining == [] then p else Passes(c, p.state, p.remaining)
  }

  class Linker {
    const context: Context
    var records: Entries
    var linkedThreads: map<ThreadId, RecordId>
    ghost var order: seq<ThreadId>

    ghost function State(): Linking
      reads this
    {
      Linking(records, linkedThreads, order)
    }

    constructor (context: Context, records: Entries)
      ensures this.context == context && this.records == records && order == [] && Indexes(records, linkedThreads)
    {
      this.context, this.records, order := context, records, [];
      var linked: map<ThreadId, RecordId> := map[];
      var todo := records.Keys;
      while todo != {}
        invariant todo <= records.Keys && Carry(records, linked)
        invariant forall id | id in records && id !in todo && ThreadOf(records[id]).Some? ::
          ThreadOf(records[id]).value in linked
        decreases todo
      {
        var id :| id in todo;
        todo := todo - {id};
        var thread := ThreadOf(records[id]);
        if thread.Some? { linked := linked[thread.value := id]; }
      }
      linkedThreads := linked;
    }

    method FindParent(t: Thread) returns (parent: Option<RecordId>)
      ensures parent == ParentFor(context, State(), t)
    {
      if t.parentId in context.explicitParents { return Some(context.explicitParents[t.parentId]); }
      if t.parentId in linkedThreads { return Some(linkedThreads[t.parentId]); }
      if t.depth.GetOr(1) <= 1 && (forall u | u in context.threads :: u.id != t.parentId)
          && t.parentId in context.roots {
        var first, several := Find(context, records, RootFor(context.roots[t.parentId]), t);
        return if several then None else first;
      }
      return None;
    }

    /** The search half of `attach_thread_to_process_child`. */
    method FindProcessChild(t: Thread, parent: RecordId) returns (child: Option<RecordId>)
      ensures child == Attachable(context, records, t, parent)
    {
      var first, several := Find(context, records, Exact(parent), t);
      if first.None? {
        first, several := Find(context, records, Direct(parent), t);
        if first.None? { first, several := Find(context, records, Nested(parent), t); }
      }
      return if several then None else first;
    }

    method Reparent(t: Thread, parent: RecordId, own: RecordId)
      modifies this`records
      ensures records == Reparented(context, old(records), t, parent, own)
    {
      if t.processBacked { return; }
      var first, several := Find(context, records, ByAgentPath(parent, own), t);
      if first.Some? && !several {
        assert first.value in Hits(context, records, ByAgentPath(parent, own), t);
        records := records[first.value := Moved(records[first.value], own)];
      }
    }

    /** The body of the linking loop for one thread. */
    method LinkOne(t: Thread) returns (done: bool)
      modifies this
      ensures State() == Linked(context, old(State()), t)
      ensures done == !DestinationOf(context, old(State()), t).Wait?
    {
      ghost var before := State();
      var parent := FindParent(t);
      if parent.None? { return false; }
      var child := FindProcessChild(t, parent.value);
      AttachableIsRecord(context, records, t, parent.value);
      var home;
      if child.Some? {
        home := child.value;
        records := records[home := Updated(records[home], t)];
      } else if parent.value in records {
        home := CodexThread(t.id);
        records := records[home := Synthetic(parent.value, records[parent.value].place, t)];
      } else {
        return false;
      }
      assert records == Placed(context, before, t);
      Reparent(t, parent.value, home);
      linkedThreads := linkedThreads[t.id := home];
      order := order + [t.id];
      return true;
    }

    /** One round of the loop. */
    method LinkPass(pending: seq<Thread>) returns (remaining: seq<Thread>)
      modifies this
      ensures Progress(State(), remaining) == Pass(context, old(State()), pending)
    {
      remaining := [];
      ghost var whole := Pass(context, State(), pending);
      var todo := pending;
      while todo != []
        invariant LeadsTo(context, State(), todo, remaining, whole)
        decreases |todo|
      {
        var t := todo[0];
        OneThreadOn(context, State(), todo, remaining, whole);
        todo := todo[1..];
        var done := LinkOne(t);
        if !done { remaining := remaining + [t]; }
      }
    }

    /** `link_thread_subagents`: parents first, then until nothing more can be linked. */
    method LinkThreadSubagents() returns (remaining: seq<Thread>)
      modifies this
      ensures Progress(State(), remaining)
        == Passes(context, old(State()), StableSort(context.threads, ByDepthAndStart))
    {
      var pending := StableSort(context.threads, ByDepthAndStart);
      ghost var whole := Passes(context, State(), pending);
      while true
        invariant Passes(context, State(), pending) == whole
        decreases |pending|
      {
        remaining := LinkPass(pending);
        if |remaining| == |pending| || remaining == [] { return; }
        pending := remaining;
      }
    }
  }

  function ByDepthAndStart(a: Thread, b: Thread): Order {
    Then(CompareInts(a.depth.GetOr(1), b.depth.GetOr(1)), CompareInts(a.startedAt, b.startedAt))
  }

  function ThreadOf(e: Entry): Option<ThreadId> {
    if e.sub.Some? then e.sub.value.threadId else None
  }

  // ---------------------------------------------------------------- what linking keeps

  /** Every link leads to a record that carries the thread. */
  ghost predicate Carry(records: Entries, linked: map<ThreadId, RecordId>) {
    forall t | t in linked :: linked[t] in records && ThreadOf(records[linked[t]]) == Some(t)
  }

  ghost predicate Indexes(records: Entries, linked: map<ThreadId, RecordId>) {
    && Carry(records, linked)
    && forall id | id in records && ThreadOf(records[id]).Some? :: ThreadOf(records[id]).value in linked
  }

  /** A record made for a thread carries that thread. */
  ghost predicate OwnThreads(records: Entries) {
    forall t | CodexThread(t) in records :: ThreadOf(records[CodexThread(t)]) == Some(t)
  }

  ghost predicate Sound(s: Linking) { Carry(s.records, s.linked) && OwnThreads(s.records) }

  /** Reparenting touches no thread link and loses no record. */
  lemma ReparentedKeepsThreads(c: Context, records: Entries, t: Thread, parent: RecordId, own: RecordId)
    ensures var after := Reparented(c, records, t, parent, own);
      after.Keys == records.Keys && forall id | id in records :: ThreadOf(after[id]) == ThreadOf(records[id])
  {
    var hits := Hits(c, records, ByAgentPath(parent, own), t);
    if Only(hits).Some? { assert Only(hits).value in hits; }
  }

  lemma PlacedKeepsThreads(c: Context, s: Linking, t: Thread)
    requires Sound(s) && !DestinationOf(c, s, t).Wait?
    ensures var home, after := HomeOf(DestinationOf(c, s, t), t), Placed(c, s, t);
      && after.Keys == s.records.Keys + {home} && ThreadOf(after[home]) == Some(t.id)
      && (home in s.records ==> ThreadOf(s.records[home]) in {None, Some(t.id)})
      && forall id | id in s.records && id != home :: after[id] == s.records[id]
  {
    AttachableIsRecord(c, s.records, t, ParentFor(c, s, t).value);
  }

  lemma SameThreadsSameSound(a: Entries, b: Entries, linked: map<ThreadId, RecordId>)
    requires Carry(a, linked) && OwnThreads(a)
    requires a.Keys == b.Keys && forall id | id in a :: ThreadOf(b[id]) == ThreadOf(a[id])
    ensures Carry(b, linked) && OwnThreads(b)
  {
  }

  lemma PlacedKeepsSound(c: Context, s: Linking, t: Thread)
    requires Sound(s) && !DestinationOf(c, s, t).Wait?
    ensures var home, after := HomeOf(DestinationOf(c, s, t), t), Placed(c, s, t);
      Carry(after, s.linked[t.id := home]) && OwnThreads(after) && s.records.Keys <= after.Keys
  {
    PlacedKeepsThreads(c, s, t);
  }

  lemma LinkedKeepsSound(c: Context, s: Linking, t: Thread)
    requires Sound(s)
    ensures Sound(Linked(c, s, t)) && s.records.Keys <= Linked(c, s, t).records.Keys
    ensures s.linked.Keys <= Linked(c, s, t).linked.Keys
  {
    if !DestinationOf(c, s, t).Wait? {
      var home, placed := HomeOf(DestinationOf(c, s, t), t), Placed(c, s, t);
      PlacedKeepsSound(c, s, t);
      ReparentedKeepsThreads(c, placed, t, ParentFor(c, s, t).value, home);
      SameThreadsSameSound(placed, Reparented(c, placed, t, ParentFor(c, s, t).value, home), s.linked[t.id := home]);
    }
  }

  lemma {:induction false} PassKeepsSound(c: Context, s: Linking, pending: seq<Thread>)
    requires Sound(s)
    ensures var p := Pass(c, s, pending); Sound(p.state) && s.records.Keys <= p.state.records.Keys
    ensures s.linked.Keys <= Pass(c, s, pending).state.linked.Keys
    decreases |pending|
  {
    if pending != [] {
      LinkedKeepsSound(c, s, pending[0]);
      PassKeepsSound(c, Linked(c, s, pending[0]), pending[1..]);
    }
  }

  // ---------------------------------------------------------------- once each

  /** How often a thread ID occurs. */
  function Times(threads: seq<Thread>, id: ThreadId): nat {
    if threads == [] then 0
    else Times(threads[..|threads| - 1], id) + (if threads[|threads| - 1].id == id then 1 else 0)
  }

  function TimesIn(ids: seq<ThreadId>, id: ThreadId): nat {
    if ids == [] then 0 else TimesIn(ids[..|ids| - 1], id) + (if ids[|ids| - 1] == id then 1 else 0)
  }

  lemma {:induction false} TimesFirst(t: Thread, rest: seq<Thread>, id: ThreadId)
    ensures Times([t] + rest, id) == (if t.id == id then 1 else 0) + Times(rest, id)
    decreases |rest|
  {
    if rest == [] {
      assert [t] + rest == [t];
    } else {
      var n := |rest| - 1;
      assert ([t] + rest)[..n + 1] == [t] + rest[..n];
      TimesFirst(t, rest[..n], id);
    }
  }

  /** Linking one thread records it in the order, or changes nothing. */
  lemma LinkedOrder(c: Context, s: Linking, t: Thread)
    ensures DestinationOf(c, s, t).Wait? ==> Linked(c, s, t) == s
    ensures !DestinationOf(c, s, t).Wait? ==>
      Linked(c, s, t).order == s.order + [t.id] && Linked(c, s, t).linked.Keys == s.linked.Keys + {t.id}
  {
  }

  lemma OrderGrows(order: seq<ThreadId>, t: ThreadId, id: ThreadId)
    ensures TimesIn(order + [t], id) == TimesIn(order, id) + (if t == id then 1 else 0)
  {
    assert (order + [t])[..|order|] == order;
  }

  /** A pass splits the pending threads into those it links, once each, and those
      that remain. */
  lemma {:induction false} PassSplits(c: Context, s: Linking, pending: seq<Thread>, id: ThreadId)
    ensures var p := Pass(c, s, pending);
      TimesIn(p.state.order, id) + Times(p.remaining, id) == TimesIn(s.order, id) + Times(pending, id)
    decreases |pending|
  {
    if pending != [] {
      var t, rest := pending[0], pending[1..];
      assert pending == [t] + rest;
      TimesFirst(t, rest, id);
      PassStep(c, s, pending);
      LinkedOrder(c, s, t);
      OrderGrows(s.order, t.id, id);
      PassSplits(c, Linked(c, s, t), rest, id);
      var p := Pass(c, Linked(c, s, t), rest);
      TimesFirst(t, p.remaining, id);
      assert [] + p.remaining == p.remaining;
    }
  }

  /** A thread of the pass that does not remain is linked. */
  lemma {:induction false} PassCovers(c: Context, s: Linking, pending: seq<Thread>, t: Thread)
    requires t in pending
    ensures var p := Pass(c, s, pending); t in p.remaining || t.id in p.state.linked
    decreases |pending|
  {
    var first, rest := pending[0], pending[1..];
    LinkedOrder(c, s, first);
    LinkedStays(c, Linked(c, s, first), rest);
    if t != first {
      assert t in rest;
      PassCovers(c, Linked(c, s, first), rest, t);
    }
  }

  lemma {:induction false} LinkedStays(c: Context, s: Linking, pending: seq<Thread>)
    ensures s.linked.Keys <= Pass(c, s, pending).state.linked.Keys
    decreases |pending|
  {
    if pending != [] {
      LinkedOrder(c, s, pending[0]);
      LinkedStays(c, Linked(c, s, pending[0]), pending[1..]);
    }
  }

  /** A pass that links nothing leaves everything as it was. */
  lemma {:induction false} IdlePass(c: Context, s: Linking, pending: seq<Thread>)
    requires |Pass(c, s, pending).remaining| == |pending|
    ensures Pass(c, s, pending) == Progress(s, pending)
    ensures forall t | t in pending :: DestinationOf(c, s, t).Wait?
    decreases |pending|
  {
    if pending != [] {
      var t, rest := pending[0], pending[1..];
      assert DestinationOf(c, s, t).Wait?;
      LinkedOrder(c, s, t);
      IdlePass(c, s, rest);
      assert pending == [t] + rest;
    }
  }

  /** When linking ends, one more pass would link nothing: every remaining thread
      still has nowhere to go. */
  lemma {:induction false} LinkingEndsAtFixpoint(c: Context, s: Linking, pending: seq<Thread>)
    ensures var p := Passes(c, s, pending);
      && Pass(c, p.state, p.remaining) == p
      && forall t | t in p.remaining :: DestinationOf(c, p.state, t).Wait?
    decreases |pending|
  {
    var p := Pass(c, s, pending);
    if |p.remaining| == |pending| {
      IdlePass(c, s, pending);
    } else if p.remaining != [] {
      LinkingEndsAtFixpoint(c, p.state, p.remaining);
    }
  }

  /** Over all passes every pending thread is linked once or remains. */
  lemma {:induction false} PassesSplit(c: Context, s: Linking, pending: seq<Thread>, id: ThreadId)
    ensures var p := Passes(c, s, pending);
      TimesIn(p.state.order, id) + Times(p.remaining, id) == TimesIn(s.order, id) + Times(pending, id)
    decreases |pending|
  {
    var p := Pass(c, s, pending);
    PassSplits(c, s, pending, id);
    if |p.remaining| != |pending| && p.remaining != [] { PassesSplit(c, p.state, p.remaining, id); }
  }

  lemma {:induction false} PassesKeepSound(c: Context, s: Linking, pending: seq<Thread>)
    requires Sound(s)
    ensures var p := Passes(c, s, pending);
      && Sound(p.state) && s.records.Keys <= p.state.records.Keys && s.linked.Keys <= p.state.linked.Keys
    decreases |pending|
  {
    var p := Pass(c, s, pending);
    PassKeepsSound(c, s, pending);
    if |p.remaining| != |pending| && p.remaining != [] { PassesKeepSound(c, p.state, p.remaining); }
  }

  lemma {:induction false} PassesCover(c: Context, s: Linking, pending: seq<Thread>, t: Thread)
    requires Sound(s) && t in pending
    ensures var p := Passes(c, s, pending); t in p.remaining || t.id in p.state.linked
    decreases |pending|
  {
    var p := Pass(c, s, pending);
    PassCovers(c, s, pending, t);
    PassKeepsSound(c, s, pending);
    if |p.remaining| != |pending| && p.remaining != [] {
      PassesKeepSound(c, p.state, p.remaining);
      if t in p.remaining { PassesCover(c, p.state, p.remaining, t); }
    }
  }

  // ---------------------------------------------------------------- one whole call

  ghost predicate DistinctThreads(threads: seq<Thread>) {
    forall i, j | 0 <= i < j < |threads| :: threads[i].id != threads[j].id
  }

  lemma {:induction false} TimesInserted(t: Thread, threads: seq<Thread>, id: ThreadId)
    ensures Times(Insert(t, threads, ByDepthAndStart), id) == Times(threads, id) + (if t.id == id then 1 else 0)
    decreases |threads|
  {
    if threads != [] {
      var n := |threads| - 1;
      if ByDepthAndStart(t, threads[n]).Less? {
        TimesInserted(t, threads[..n], id);
        var less := Insert(t, threads[..n], ByDepthAndStart);
        assert (less + [threads[n]])[..|less|] == less;
      } else {
        assert (threads + [t])[..n + 1] == threads;
      }
    }
  }

  lemma {:induction false} TimesSorted(threads: seq<Thread>, id: ThreadId)
    ensures Times(StableSort(threads, ByDepthAndStart), id) == Times(threads, id)
    decreases |threads|
  {
    if threads != [] {
      var n := |threads| - 1;
      TimesSorted(threads[..n], id);
      TimesInserted(threads[n], StableSort(threads[..n], ByDepthAndStart), id);
    }
  }

  lemma {:induction false} TimesPositive(threads: seq<Thread>, k: nat)
    requires k < |threads|
    ensures Times(threads, threads[k].id) >= 1
    decreases |threads|
  {
    if k < |threads| - 1 { TimesPositive(threads[..|threads| - 1], k); }
  }

  lemma {:induction false} DistinctOnce(threads: seq<Thread>, id: ThreadId)
    requires DistinctThreads(threads)
    ensures Times(threads, id) <= 1
    ensures (forall t | t in threads :: t.id != id) ==> Times(threads, id) == 0
    decreases |threads|
  {
    if threads != [] { DistinctOnce(threads[..|threads| - 1], id); }
  }

  /** One call links no thread twice, and none that remains. */
  lemma EachThreadIsLinkedAtMostOnce(c: Context, s: Linking, id: ThreadId)
    requires DistinctThreads(c.threads) && s.order == []
    ensures var p := Passes(c, s, StableSort(c.threads, ByDepthAndStart));
      && TimesIn(p.state.order, id) <= 1
      && (forall k | 0 <= k < |p.remaining| && p.remaining[k].id == id :: TimesIn(p.state.order, id) == 0)
  {
    var pending := StableSort(c.threads, ByDepthAndStart);
    var p := Passes(c, s, pending);
    PassesSplit(c, s, pending, id);
    TimesSorted(c.threads, id);
    DistinctOnce(c.threads, id);
    forall k | 0 <= k < |p.remaining| && p.remaining[k].id == id ensures TimesIn(p.state.order, id) == 0 {
      TimesPositive(p.remaining, k);
    }
  }

  /** After a call no two threads share a record. */
  lemma ThreadsDoNotShareRecords(c: Context, s: Linking, t: ThreadId, u: ThreadId)
    requires Sound(s)
    requires var p := Passes(c, s, StableSort(c.threads, ByDepthAndStart));
      t in p.state.linked && u in p.state.linked && p.state.linked[t] == p.state.linked[u]
    ensures t == u
  {
    PassesKeepSound(c, s, StableSort(c.threads, ByDepthAndStart));
  }

  /** A thread whose parent thread is linked waits only for a record that is gone. */
  lemma WaitsForARecordThatIsGone(c: Context, s: Linking, t: Thread)
    requires Sound(s) && DestinationOf(c, s, t).Wait? && t.parentId in s.linked
    ensures t.parentId in c.explicitParents && c.explicitParents[t.parentId] !in s.records
  {
  }

  /** After a call every thread remains or is linked to a record that carries it;
      and no remaining thread has a linked parent thread, unless its parent is
      claimed by a record that is gone. */
  lemma LinkedThreadsAreShown(c: Context, s: Linking, t: Thread)
    requires Sound(s) && t in c.threads
    ensures var p := Passes(c, s, StableSort(c.threads, ByDepthAndStart));
      && (t in p.remaining || (t.id in p.state.linked && p.state.linked[t.id] in p.state.records
                               && ThreadOf(p.state.records[p.state.linked[t.id]]) == Some(t.id)))
      && (t in p.remaining && t.parentId in p.state.linked ==>
            t.parentId in c.explicitParents && c.explicitParents[t.parentId] !in p.state.records)
  {
    var pending := StableSort(c.threads, ByDepthAndStart);
    var p := Passes(c, s, pending);
    assert t in multiset(pending);
    PassesCover(c, s, pending, t);
    PassesKeepSound(c, s, pending);
    LinkingEndsAtFixpoint(c, s, pending);
    if t in p.remaining && t.parentId in p.state.linked { WaitsForARecordThatIsGone(c, p.state, t); }
  }

  // ---------------------------------------------------------------- explicit parents

  /** `unambiguous_thread_parents`: threads claimed by exactly one record. */
  method UnambiguousThreadParents(claims: map<RecordId, ThreadId>) returns (parents: map<ThreadId, RecordId>)
    ensures forall t :: t in parents <==> exists id :: id in claims && claims[id] == t && OnlyClaim(claims, id)
    ensures forall t | t in parents :: parents[t] in claims && claims[parents[t]] == t
  {
    var candidates: map<ThreadId, set<RecordId>> := map[];
    var todo := claims.Keys;
    while todo != {}
      invariant todo <= claims.Keys
      invariant forall t :: t in candidates <==> exists id :: id in claims && id !in todo && claims[id] == t
      invariant forall t, id | t in candidates :: id in candidates[t] <==>
        id in claims && id !in todo && claims[id] == t
      decreases todo
    {
      var id :| id in todo;
      todo := todo - {id};
      var t := claims[id];
      candidates := candidates[t := (if t in candidates then candidates[t] else {}) + {id}];
    }
    parents := map t | t in candidates && |candidates[t]| == 1 :: Single(candidates[t]);
    forall t ensures t in parents <==> exists id :: id in claims && claims[id] == t && OnlyClaim(claims, id) {
      if id :| id in claims && claims[id] == t && OnlyClaim(claims, id) {
        assert candidates[t] == {id};
      }
      if t in parents {
        var id := parents[t];
        assert candidates[t] == {id};
        assert OnlyClaim(claims, id);
      }
    }
  }

  ghost predicate OnlyClaim(claims: map<RecordId, ThreadId>, id: RecordId) {
    id in claims && forall other | other in claims && claims[other] == claims[id] :: other == id
  }

  lemma SingletonIs(s: set<RecordId>, x: RecordId)
    requires |s| == 1 && x in s
    ensures s == {x}
  {
    assert s - {x} == {};
    assert s == {x} + (s - {x});
  }

  function Single(s: set<RecordId>): (id: RecordId)
    requires |s| == 1
    ensures s == {id}
  {
    assert exists x :: s == {x} by {
      var x :| x in s;
      SingletonIs(s, x);
    }
    var x :| s == {x};
    assert x in s;
    x
  }
}
