/** Which rollouts a scan keeps (the retention part of `ThreadTracker::scan`, src/codex.rs). */
module Retention {
  import opened Wrappers
  import opened ParentLinks

  type ThreadId = string
  type Path = string

  /** What a rollout is observed to be: a thread under a parent, perhaps finished. */
  datatype Thread = Thread(id: ThreadId, parentId: ThreadId, finishedAt: Option<nat>)

  predicate Unexpired(t: Thread, now: nat, retention: nat) {
    t.finishedAt.None? || (if now < t.finishedAt.value then 0 else now - t.finishedAt.value) < retention
  }

  /** A running thread stays; a finished one does until its retention is over. */
  lemma UnexpiredMeans(t: Thread, now: nat, retention: nat)
    ensures Unexpired(t, now, retention) <==>
      t.finishedAt.None? || (retention > 0 && now < t.finishedAt.value + retention)
  {
  }

  ghost predicate DistinctThreads(threads: map<Path, Thread>) {
    forall p, q | p in threads && q in threads && threads[p].id == threads[q].id :: p == q
  }

  /** `table` gives each tracked thread its parent, tracked or not. */
  ghost predicate IsParentTable(threads: map<Path, Thread>, table: map<ThreadId, ThreadId>) {
    && (forall p | p in threads :: threads[p].id in table && table[threads[p].id] == threads[p].parentId)
    && (forall id | id in table :: exists p :: p in threads && threads[p].id == id)
  }

  function ThreadIds(threads: map<Path, Thread>): set<ThreadId> {
    set p | p in threads :: threads[p].id
  }

  ghost function ParentOf(threads: map<Path, Thread>, id: ThreadId): ThreadId
    requires id in ThreadIds(threads)
  {
    var p :| p in threads && threads[p].id == id;
    threads[p].parentId
  }

  ghost function TableOf(threads: map<Path, Thread>): (table: map<ThreadId, ThreadId>)
    ensures DistinctThreads(threads) ==> IsParentTable(threads, table)
  {
    map id | id in ThreadIds(threads) :: ParentOf(threads, id)
  }

  /** A tracked thread reached from an unexpired one by one or more parent links. */
  ghost predicate Required(
    threads: map<Path, Thread>, table: map<ThreadId, ThreadId>, now: nat, retention: nat, id: ThreadId)
  {
    id in table && exists p, k: nat ::
      p in threads && Unexpired(threads[p], now, retention) && Up(table, threads[p].parentId, k) == Some(id)
  }

  ghost predicate Keeps(threads: map<Path, Thread>, table: map<ThreadId, ThreadId>, now: nat, retention: nat, p: Path) {
    p in threads && (Unexpired(threads[p], now, retention) || Required(threads, table, now, retention, threads[p].id))
  }

  /** Every tracked parent of a member is a member, except perhaps `open`. */
  ghost predicate ClosedExcept(table: map<ThreadId, ThreadId>, s: set<ThreadId>, open: Option<ThreadId>) {
    s <= table.Keys && forall id | id in s && table[id] in table && Some(table[id]) != open :: table[id] in s
  }

  ghost predicate AllRequired(
    threads: map<Path, Thread>, table: map<ThreadId, ThreadId>, now: nat, retention: nat, s: set<ThreadId>)
  {
    forall id | id in s :: Required(threads, table, now, retention, id)
  }

  class ThreadTracker {
    /** The tracked rollouts and what each was last observed to be, if readable so. */
    var rollouts: map<Path, Option<Thread>>
    var expired: set<Path>

    constructor (rollouts: map<Path, Option<Thread>>)
      ensures this.rollouts == rollouts && expired == {}
    {
      this.rollouts, expired := rollouts, {};
    }

    function Threads(): map<Path, Thread>
      reads this
    {
      map p | p in rollouts && rollouts[p].Some? :: rollouts[p].value
    }

    method ParentTable() returns (table: map<ThreadId, ThreadId>)
      requires DistinctThreads(Threads())
      ensures IsParentTable(Threads(), table)
    {
      var threads := Threads();
      var todo := threads.Keys;
      table := map[];
      while todo != {}
        invariant todo <= threads.Keys
        invariant forall p | p in threads && p !in todo ::
          threads[p].id in table && table[threads[p].id] == threads[p].parentId
        invariant forall id | id in table :: exists p :: p in threads && threads[p].id == id
        decreases todo
      {
        var p :| p in todo;
        todo := todo - {p};
        table := table[threads[p].id := threads[p].parentId];
      }
    }

    /** The walk over the parents of every unexpired thread. */
    method RequiredAncestors(table: map<ThreadId, ThreadId>, now: nat, retention: nat) returns (required: set<ThreadId>)
      requires IsParentTable(Threads(), table)
      ensures forall id :: id in required <==> Required(Threads(), table, now, retention, id)
    {
      var threads := Threads();
      var todo := threads.Keys;
      required := {};
      while todo != {}
        invariant todo <= threads.Keys
        invariant ClosedExcept(table, required, None) && AllRequired(threads, table, now, retention, required)
        invariant forall p | p in threads && p !in todo && Unexpired(threads[p], now, retention)
          && threads[p].parentId in table ::
          threads[p].parentId in required
        decreases todo
      {
        var p :| p in todo;
        todo := todo - {p};
        if Unexpired(threads[p], now, retention) {
          required := Climb(p, table, required, now, retention);
        }
      }
      AllReachedAreIn(threads, table, now, retention, required);
    }

    /** One walk; it stops at an untracked parent or one already walked through. */
    method Climb(p: Path, table: map<ThreadId, ThreadId>, before: set<ThreadId>, now: nat, retention: nat)
      returns (required: set<ThreadId>)
      requires p in Threads() && Unexpired(Threads()[p], now, retention)
      requires ClosedExcept(table, before, None) && AllRequired(Threads(), table, now, retention, before)
      ensures before <= required && ClosedExcept(table, required, None)
      ensures AllRequired(Threads(), table, now, retention, required)
      ensures Threads()[p].parentId in table ==> Threads()[p].parentId in required
    {
      var first := Threads()[p].parentId;
      var parent := first;
      ghost var k: nat := 0;
      required := before;
      while parent in table
        invariant before <= required && ClosedExcept(table, required, Some(parent))
        invariant AllRequired(Threads(), table, now, retention, required)
        invariant Up(table, first, k) == Some(parent)
        invariant parent != first ==> first in required
        decreases table.Keys - required
      {
        if parent in required { break; }
        assert Required(Threads(), table, now, retention, parent);
        required := required + {parent};
        parent := table[parent];
        k := k + 1;
      }
    }

    /** The retention step of `scan`; `present` are the paths that still exist. */
    method Retain(present: set<Path>, now: nat, retention: nat)
      requires DistinctThreads(Threads())
      modifies this
      ensures forall p :: p in rollouts <==>
        p in present && Keeps(old(Threads()), TableOf(old(Threads())), now, retention, p)
      ensures forall p | p in rollouts :: p in old(rollouts) && rollouts[p] == old(rollouts)[p]
      ensures forall p | p in present && p in old(rollouts) && old(rollouts)[p].Some? ::
        var finished := old(rollouts)[p].value.finishedAt;
        (finished.None? || (retention > 0 && now < finished.value + retention) ==> p in rollouts)
      ensures expired == old(expired) + (old(rollouts).Keys * present - rollouts.Keys)
    {
      var parents := ParentTable();
      OneTable(Threads(), TableOf(Threads()), parents);
      var required := RequiredAncestors(parents, now, retention);
      DropOthers(present, now, retention, required);
    }

    method DropOthers(present: set<Path>, now: nat, retention: nat, required: set<ThreadId>)
      modifies this
      ensures forall p :: p in rollouts <==>
        p in present && p in old(Threads())
            && (Unexpired(old(Threads())[p], now, retention) || old(Threads())[p].id in required)
      ensures forall p | p in rollouts :: p in old(rollouts) && rollouts[p] == old(rollouts)[p]
      ensures expired == old(expired) + (old(rollouts).Keys * present - rollouts.Keys)
    {
      var kept := map p | p in rollouts && p in present && rollouts[p].Some?
                          && (Unexpired(rollouts[p].value, now, retention) || rollouts[p].value.id in required)
                        :: rollouts[p];
      expired := expired + (rollouts.Keys * present - kept.Keys);
      rollouts := kept;
    }
  }

  lemma OneTable(threads: map<Path, Thread>, a: map<ThreadId, ThreadId>, b: map<ThreadId, ThreadId>)
    requires IsParentTable(threads, a) && IsParentTable(threads, b)
    ensures a == b
  {
    forall id ensures id in a <==> id in b {
      if id in a { var p :| p in threads && threads[p].id == id; }
      if id in b { var p :| p in threads && threads[p].id == id; }
    }
    forall id | id in a ensures a[id] == b[id] {
      var p :| p in threads && threads[p].id == id;
    }
  }

  lemma {:induction false} TrackedUp(table: map<ThreadId, ThreadId>, s: set<ThreadId>, first: ThreadId, k: nat)
    requires ClosedExcept(table, s, None) && (first in table ==> first in s)
    requires Up(table, first, k).Some? && Up(table, first, k).value in table
    ensures Up(table, first, k).value in s
  {
    if k > 0 { TrackedUp(table, s, first, k - 1); }
  }

  lemma AllReachedAreIn(
    threads: map<Path, Thread>, table: map<ThreadId, ThreadId>, now: nat, retention: nat, s: set<ThreadId>)
    requires ClosedExcept(table, s, None) && AllRequired(threads, table, now, retention, s)
    requires forall p | p in threads && Unexpired(threads[p], now, retention) && threads[p].parentId in table ::
      threads[p].parentId in s
    ensures forall id :: id in s <==> Required(threads, table, now, retention, id)
  {
    forall id | Required(threads, table, now, retention, id) ensures id in s {
      var p, k: nat :| p in threads && Unexpired(threads[p], now, retention)
          && Up(table, threads[p].parentId, k) == Some(id);
      TrackedUp(table, s, threads[p].parentId, k);
    }
  }

  /** The parent of a kept thread is kept, if it is tracked at all. */
  lemma KeptIsUpwardClosed(
    threads: map<Path, Thread>, table: map<ThreadId, ThreadId>, now: nat, retention: nat, p: Path, q: Path)
    requires IsParentTable(threads, table) && p in threads && q in threads && threads[q].id == threads[p].parentId
    requires Keeps(threads, table, now, retention, p)
    ensures Keeps(threads, table, now, retention, q)
  {
    var parent := threads[p].parentId;
    if Unexpired(threads[p], now, retention) {
      assert Up(table, threads[p].parentId, 0) == Some(parent);
    } else {
      var u, k: nat :| u in threads && Unexpired(threads[u], now, retention)
                       && Up(table, threads[u].parentId, k) == Some(threads[p].id);
      assert Up(table, threads[u].parentId, k + 1) == Some(parent);
    }
    assert Required(threads, table, now, retention, parent);
  }

  /** Nothing is kept without need: any upward-closed set of rollouts that holds
      the unexpired ones holds every kept one. */
  lemma KeptIsLeast(
    threads: map<Path, Thread>, table: map<ThreadId, ThreadId>, now: nat, retention: nat, s: set<Path>, p: Path)
    requires IsParentTable(threads, table) && DistinctThreads(threads) && Keeps(threads, table, now, retention, p)
    requires forall u | u in threads && (threads[u].finishedAt.None?
      || (retention > 0 && now < threads[u].finishedAt.value + retention)) :: u in s
    requires forall u, v | u in s && u in threads && v in threads && threads[v].id == threads[u].parentId :: v in s
    ensures p in s
  {
    if !Unexpired(threads[p], now, retention) {
      var u, k: nat :| u in threads && Unexpired(threads[u], now, retention)
                       && Up(table, threads[u].parentId, k) == Some(threads[p].id);
      LeastClimb(threads, table, s, u, k, p);
    }
  }

  lemma {:induction false} LeastClimb(
    threads: map<Path, Thread>, table: map<ThreadId, ThreadId>, s: set<Path>, u: Path, k: nat, p: Path)
    requires IsParentTable(threads, table) && DistinctThreads(threads) && u in threads && u in s && p in threads
    requires Up(table, threads[u].parentId, k) == Some(threads[p].id)
    requires forall u, v | u in s && u in threads && v in threads && threads[v].id == threads[u].parentId :: v in s
    ensures p in s
  {
    if k > 0 {
      var below := Up(table, threads[u].parentId, k - 1).value;
      var q :| q in threads && threads[q].id == below;
      LeastClimb(threads, table, s, u, k - 1, q);
      assert table[below] == threads[q].parentId;
    }
  }
}
