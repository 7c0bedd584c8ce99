/** Flattening the agent forest for display (`sort_agents_by_last_used`,
    `append_agent_tree` of src/model.rs). */
module Forest {
  import opened Wrappers
  import opened AgentModel
  import opened Ordering
  import opened Sorting
  import opened ParentLinks

  type Agents = seq<AgentRecord>

  /** The listed parent of a record, if it names one that is present. */
  function ParentOf(agents: Agents, r: AgentRecord): Option<AgentId> {
    if r.subagent.Some? && r.subagent.value.parentId in Ids(agents) then Some(r.subagent.value.parentId) else None
  }

  /** The records with this parent, in input order. */
  function WithParent(agents: Agents, all: Agents, parent: Option<AgentId>): (s: Agents)
    ensures forall r :: r in s <==> r in agents && ParentOf(all, r) == parent
  {
    if agents == [] then []
    else
      assert agents == agents[..|agents| - 1] + [agents[|agents| - 1]];
      var last := agents[|agents| - 1];
      WithParent(agents[..|agents| - 1], all, parent) + (if ParentOf(all, last) == parent then [last] else [])
  }

  function SortRoots(roots: Agents, lastUsed: map<AgentId, nat>): (sorted: Agents)
    ensures multiset(sorted) == multiset(roots)
  {
    StableSort(roots, (a, b) => SortAgent(a, b, lastUsed))
  }

  function SortedRoots(agents: Agents, lastUsed: map<AgentId, nat>): (s: Agents)
    ensures forall r :: r in s <==> r in agents && ParentOf(agents, r).None?
  {
    var roots := WithParent(agents, agents, None);
    SameMembers(SortRoots(roots, lastUsed), roots);
    SortRoots(roots, lastUsed)
  }

  function SortedKids(agents: Agents, parent: AgentId): (s: Agents)
    ensures forall r :: r in s <==> r in agents && ParentOf(agents, r) == Some(parent)
  {
    var kids := WithParent(agents, agents, Some(parent));
    SameMembers(StableSort(kids, SortSubagent), kids);
    StableSort(kids, SortSubagent)
  }

  lemma SameMembers(a: Agents, b: Agents)
    requires multiset(a) == multiset(b)
    ensures forall r :: r in a <==> r in b
  {
    forall r ensures r in a <==> r in b { assert r in a <==> r in multiset(a); }
  }

  /** The `children` table the walk starts with. */
  function KidsTable(agents: Agents): map<AgentId, Agents> {
    map id | id in Ids(agents) && SortedKids(agents, id) != [] :: SortedKids(agents, id)
  }

  // ---------------------------------------------------------------- the walk

  /** The mutable state of one flattening. */
  datatype Walk = Walk(children: map<AgentId, Agents>, visited: set<AgentId>, ordered: Agents)

  /** `append_agent_tree`: every list is taken out of the table before it is
      followed, so the walk ends on any graph. */
  function Append(r: AgentRecord, w: Walk): (v: Walk)
    ensures v.children.Keys <= w.children.Keys
    decreases w.children.Keys, 0
  {
    if r.id in w.visited then w
    else
      var next := Walk(w.children - {r.id}, w.visited + {r.id}, w.ordered + [r]);
      if r.id in w.children then
        assert r.id !in next.children.Keys;
        AppendAll(w.children[r.id], next)
      else next
  }

  function AppendAll(list: Agents, w: Walk): (v: Walk)
    ensures v.children.Keys <= w.children.Keys
    decreases w.children.Keys, |list| + 1
  {
    if list == [] then w else AppendAll(list[1..], Append(list[0], w))
  }

  function Start(agents: Agents): Walk {
    Walk(KidsTable(agents), {}, [])
  }

  function RootWalk(agents: Agents, lastUsed: map<AgentId, nat>): Walk {
    AppendAll(SortedRoots(agents, lastUsed), Start(agents))
  }

  class Flattening {
    var children: map<AgentId, Agents>
    var visited: set<AgentId>
    var ordered: Agents

    ghost function State(): Walk
      reads this
    {
      Walk(children, visited, ordered)
    }

    constructor (table: map<AgentId, Agents>)
      ensures State() == Walk(table, {}, [])
    {
      children, visited, ordered := table, {}, [];
    }

    method AppendTree(r: AgentRecord)
      modifies this
      ensures State() == Append(r, old(State()))
      decreases children.Keys
    {
      if r.id in visited { return; }
      visited, ordered := visited + {r.id}, ordered + [r];
      if r.id in children {
        var descendants := children[r.id];
        children := children - {r.id};
        ghost var start := State();
        for i := 0 to |descendants|
          invariant children.Keys <= start.children.Keys
          invariant AppendAll(descendants[i..], State()) == AppendAll(descendants, start)
        {
          AppendTree(descendants[i]);
          assert descendants[i..][1..] == descendants[i + 1..];
        }
      } else {
        assert children - {r.id} == children;
      }
    }

    /** What the walk never reached, in any order: agents on or below a cycle. */
    method AppendRest()
      modifies this
      ensures exists rest :: IsRest(old(State()), rest) && ordered == old(ordered) + rest
    {
      ghost var start := State();
      ghost var rest := [];
      var todo := children.Keys;
      while todo != {}
        invariant todo <= children.Keys && children == start.children
        invariant PartOfRest(start, children.Keys - todo, rest)
        invariant ordered == start.ordered + rest && visited == start.visited + Ids(rest)
        decreases todo
      {
        var id :| id in todo;
        ghost var done := children.Keys - todo;
        todo := todo - {id};
        var list := children[id];
        for i := 0 to |list|
          invariant children == start.children && todo <= children.Keys
          invariant CoveredBy(start, done, rest)
          invariant ordered == start.ordered + rest && visited == start.visited + Ids(rest)
          invariant forall r | r in list[..i] :: r.id in start.visited || r.id in Ids(rest)
          invariant forall r | r in rest :: r.id !in start.visited && exists p ::
            p in start.children && r in start.children[p]
          invariant DistinctIds(rest)
        {
          if list[i].id !in visited {
            visited, ordered := visited + {list[i].id}, ordered + [list[i]];
            rest := rest + [list[i]];
          }
        }
        assert list[..|list|] == list;
        assert children.Keys - todo == done + {id};
      }
      assert children.Keys - todo == children.Keys;
    }
  }

  ghost predicate CoveredBy(w: Walk, done: set<AgentId>, rest: Agents) {
    forall p, r | p in done && p in w.children && r in w.children[p] :: r.id in w.visited || r.id in Ids(rest)
  }

  ghost predicate PartOfRest(w: Walk, done: set<AgentId>, rest: Agents) {
    && DistinctIds(rest)
    && (forall r | r in rest :: r.id !in w.visited && exists p :: p in w.children && r in w.children[p])
    && CoveredBy(w, done, rest)
  }

  /** Every unvisited record of the table, once. */
  ghost predicate IsRest(w: Walk, rest: Agents) {
    PartOfRest(w, w.children.Keys, rest)
  }

  /** Splits the records into roots and lists of children. */
  method Partition(agents: Agents) returns (roots: Agents, children: map<AgentId, Agents>)
    ensures roots == WithParent(agents, agents, None)
    ensures forall id :: id in children <==> WithParent(agents, agents, Some(id)) != []
    ensures forall id | id in children :: children[id] == WithParent(agents, agents, Some(id))
  {
    roots, children := [], map[];
    for i := 0 to |agents|
      invariant roots == WithParent(agents[..i], agents, None)
      invariant forall id :: id in children <==> WithParent(agents[..i], agents, Some(id)) != []
      invariant forall id | id in children :: children[id] == WithParent(agents[..i], agents, Some(id))
    {
      assert agents[..i + 1][..i] == agents[..i];
      match ParentOf(agents, agents[i])
      case None => roots := roots + [agents[i]];
      case Some(p) => children := children[p := (if p in children then children[p] else []) + [agents[i]]];
    }
    assert agents[..|agents|] == agents;
  }

  function SortedLists(children: map<AgentId, Agents>): map<AgentId, Agents> {
    map id | id in children :: StableSort(children[id], SortSubagent)
  }

  lemma SortedKidsOf(agents: Agents, id: AgentId)
    ensures var kids := WithParent(agents, agents, Some(id));
      && SortedKids(agents, id) == StableSort(kids, SortSubagent)
      && (SortedKids(agents, id) == [] <==> kids == []) && (kids != [] ==> id in Ids(agents))
  {
    var kids := WithParent(agents, agents, Some(id));
    assert |multiset(StableSort(kids, SortSubagent))| == |multiset(kids)|;
    if kids != [] { assert kids[0] in kids && ParentOf(agents, kids[0]) == Some(id); }
  }

  lemma ListOf(agents: Agents, children: map<AgentId, Agents>, id: AgentId)
    requires id in children <==> WithParent(agents, agents, Some(id)) != []
    requires id in children ==> children[id] == WithParent(agents, agents, Some(id))
    ensures id in SortedLists(children) <==> id in KidsTable(agents)
    ensures id in SortedLists(children) ==> SortedLists(children)[id] == KidsTable(agents)[id]
  {
    SortedKidsOf(agents, id);
  }

  lemma SameTable(a: map<AgentId, Agents>, b: map<AgentId, Agents>)
    requires (forall id :: id in a <==> id in b) && forall id | id in a :: a[id] == b[id]
    ensures a == b
  {
  }

  lemma TableOfLists(agents: Agents, children: map<AgentId, Agents>)
    requires forall id :: id in children <==> WithParent(agents, agents, Some(id)) != []
    requires forall id | id in children :: children[id] == WithParent(agents, agents, Some(id))
    ensures SortedLists(children) == KidsTable(agents)
  {
    var lists, table := SortedLists(children), KidsTable(agents);
    forall id ensures (id in lists <==> id in table) && (id in lists ==> lists[id] == table[id]) {
      ListOf(agents, children, id);
    }
    SameTable(lists, table);
  }

  /** The walk from the roots, then every record it missed. */
  ghost predicate IsDisplayed(agents: Agents, lastUsed: map<AgentId, nat>, ordered: Agents) {
    var w := RootWalk(agents, lastUsed);
    exists rest :: IsRest(w, rest) && ordered == w.ordered + rest
  }

  /** Roots and siblings in display order. */
  method Prepare(agents: Agents, lastUsed: map<AgentId, nat>) returns (roots: Agents, table: map<AgentId, Agents>)
    ensures roots == SortedRoots(agents, lastUsed) && table == KidsTable(agents)
  {
    var unsorted, children := Partition(agents);
    roots := SortRoots(unsorted, lastUsed);
    table := SortSiblings(agents, children);
    assert roots == SortedRoots(agents, lastUsed);
  }

  method SortSiblings(agents: Agents, children: map<AgentId, Agents>) returns (table: map<AgentId, Agents>)
    requires forall id :: id in children <==> WithParent(agents, agents, Some(id)) != []
    requires forall id | id in children :: children[id] == WithParent(agents, agents, Some(id))
    ensures table == KidsTable(agents)
  {
    TableOfLists(agents, children);
    table := SortedLists(children);
  }

  /** `sort_agents_by_last_used`. */
  method SortAgentsByLastUsed(agents: Agents, lastUsed: map<AgentId, nat>) returns (ordered: Agents)
    ensures IsDisplayed(agents, lastUsed, ordered)
    ensures DistinctIds(agents) ==> multiset(ordered) == multiset(agents)
  {
    var roots, table := Prepare(agents, lastUsed);
    var flattening := new Flattening(table);
    for i := 0 to |roots|
      invariant AppendAll(roots[i..], flattening.State()) == RootWalk(agents, lastUsed)
    {
      flattening.AppendTree(roots[i]);
      assert roots[i..][1..] == roots[i + 1..];
    }
    flattening.AppendRest();
    ordered := flattening.ordered;
    PermutesIfDistinct(agents, lastUsed, ordered);
  }

  lemma PermutesIfDistinct(agents: Agents, lastUsed: map<AgentId, nat>, ordered: Agents)
    requires IsDisplayed(agents, lastUsed, ordered)
    ensures DistinctIds(agents) ==> multiset(ordered) == multiset(agents)
  {
    if DistinctIds(agents) {
      var w := RootWalk(agents, lastUsed);
      var rest :| IsRest(w, rest) && ordered == w.ordered + rest;
      FlattenPermutes(agents, lastUsed, rest);
    }
  }

  // ---------------------------------------------------------------- any graph

  /** Each input record is listed, waits in the table, or waits in `pending`. */
  ghost predicate Kept(agents: Agents, w: Walk, pending: Agents) {
    forall r | r in agents :: r in w.ordered || r in pending || exists p :: p in w.children && r in w.children[p]
  }

  ghost predicate Proper(agents: Agents, w: Walk) {
    && DistinctIds(w.ordered)
    && w.visited == Ids(w.ordered)
    && (forall r | r in w.ordered :: r in agents)
    && (forall p | p in w.children :: forall r | r in w.children[p] :: r in agents)
  }

  lemma SameId(agents: Agents, a: AgentRecord, b: AgentRecord)
    requires DistinctIds(agents) && a in agents && b in agents && a.id == b.id
    ensures a == b
  {
    var i :| 0 <= i < |agents| && agents[i] == a;
    var j :| 0 <= j < |agents| && agents[j] == b;
  }

  lemma {:induction false} AppendKeeps(agents: Agents, r: AgentRecord, w: Walk, pending: Agents)
    requires DistinctIds(agents) && r in agents && Proper(agents, w) && Kept(agents, w, [r] + pending)
    ensures Proper(agents, Append(r, w)) && Kept(agents, Append(r, w), pending)
    decreases w.children.Keys, 0
  {
    if r.id in w.visited {
      var x :| x in w.ordered && x.id == r.id;
      SameId(agents, x, r);
    } else {
      var next := Walk(w.children - {r.id}, w.visited + {r.id}, w.ordered + [r]);
      assert forall x :: x in next.ordered <==> x in w.ordered || x == r;
      if r.id in w.children {
        var list := w.children[r.id];
        forall x | x in agents
          ensures x in next.ordered || x in list + pending || exists p :: p in next.children && x in next.children[p]
        {
          if x !in w.ordered && x != r && x !in pending {
            var p :| p in w.children && x in w.children[p];
            if p != r.id { assert p in next.children && x in next.children[p]; }
          }
        }
        assert r.id !in next.children.Keys;
        AppendAllKeeps(agents, list, next, pending);
      } else {
        assert next.children == w.children;
      }
    }
  }

  lemma {:induction false} AppendAllKeeps(agents: Agents, list: Agents, w: Walk, pending: Agents)
    requires DistinctIds(agents) && (forall r | r in list :: r in agents)
    requires Proper(agents, w) && Kept(agents, w, list + pending)
    ensures Proper(agents, AppendAll(list, w)) && Kept(agents, AppendAll(list, w), pending)
    decreases w.children.Keys, |list| + 1
  {
    if list == [] {
      assert list + pending == pending;
    } else {
      assert list + pending == [list[0]] + (list[1..] + pending);
      AppendKeeps(agents, list[0], w, list[1..] + pending);
      AppendAllKeeps(agents, list[1..], Append(list[0], w), pending);
    }
  }

  lemma StartKeeps(agents: Agents, lastUsed: map<AgentId, nat>)
    requires DistinctIds(agents)
    ensures Proper(agents, Start(agents)) && Kept(agents, Start(agents), SortedRoots(agents, lastUsed) + [])
  {
    var w := Start(agents);
    forall r | r in agents && r !in SortedRoots(agents, lastUsed)
      ensures exists p :: p in w.children && r in w.children[p]
    {
      var p := ParentOf(agents, r).value;
      assert r in SortedKids(agents, p);
      assert p in w.children && r in w.children[p];
    }
  }

  lemma RootWalkKeeps(agents: Agents, lastUsed: map<AgentId, nat>)
    requires DistinctIds(agents)
    ensures Proper(agents, RootWalk(agents, lastUsed)) && Kept(agents, RootWalk(agents, lastUsed), [])
  {
    StartKeeps(agents, lastUsed);
    AppendAllKeeps(agents, SortedRoots(agents, lastUsed), Start(agents), []);
  }

  lemma {:induction false} DistinctCount(agents: Agents, r: AgentRecord)
    requires DistinctIds(agents)
    ensures multiset(agents)[r] == if r in agents then 1 else 0
    decreases |agents|
  {
    if agents != [] {
      assert agents == [agents[0]] + agents[1..];
      DistinctCount(agents[1..], r);
      if r in agents[1..] {
        var k :| 0 <= k < |agents[1..]| && agents[1..][k] == r;
        assert agents[k + 1] == r;
      }
    }
  }

  lemma DistinctPermutation(a: Agents, b: Agents)
    requires DistinctIds(a) && DistinctIds(b) && forall r :: r in a <==> r in b
    ensures multiset(a) == multiset(b)
  {
    forall r ensures multiset(a)[r] == multiset(b)[r] {
      DistinctCount(a, r);
      DistinctCount(b, r);
    }
  }

  lemma ListedOnce(w: Walk, rest: Agents)
    requires DistinctIds(w.ordered) && w.visited == Ids(w.ordered) && IsRest(w, rest)
    ensures DistinctIds(w.ordered + rest)
  {
    var all := w.ordered + rest;
    forall i, j | 0 <= i < j < |all| ensures all[i].id != all[j].id {
      if i < |w.ordered| <= j {
        assert w.ordered[i] in w.ordered && rest[j - |w.ordered|] in rest;
      }
    }
  }

  lemma ListedAll(agents: Agents, w: Walk, rest: Agents, r: AgentRecord)
    requires DistinctIds(agents) && Proper(agents, w) && Kept(agents, w, []) && IsRest(w, rest)
    ensures r in w.ordered + rest <==> r in agents
  {
    if r in agents && r !in w.ordered {
      var p :| p in w.children && r in w.children[p];
      forall x | x in w.ordered ensures x.id != r.id {
        if x.id == r.id { SameId(agents, x, r); }
      }
      var x :| x in rest && x.id == r.id;
      SameId(agents, x, r);
    }
  }

  /** Flattening lists every record exactly once, whatever the parent links:
      missing parents, self-parents and cycles included. */
  lemma FlattenPermutes(agents: Agents, lastUsed: map<AgentId, nat>, rest: Agents)
    requires DistinctIds(agents) && IsRest(RootWalk(agents, lastUsed), rest)
    ensures multiset(RootWalk(agents, lastUsed).ordered + rest) == multiset(agents)
  {
    var w := RootWalk(agents, lastUsed);
    RootWalkKeeps(agents, lastUsed);
    ListedOnce(w, rest);
    forall r ensures r in w.ordered + rest <==> r in agents { ListedAll(agents, w, rest, r); }
    DistinctPermutation(w.ordered + rest, agents);
  }

  // ---------------------------------------------------------------- acyclic links

  /** Every record stands strictly below its parent, and everything below `top`. */
  ghost predicate Acyclic(agents: Agents, height: AgentId -> nat, top: nat) {
    && DistinctIds(agents)
    && (forall r | r in agents :: height(r.id) < top)
    && (forall r | r in agents && ParentOf(agents, r).Some? :: height(r.id) < height(ParentOf(agents, r).value))
  }

  /** Depth-first order: each record, directly followed by the subtrees of its
      children in sibling order. */
  ghost function Preorder(agents: Agents, list: Agents, height: AgentId -> nat, bound: nat): Agents
    requires exists top :: Acyclic(agents, height, top)
    requires forall r | r in list :: r in agents && height(r.id) < bound
    decreases bound, |list|
  {
    if list == [] then []
    else
      [list[0]] + Preorder(agents, SortedKids(agents, list[0].id), height, height(list[0].id))
      + Preorder(agents, list[1..], height, bound)
  }

  /** `x` is the record `z` or one of its ancestors. */
  ghost predicate Under(agents: Agents, height: AgentId -> nat, top: nat, z: AgentRecord, x: AgentRecord)
    requires Acyclic(agents, height, top) && z in agents
    decreases top - height(z.id)
  {
    z == x || (ParentOf(agents, z).Some?
        && Under(agents, height, top, RecordOf(agents, ParentOf(agents, z).value).value, x))
  }

  lemma {:induction false} UnderIsLower(
    agents: Agents, height: AgentId -> nat, top: nat, z: AgentRecord, x: AgentRecord)
    requires Acyclic(agents, height, top) && z in agents && Under(agents, height, top, z, x)
    ensures height(z.id) <= height(x.id)
    decreases top - height(z.id)
  {
    if z != x { UnderIsLower(agents, height, top, RecordOf(agents, ParentOf(agents, z).value).value, x); }
  }

  lemma {:induction false} UnderParent(
    agents: Agents, height: AgentId -> nat, top: nat, z: AgentRecord, x: AgentRecord, y: AgentRecord)
    requires Acyclic(agents, height, top) && z in agents && x in agents && y in agents
    requires Under(agents, height, top, z, x) && ParentOf(agents, x) == Some(y.id)
    ensures Under(agents, height, top, z, y)
    decreases top - height(z.id)
  {
    if z == x {
      SameId(agents, RecordOf(agents, y.id).value, y);
    } else {
      UnderParent(agents, height, top, RecordOf(agents, ParentOf(agents, z).value).value, x, y);
    }
  }

  /** Siblings share no descendant. */
  lemma {:induction false} OneSibling(
    agents: Agents, height: AgentId -> nat, top: nat, z: AgentRecord, x: AgentRecord, y: AgentRecord)
    requires Acyclic(agents, height, top) && z in agents && x in agents && y in agents
    requires Under(agents, height, top, z, x) && Under(agents, height, top, z, y)
    requires ParentOf(agents, x) == ParentOf(agents, y)
    ensures x == y
    decreases top - height(z.id)
  {
    if z != x && z != y {
      OneSibling(agents, height, top, RecordOf(agents, ParentOf(agents, z).value).value, x, y);
    } else if z == x && z != y {
      UnderIsLower(agents, height, top, RecordOf(agents, ParentOf(agents, z).value).value, y);
    } else if z == y && z != x {
      UnderIsLower(agents, height, top, RecordOf(agents, ParentOf(agents, z).value).value, x);
    }
  }

  lemma {:induction false} PreorderIsUnder(
    agents: Agents, list: Agents, height: AgentId -> nat, bound: nat, top: nat, z: AgentRecord)
    requires Acyclic(agents, height, top) && (forall r | r in list :: r in agents && height(r.id) < bound)
    requires z in Preorder(agents, list, height, bound)
    ensures z in agents && exists x :: x in list && Under(agents, height, top, z, x)
    decreases bound, |list|
  {
    var r := list[0];
    var kids := SortedKids(agents, r.id);
    if z == r {
      assert Under(agents, height, top, z, r);
    } else if z in Preorder(agents, kids, height, height(r.id)) {
      PreorderIsUnder(agents, kids, height, height(r.id), top, z);
      var x :| x in kids && Under(agents, height, top, z, x);
      UnderParent(agents, height, top, z, x, r);
    } else {
      PreorderIsUnder(agents, list[1..], height, bound, top, z);
    }
  }

  /** The lists the walk follows: distinct records under one parent, or roots. */
  ghost predicate Siblings(agents: Agents, list: Agents, parent: Option<AgentId>) {
    DistinctIds(list) && forall r | r in list :: r in agents && ParentOf(agents, r) == parent
  }

  lemma {:induction false} PreorderIsDistinct(
    agents: Agents, list: Agents, height: AgentId -> nat, bound: nat, top: nat, parent: Option<AgentId>)
    requires Acyclic(agents, height, top) && (forall r | r in list :: r in agents && height(r.id) < bound)
    requires Siblings(agents, list, parent)
    ensures DistinctIds(Preorder(agents, list, height, bound))
    decreases bound, |list|
  {
    if list != [] {
      var r, rest := list[0], list[1..];
      var kids := SortedKids(agents, r.id);
      var below, after := Preorder(agents, kids, height, height(r.id)), Preorder(agents, rest, height, bound);
      SortedIsDistinct(agents, Some(r.id));
      PreorderIsDistinct(agents, kids, height, height(r.id), top, Some(r.id));
      PreorderIsDistinct(agents, rest, height, bound, top, parent);
      BelowIsUnder(agents, r, height, top);
      ConcatDistinct([r], below);
      forall y | y in after ensures y.id !in Ids([r] + below) {
        PreorderIsUnder(agents, rest, height, bound, top, y);
        var x :| x in rest && Under(agents, height, top, y, x);
        forall z | z in [r] + below ensures z.id != y.id {
          if z.id == y.id {
            SameId(agents, z, y);
            OneSibling(agents, height, top, y, r, x);
          }
        }
      }
      ConcatDistinct([r] + below, after);
    }
  }

  lemma BelowIsUnder(agents: Agents, r: AgentRecord, height: AgentId -> nat, top: nat)
    requires Acyclic(agents, height, top) && r in agents
    ensures forall z | z in Preorder(agents, SortedKids(agents, r.id), height, height(r.id)) ::
      z in agents && z.id != r.id && Under(agents, height, top, z, r)
    ensures Under(agents, height, top, r, r)
  {
    var kids := SortedKids(agents, r.id);
    forall z | z in Preorder(agents, kids, height, height(r.id))
      ensures z in agents && z.id != r.id && Under(agents, height, top, z, r)
    {
      PreorderIsUnder(agents, kids, height, height(r.id), top, z);
      var x :| x in kids && Under(agents, height, top, z, x);
      UnderIsLower(agents, height, top, z, x);
      UnderParent(agents, height, top, z, x, r);
    }
  }

  lemma ConcatDistinct(a: Agents, b: Agents)
    requires DistinctIds(a) && DistinctIds(b) && forall r | r in b :: r.id !in Ids(a)
    ensures DistinctIds(a + b)
  {
    forall i, j | 0 <= i < j < |a + b| ensures (a + b)[i].id != (a + b)[j].id {
      if i < |a| <= j { assert a[i] in a && b[j - |a|] in b; }
    }
  }

  lemma SortedIsDistinct(agents: Agents, parent: Option<AgentId>)
    requires DistinctIds(agents)
    ensures parent.Some? ==> Siblings(agents, SortedKids(agents, parent.value), parent)
    ensures forall lastUsed :: parent.None? ==> Siblings(agents, SortedRoots(agents, lastUsed), parent)
  {
    FilterIsDistinct(agents, agents, parent);
    var filtered := WithParent(agents, agents, parent);
    if parent.Some? { PermutedIsDistinct(filtered, SortedKids(agents, parent.value)); }
    else {
      forall lastUsed ensures Siblings(agents, SortedRoots(agents, lastUsed), parent) {
        PermutedIsDistinct(filtered, SortedRoots(agents, lastUsed));
      }
    }
  }

  lemma {:induction false} FilterIsDistinct(agents: Agents, all: Agents, parent: Option<AgentId>)
    requires DistinctIds(agents)
    ensures DistinctIds(WithParent(agents, all, parent))
    decreases |agents|
  {
    if agents != [] {
      var n := |agents| - 1;
      FilterIsDistinct(agents[..n], all, parent);
      var before := WithParent(agents[..n], all, parent);
      forall i | 0 <= i < |before| ensures before[i].id != agents[n].id { assert before[i] in agents[..n]; }
    }
  }

  lemma PermutedIsDistinct(a: Agents, b: Agents)
    requires DistinctIds(a) && multiset(a) == multiset(b)
    ensures DistinctIds(b)
  {
    forall i, j | 0 <= i < j < |b| ensures b[i].id != b[j].id {
      assert b[i] in multiset(b) && b[j] in multiset(b);
      if b[i].id == b[j].id {
        SameId(a, b[i], b[j]);
        DistinctCount(a, b[i]);
        TwiceCounted(b, i, j);
      }
    }
  }

  lemma TwiceCounted(b: Agents, i: nat, j: nat)
    requires i < j < |b| && b[i] == b[j]
    ensures multiset(b)[b[i]] >= 2
  {
    assert b == b[..i] + [b[i]] + b[i + 1..j] + [b[j]] + b[j + 1..];
  }

  lemma IdsOfConcat(a: Agents, b: Agents)
    ensures Ids(a + b) == Ids(a) + Ids(b)
  {
    forall x | x in a + b ensures x in a || x in b { }
    forall x | x in a || x in b ensures x in a + b { }
  }

  /** The walk that has followed `order` after `w`. */
  ghost function Followed(agents: Agents, w: Walk, order: Agents): Walk {
    Walk(KidsTable(agents) - (w.visited + Ids(order)), w.visited + Ids(order), w.ordered + order)
  }

  lemma FollowedTwice(agents: Agents, w: Walk, a: Agents, b: Agents)
    ensures Followed(agents, Followed(agents, w, a), b) == Followed(agents, w, a + b)
  {
    IdsOfConcat(a, b);
    assert w.visited + Ids(a) + Ids(b) == w.visited + Ids(a + b);
    assert w.ordered + a + b == w.ordered + (a + b);
  }

  /** The walk right after listing a fresh record. */
  lemma FollowedOne(agents: Agents, r: AgentRecord, w: Walk)
    requires w.children == KidsTable(agents) - w.visited
    ensures Followed(agents, w, [r]) == Walk(w.children - {r.id}, w.visited + {r.id}, w.ordered + [r])
  {
    assert Ids([r]) == {r.id};
    WithoutBoth(KidsTable(agents), w.visited, r.id);
  }

  lemma WithoutBoth(table: map<AgentId, Agents>, visited: set<AgentId>, id: AgentId)
    ensures table - (visited + {id}) == table - visited - {id}
  {
  }

  lemma KidsTableAt(agents: Agents, r: AgentRecord)
    requires r in agents
    ensures r.id in KidsTable(agents) <==> SortedKids(agents, r.id) != []
    ensures r.id in KidsTable(agents) ==> KidsTable(agents)[r.id] == SortedKids(agents, r.id)
  {
    assert r.id in Ids(agents);
  }

  /** A fresh record is listed, then its children are followed. */
  lemma AppendFollowsKids(agents: Agents, r: AgentRecord, w: Walk)
    requires r in agents && r.id !in w.visited && w.children == KidsTable(agents) - w.visited
    ensures Append(r, w) == AppendAll(SortedKids(agents, r.id), Followed(agents, w, [r]))
  {
    FollowedOne(agents, r, w);
    KidsTableAt(agents, r);
    var next := Walk(w.children - {r.id}, w.visited + {r.id}, w.ordered + [r]);
    if r.id in KidsTable(agents) {
      assert r.id in w.children && w.children[r.id] == SortedKids(agents, r.id);
      assert Append(r, w) == AppendAll(w.children[r.id], next);
    } else {
      assert Append(r, w) == next;
    }
  }

  lemma FollowedChildren(agents: Agents, w: Walk, order: Agents)
    ensures var v := Followed(agents, w, order); v.children == KidsTable(agents) - v.visited
  {
  }

  lemma AppendAllStep(list: Agents, w: Walk)
    requires list != []
    ensures AppendAll(list, w) == AppendAll(list[1..], Append(list[0], w))
  {
  }

  lemma FollowedNothing(agents: Agents, w: Walk)
    requires w.children == KidsTable(agents) - w.visited
    ensures Followed(agents, w, []) == w
  {
    assert w.ordered + [] == w.ordered;
    assert Ids([]) == {};
    assert w.visited + {} == w.visited;
  }

  /** On a fresh part of an acyclic forest the walk appends exactly the preorder. */
  lemma {:induction false} WalkIsPreorder(
    agents: Agents, list: Agents, w: Walk, height: AgentId -> nat, bound: nat, top: nat)
    requires Acyclic(agents, height, top) && (forall r | r in list :: r in agents && height(r.id) < bound)
    requires w.children == KidsTable(agents) - w.visited
    requires DistinctIds(Preorder(agents, list, height, bound))
      && Ids(Preorder(agents, list, height, bound)) !! w.visited
    ensures AppendAll(list, w) == Followed(agents, w, Preorder(agents, list, height, bound))
    decreases bound, |list|, 1
  {
    if list == [] {
      FollowedNothing(agents, w);
    } else {
      var r, rest := list[0], list[1..];
      var below, after := Preorder(agents, SortedKids(agents, r.id), height, height(r.id)),
          Preorder(agents, rest, height, bound);
      PreorderParts(agents, list, height, bound, top, w.visited);
      TreeIsPreorder(agents, list, w, height, bound, top);
      AppendAllStep(list, w);
      FollowedChildren(agents, w, [r] + below);
      WalkIsPreorder(agents, rest, Followed(agents, w, [r] + below), height, bound, top);
      FollowedTwice(agents, w, [r] + below, after);
      assert Preorder(agents, list, height, bound) == [r] + below + after;
    }
  }

  /** The subtree of the first record is appended in preorder. */
  lemma {:induction false} TreeIsPreorder(
    agents: Agents, list: Agents, w: Walk, height: AgentId -> nat, bound: nat, top: nat)
    requires Acyclic(agents, height, top) && list != [] && (forall r | r in list :: r in agents && height(r.id) < bound)
    requires w.children == KidsTable(agents) - w.visited
    requires DistinctIds(Preorder(agents, list, height, bound))
      && Ids(Preorder(agents, list, height, bound)) !! w.visited
    ensures var r := list[0];
      Append(r, w) == Followed(agents, w, [r] + Preorder(agents, SortedKids(agents, r.id), height, height(r.id)))
    decreases bound, |list|, 0
  {
    var r := list[0];
    var kids := SortedKids(agents, r.id);
    PreorderParts(agents, list, height, bound, top, w.visited);
    AppendFollowsKids(agents, r, w);
    FollowedOne(agents, r, w);
    FollowedChildren(agents, w, [r]);
    WalkIsPreorder(agents, kids, Followed(agents, w, [r]), height, height(r.id), top);
    FollowedTwice(agents, w, [r], Preorder(agents, kids, height, height(r.id)));
  }

  lemma PreorderParts(agents: Agents, list: Agents, height: AgentId -> nat, bound: nat, top: nat, visited: set<AgentId>)
    requires Acyclic(agents, height, top) && list != [] && (forall r | r in list :: r in agents && height(r.id) < bound)
    requires DistinctIds(Preorder(agents, list, height, bound)) && Ids(Preorder(agents, list, height, bound)) !! visited
    ensures var r := list[0];
      var below := Preorder(agents, SortedKids(agents, r.id), height, height(r.id));
      var after := Preorder(agents, list[1..], height, bound);
      && r.id !in visited
      && DistinctIds(below) && Ids(below) !! (visited + {r.id})
      && DistinctIds(after) && Ids(after) !! (visited + Ids([r] + below))
  {
    var r := list[0];
    var below := Preorder(agents, SortedKids(agents, r.id), height, height(r.id));
    var after := Preorder(agents, list[1..], height, bound);
    DistinctParts([r] + below, after, visited);
    DistinctParts([r], below, visited);
    assert r in [r];
  }

  lemma DistinctParts(a: Agents, b: Agents, visited: set<AgentId>)
    requires DistinctIds(a + b) && Ids(a + b) !! visited
    ensures DistinctIds(a) && DistinctIds(b) && Ids(a) !! visited && Ids(b) !! (visited + Ids(a))
  {
    var s := a + b;
    forall i, j | 0 <= i < j < |b| ensures b[i].id != b[j].id { assert s[|a| + i] == b[i] && s[|a| + j] == b[j]; }
    forall i, j | 0 <= i < j < |a| ensures a[i].id != a[j].id { assert s[i] == a[i] && s[j] == a[j]; }
    forall x, y | x in a && y in b ensures x.id != y.id {
      var i :| 0 <= i < |a| && a[i] == x;
      var j :| 0 <= j < |b| && b[j] == y;
      assert s[i] == x && s[|a| + j] == y;
    }
    forall x | x in a ensures x in s { }
    forall x | x in b ensures x in s { }
  }

  lemma {:induction false} ListIsInPreorder(
    agents: Agents, list: Agents, height: AgentId -> nat, bound: nat, top: nat, x: AgentRecord)
    requires Acyclic(agents, height, top) && (forall r | r in list :: r in agents && height(r.id) < bound) && x in list
    ensures x in Preorder(agents, list, height, bound)
    decreases |list|
  {
    if x != list[0] { ListIsInPreorder(agents, list[1..], height, bound, top, x); }
  }

  lemma {:induction false} KidsAreInPreorder(
    agents: Agents, list: Agents, height: AgentId -> nat, bound: nat, top: nat, x: AgentRecord, kid: AgentRecord)
    requires Acyclic(agents, height, top) && (forall r | r in list :: r in agents && height(r.id) < bound)
    requires x in Preorder(agents, list, height, bound) && kid in SortedKids(agents, x.id)
    ensures kid in Preorder(agents, list, height, bound)
    decreases bound, |list|
  {
    var r := list[0];
    var kids := SortedKids(agents, r.id);
    if x == r {
      ListIsInPreorder(agents, kids, height, height(r.id), top, kid);
    } else if x in Preorder(agents, kids, height, height(r.id)) {
      KidsAreInPreorder(agents, kids, height, height(r.id), top, x, kid);
    } else {
      KidsAreInPreorder(agents, list[1..], height, bound, top, x, kid);
    }
  }

  lemma {:induction false} AllAreInPreorder(
    agents: Agents, roots: Agents, height: AgentId -> nat, top: nat, x: AgentRecord)
    requires Acyclic(agents, height, top) && x in agents
    requires forall r :: r in roots <==> r in agents && ParentOf(agents, r).None?
    ensures x in Preorder(agents, roots, height, top)
    decreases top - height(x.id)
  {
    if ParentOf(agents, x).None? {
      ListIsInPreorder(agents, roots, height, top, top, x);
    } else {
      var parent := RecordOf(agents, ParentOf(agents, x).value).value;
      AllAreInPreorder(agents, roots, height, top, parent);
      KidsAreInPreorder(agents, roots, height, top, top, parent, x);
    }
  }

  /** On acyclic links flattening is the preorder of the sorted forest: roots in
      display order, siblings in theirs, every subtree contiguous, nothing left over. */
  lemma FlattenIsPreorder(agents: Agents, lastUsed: map<AgentId, nat>, height: AgentId -> nat, top: nat, rest: Agents)
    requires Acyclic(agents, height, top) && IsRest(RootWalk(agents, lastUsed), rest)
    ensures var roots := SortedRoots(agents, lastUsed);
      && RootWalk(agents, lastUsed).ordered + rest == Preorder(agents, roots, height, top)
      && Sorted(roots, (a, b) => SortAgent(a, b, lastUsed))
      && forall id :: Sorted(SortedKids(agents, id), SortSubagent)
    ensures forall r :: r in SortedRoots(agents, lastUsed) <==> r in agents && IsTop(agents, r)
    ensures forall id, r :: r in SortedKids(agents, id) <==>
      r in agents && id in Ids(agents) && r.subagent.Some? && r.subagent.value.parentId == id
  {
    RootWalkIsPreorder(agents, lastUsed, height, top);
    NothingLeft(agents, SortedRoots(agents, lastUsed), lastUsed, height, top, rest);
    SiblingsAreSorted(agents, lastUsed);
  }

  /** The record is no subagent, or its parent is not listed. */
  ghost predicate IsTop(agents: Agents, r: AgentRecord) {
    r.subagent.Some? ==> forall p | p in agents :: p.id != r.subagent.value.parentId
  }

  lemma RootWalkIsPreorder(agents: Agents, lastUsed: map<AgentId, nat>, height: AgentId -> nat, top: nat)
    requires Acyclic(agents, height, top)
    ensures var w, order := RootWalk(agents, lastUsed), Preorder(agents, SortedRoots(agents, lastUsed), height, top);
      w.ordered == order && w.visited == Ids(order)
  {
    var roots := SortedRoots(agents, lastUsed);
    SortedIsDistinct(agents, None);
    PreorderIsDistinct(agents, roots, height, top, top, None);
    FollowedFromStart(agents, Preorder(agents, roots, height, top));
    WalkIsPreorder(agents, roots, Start(agents), height, top, top);
  }

  lemma FollowedFromStart(agents: Agents, order: Agents)
    ensures Start(agents).children == KidsTable(agents) - Start(agents).visited
    ensures var v := Followed(agents, Start(agents), order); v.ordered == order && v.visited == Ids(order)
  {
    assert [] + order == order;
  }

  lemma NothingLeft(
    agents: Agents, roots: Agents, lastUsed: map<AgentId, nat>, height: AgentId -> nat, top: nat, rest: Agents)
    requires Acyclic(agents, height, top) && IsRest(RootWalk(agents, lastUsed), rest)
    requires roots == SortedRoots(agents, lastUsed)
    requires RootWalk(agents, lastUsed).visited == Ids(Preorder(agents, roots, height, top))
    ensures rest == []
  {
    RootWalkKeeps(agents, lastUsed);
    if rest != [] {
      assert rest[0] in rest && rest[0] in agents;
      AllAreInPreorder(agents, roots, height, top, rest[0]);
    }
  }

  lemma SiblingsAreSorted(agents: Agents, lastUsed: map<AgentId, nat>)
    ensures Sorted(SortedRoots(agents, lastUsed), (a, b) => SortAgent(a, b, lastUsed))
    ensures forall id :: Sorted(SortedKids(agents, id), SortSubagent)
  {
    forall a, b, c
      ensures Coherent(SortAgent(a, b, lastUsed), SortAgent(b, a, lastUsed), SortAgent(b, c, lastUsed),
        SortAgent(a, c, lastUsed))
    {
      SortAgentCoherent(a, b, c, lastUsed);
    }
    forall a, b, c ensures Coherent(SortSubagent(a, b), SortSubagent(b, a), SortSubagent(b, c), SortSubagent(a, c)) {
      SortSubagentCoherent(a, b, c);
    }
    StableSortSorts(WithParent(agents, agents, None), (a, b) => SortAgent(a, b, lastUsed));
    forall id ensures Sorted(SortedKids(agents, id), SortSubagent) {
      StableSortSorts(WithParent(agents, agents, Some(id)), SortSubagent);
    }
  }

  // ---------------------------------------------------------------- no cycles

  function ParentTable(agents: Agents): map<AgentId, AgentId> {
    map id | id in Ids(agents) && ParentOf(agents, RecordOf(agents, id).value).Some? ::
      ParentOf(agents, RecordOf(agents, id).value).value
  }

  /** No record is reached from itself by parent links. */
  ghost predicate NoCycles(agents: Agents) {
    forall id, k: nat | k > 0 :: Up(ParentTable(agents), id, k) != Some(id)
  }

  lemma ParentInTable(agents: Agents, r: AgentRecord)
    requires DistinctIds(agents) && r in agents
    ensures r.id in ParentTable(agents) <==> ParentOf(agents, r).Some?
    ensures r.id in ParentTable(agents) ==> ParentTable(agents)[r.id] == ParentOf(agents, r).value
  {
    SameId(agents, RecordOf(agents, r.id).value, r);
  }

  /** The listed records at or below an ID. */
  ghost function Below(agents: Agents, id: AgentId): set<AgentId> {
    set x | x in Ids(agents) && Reaches(agents, x, id)
  }

  ghost predicate Reaches(agents: Agents, x: AgentId, id: AgentId) {
    exists k: nat :: Up(ParentTable(agents), x, k) == Some(id)
  }

  lemma Smaller(a: set<AgentId>, b: set<AgentId>, x: AgentId)
    requires a <= b && x in b && x !in a
    ensures |a| < |b|
  {
    assert b == a + (b - a) && x in b - a;
  }

  lemma FewerBelowChild(agents: Agents, r: AgentRecord)
    requires DistinctIds(agents) && NoCycles(agents) && r in agents && ParentOf(agents, r).Some?
    ensures |Below(agents, r.id)| < |Below(agents, ParentOf(agents, r).value)|
  {
    var table, p := ParentTable(agents), ParentOf(agents, r).value;
    ParentInTable(agents, r);
    forall x | x in Below(agents, r.id) ensures x in Below(agents, p) {
      var k: nat :| Up(table, x, k) == Some(r.id);
      assert Up(table, x, k + 1) == Some(p);
    }
    assert Up(table, p, 0) == Some(p);
    forall k: nat ensures Up(table, p, k) != Some(r.id) { assert Up(table, p, k + 1) != Some(p); }
    Smaller(Below(agents, r.id), Below(agents, p), p);
  }

  lemma {:induction false} UpClimbs(agents: Agents, height: AgentId -> nat, top: nat, id: AgentId, k: nat)
    requires Acyclic(agents, height, top) && k > 0 && Up(ParentTable(agents), id, k).Some?
    ensures height(id) < height(Up(ParentTable(agents), id, k).value)
  {
    var below := Up(ParentTable(agents), id, k - 1).value;
    if k > 1 { UpClimbs(agents, height, top, id, k - 1); }
    var r := RecordOf(agents, below).value;
    ParentInTable(agents, r);
  }

  lemma HeightsWithoutCycles(agents: Agents) returns (height: AgentId -> nat, top: nat)
    requires DistinctIds(agents) && NoCycles(agents)
    ensures Acyclic(agents, height, top)
  {
    height, top := (id: AgentId) => |Below(agents, id)|, |Ids(agents)| + 1;
    forall r | r in agents ensures height(r.id) < top { NoMore(Below(agents, r.id), Ids(agents)); }
    forall r | r in agents && ParentOf(agents, r).Some? ensures height(r.id) < height(ParentOf(agents, r).value) {
      FewerBelowChild(agents, r);
    }
  }

  lemma NoMore(a: set<AgentId>, b: set<AgentId>)
    requires a <= b
    ensures |a| <= |b|
  {
    assert b == a + (b - a);
  }

  /** Heights exist exactly when no record is above itself. */
  lemma AcyclicMeansNoCycles(agents: Agents)
    requires DistinctIds(agents)
    ensures NoCycles(agents) <==> exists height: AgentId -> nat, top: nat :: Acyclic(agents, height, top)
  {
    if NoCycles(agents) { var height, top := HeightsWithoutCycles(agents); }
    forall height: AgentId -> nat, top: nat, id, k: nat | Acyclic(agents, height, top) && k > 0
      ensures Up(ParentTable(agents), id, k) != Some(id)
    {
      if Up(ParentTable(agents), id, k).Some? { UpClimbs(agents, height, top, id, k); }
    }
  }
}
