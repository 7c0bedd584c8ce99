/** The comparisons that order agents for display (`sort_agent`,
    `sort_subagent` of src/model.rs). */
module Ordering {
  import opened AgentModel
  import opened Sorting

  function CompareStrings(a: string, b: string): Order {
    if a == "" then if b == "" then Equal else Less
    else if b == "" then Greater
    else if a[0] != b[0] then CompareInts(a[0] as int, b[0] as int)
    else CompareStrings(a[1..], b[1..])
  }

  function Rank(a: Attention): nat {
    match a case Blocked => 0 case Done => 1 case Working => 2 case Idle => 3 case Unknown => 4
  }

  function IdleRecency(r: AgentRecord, lastUsed: map<AgentId, nat>): nat {
    var used := if r.id in lastUsed then lastUsed[r.id] else 0;
    if r.changedAt > used then r.changedAt else used
  }

  function SortAgent(a: AgentRecord, b: AgentRecord, lastUsed: map<AgentId, nat>): Order {
    Then(CompareInts(Rank(a.attention), Rank(b.attention)),
    Then(if a.attention.Idle? && b.attention.Idle?
         then CompareInts(IdleRecency(b, lastUsed), IdleRecency(a, lastUsed)) else Equal,
    Then(CompareStrings(a.place.host, b.place.host),
    Then(CompareStrings(a.route.sessionName, b.route.sessionName),
    Then(CompareInts(a.place.windowIndex, b.place.windowIndex),
         CompareInts(a.place.paneIndex, b.place.paneIndex))))))
  }

  function Render(id: AgentId): string {
    match id
    case LocalId(name) => name
    case RemoteId(alias, inner) => "remote/" + alias + "/" + Render(inner)
  }

  /** Running children first, then by start, then by ID.  None sorts before any start. */
  function SortSubagent(a: AgentRecord, b: AgentRecord): Order {
    Then(CompareInts(Finished(a), Finished(b)),
    Then(CompareInts(Started(a), Started(b)),
         CompareStrings(Render(a.id), Render(b.id))))
  }

  function Finished(r: AgentRecord): int {
    if r.subagent.Some? && r.subagent.value.finishedAt.Some? then 1 else 0
  }

  function Started(r: AgentRecord): int {
    if r.subagent.Some? then r.subagent.value.startedAt else -1
  }

  // ---------------------------------------------------------------- total preorders

  lemma {:induction false} StringsFlip(a: string, b: string)
    ensures CompareStrings(b, a) == Flip(CompareStrings(a, b))
  {
    if a != "" && b != "" { StringsFlip(a[1..], b[1..]); }
  }

  lemma {:induction false} StringsCoherent(a: string, b: string, c: string)
    ensures Coherent(CompareStrings(a, b), CompareStrings(b, a), CompareStrings(b, c), CompareStrings(a, c))
  {
    StringsFlip(a, b);
    if a != "" && b != "" && c != "" { StringsCoherent(a[1..], b[1..], c[1..]); }
  }

  /** Recency counts among idle agents only. */
  function RecencyKey(r: AgentRecord, lastUsed: map<AgentId, nat>): int {
    if r.attention.Idle? then -(IdleRecency(r, lastUsed) as int) else 0
  }

  function PlaceOrder(a: AgentRecord, b: AgentRecord): Order {
    Then(CompareStrings(a.place.host, b.place.host),
    Then(CompareStrings(a.route.sessionName, b.route.sessionName),
    Then(CompareInts(a.place.windowIndex, b.place.windowIndex),
         CompareInts(a.place.paneIndex, b.place.paneIndex))))
  }

  lemma PlaceCoherent(a: AgentRecord, b: AgentRecord, c: AgentRecord)
    ensures Coherent(PlaceOrder(a, b), PlaceOrder(b, a), PlaceOrder(b, c), PlaceOrder(a, c))
  {
    StringsCoherent(a.place.host, b.place.host, c.place.host);
    StringsCoherent(a.route.sessionName, b.route.sessionName, c.route.sessionName);
  }

  lemma SortAgentByKey(a: AgentRecord, b: AgentRecord, lastUsed: map<AgentId, nat>)
    ensures SortAgent(a, b, lastUsed)
            == Then(CompareInts(Rank(a.attention), Rank(b.attention)),
               Then(CompareInts(RecencyKey(a, lastUsed), RecencyKey(b, lastUsed)), PlaceOrder(a, b)))
  {
  }

  lemma SortAgentCoherent(a: AgentRecord, b: AgentRecord, c: AgentRecord, lastUsed: map<AgentId, nat>)
    ensures Coherent(SortAgent(a, b, lastUsed), SortAgent(b, a, lastUsed), SortAgent(b, c, lastUsed),
      SortAgent(a, c, lastUsed))
  {
    SortAgentByKey(a, b, lastUsed);
    SortAgentByKey(b, a, lastUsed);
    SortAgentByKey(b, c, lastUsed);
    SortAgentByKey(a, c, lastUsed);
    PlaceCoherent(a, b, c);
  }

  lemma SortSubagentCoherent(a: AgentRecord, b: AgentRecord, c: AgentRecord)
    ensures Coherent(SortSubagent(a, b), SortSubagent(b, a), SortSubagent(b, c), SortSubagent(a, c))
  {
    StringsCoherent(Render(a.id), Render(b.id), Render(c.id));
  }

  /** What users see: blocked agents first, then finished, working and idle ones,
      and the idle ones by how recently they were used or changed. */
  lemma SortedIsByUrgency(agents: seq<AgentRecord>, lastUsed: map<AgentId, nat>, i: nat, j: nat)
    requires i < j < |agents| && Sorted(agents, (a, b) => SortAgent(a, b, lastUsed))
    ensures agents[i].attention == agents[j].attention || agents[j].attention.Unknown? || agents[i].attention.Blocked?
            || (agents[j].attention.Idle? && !agents[i].attention.Unknown?)
            || (agents[i].attention.Done? && agents[j].attention.Working?)
    ensures agents[i].attention == agents[j].attention == Attention.Idle ==>
      ActiveSince(agents[i], agents[j].changedAt, lastUsed)
      && ActiveSince(agents[i], UsedAt(agents[j], lastUsed), lastUsed)
  {
    var order := (a, b) => SortAgent(a, b, lastUsed);
    assert !order(agents[i], agents[j]).Greater?;
  }

  function UsedAt(r: AgentRecord, lastUsed: map<AgentId, nat>): nat {
    if r.id in lastUsed then lastUsed[r.id] else 0
  }

  /** The agent changed or was used at this time or later. */
  predicate ActiveSince(r: AgentRecord, time: nat, lastUsed: map<AgentId, nat>) {
    r.changedAt >= time || UsedAt(r, lastUsed) >= time
  }

  /** The strings first differ at `k`, where the first one ends or is smaller. */
  predicate DiffersAt(a: string, b: string, k: nat) {
    && k <= |a| && k < |b| && a[..k] == b[..k]
    && (k == |a| || a[k] < b[k])
  }

  /** Comparing strings is comparing them character by character. */
  lemma {:induction false} StringsMeans(a: string, b: string) returns (k: nat)
    ensures CompareStrings(a, b).Equal? <==> a == b
    ensures CompareStrings(a, b).Less? ==> DiffersAt(a, b, k)
    ensures CompareStrings(a, b).Greater? ==> DiffersAt(b, a, k)
  {
    k := 0;
    if a != "" && b != "" && a[0] == b[0] {
      var m := StringsMeans(a[1..], b[1..]);
      k := m + 1;
      assert a == [a[0]] + a[1..] && b == [b[0]] + b[1..];
    }
  }

  /** Strings are compared this way and no other. */
  lemma DiffersOneWay(a: string, b: string, k: nat, m: nat)
    requires DiffersAt(a, b, k)
    ensures !DiffersAt(b, a, m)
  {
    if k < m && m <= |a| && m <= |b| { assert b[..m][k] == b[k] && a[..m][k] == a[k]; }
    if m < k { assert a[..k][m] == a[m] && b[..k][m] == b[m]; }
  }

  ghost predicate Before(a: string, b: string) { exists k: nat :: DiffersAt(a, b, k) }

  lemma NotBefore(a: string, b: string)
    requires !CompareStrings(a, b).Greater?
    ensures !Before(b, a) && (a == b <==> CompareStrings(a, b).Equal?)
  {
    var k := StringsMeans(a, b);
    if a != b {
      forall m: nat ensures !DiffersAt(b, a, m) { DiffersOneWay(a, b, k, m); }
    }
  }

  /** Agents of equal urgency are listed by host, session, window and pane. */
  lemma TiesByPlace(agents: seq<AgentRecord>, lastUsed: map<AgentId, nat>, i: nat, j: nat)
    requires i < j < |agents| && Sorted(agents, (a, b) => SortAgent(a, b, lastUsed))
    requires agents[i].attention == agents[j].attention
    requires agents[i].attention.Idle? ==>
      agents[i].changedAt == agents[j].changedAt && UsedAt(agents[i], lastUsed) == UsedAt(agents[j], lastUsed)
    ensures var a, b := agents[i], agents[j];
      && !Before(b.place.host, a.place.host)
      && (a.place.host == b.place.host ==> !Before(b.route.sessionName, a.route.sessionName))
      && (a.place.host == b.place.host && a.route.sessionName == b.route.sessionName ==>
            a.place.windowIndex <= b.place.windowIndex
            && (a.place.windowIndex == b.place.windowIndex ==> a.place.paneIndex <= b.place.paneIndex))
  {
    var order := (a, b) => SortAgent(a, b, lastUsed);
    assert !order(agents[i], agents[j]).Greater?;
    NotBefore(agents[i].place.host, agents[j].place.host);
    if agents[i].place.host == agents[j].place.host {
      NotBefore(agents[i].route.sessionName, agents[j].route.sessionName);
    }
  }

  /** Siblings still running come before finished ones, each by start time. */
  lemma SiblingsRunningFirst(agents: seq<AgentRecord>, i: nat, j: nat)
    requires i < j < |agents| && Sorted(agents, SortSubagent)
    requires agents[i].subagent.Some? && agents[j].subagent.Some?
    ensures var a, b := agents[i].subagent.value, agents[j].subagent.value;
      && (a.finishedAt.Some? ==> b.finishedAt.Some?)
      && (a.finishedAt.Some? == b.finishedAt.Some? ==> a.startedAt <= b.startedAt)
      && (a.finishedAt.Some? == b.finishedAt.Some? && a.startedAt == b.startedAt ==>
            !Before(Render(agents[j].id), Render(agents[i].id)))
  {
    assert !SortSubagent(agents[i], agents[j]).Greater?;
    var a, b := agents[i].subagent.value, agents[j].subagent.value;
    if a.finishedAt.Some? == b.finishedAt.Some? && a.startedAt == b.startedAt {
      NotBefore(Render(agents[i].id), Render(agents[j].id));
    }
  }
}
