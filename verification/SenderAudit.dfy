/** The sender's audit of its handoffs (`send`, `write_sent` of src/handoff.rs):
    which content an ID is bound to, and when that is forgotten. */
module SenderAudit {
  import opened Wrappers
  import opened HandoffProtocol
  import opened Sorting

  const SENT_RETENTION_LIMIT: nat := 200

  /** A status of None is the Sending state. */
  datatype SentRecord = SentRecord(fingerprint: Request, machine: string, status: Option<SentStatus>)

  type Audit = map<string, SentRecord>

  /** What one write of the audit does not control: how the file replacement
      ends, whether the directory can be listed, the files' modification times as
      far as they can be read, and which of them can be removed. */
  datatype Disk = Disk(
    write: Write, listed: bool, modified: string -> Option<int>, removable: string -> bool)

  /** The order of cleaning up: newest first, unreadable times last. */
  function NewestFirst(disk: Disk, a: string, b: string): Order {
    var s, t := disk.modified(a), disk.modified(b);
    Then(CompareInts(if t.Some? then 1 else 0, if s.Some? then 1 else 0), CompareInts(t.GetOr(0), s.GetOr(0)))
  }

  /** One record has a later modification time than another, which may have none. */
  predicate IsNewer(disk: Disk, a: string, b: string) {
    disk.modified(a).Some? && (disk.modified(b).None? || disk.modified(a).value > disk.modified(b).value)
  }

  function NotOlder(disk: Disk, ids: set<string>, id: string): set<string> {
    set other | other in ids && other != id && !IsNewer(disk, id, other)
  }

  function Newer(disk: Disk, ids: set<string>, id: string): set<string> {
    set other | other in ids && IsNewer(disk, other, id)
  }

  /** Enough other records are at least as new for this one to be forgotten. */
  predicate Crowded(disk: Disk, ids: set<string>, id: string) {
    |NotOlder(disk, ids, id)| >= SENT_RETENTION_LIMIT
  }

  /** What one write may leave of the audit: records are forgotten only behind
      the newest ones, and a write that succeeds keeps no more than those. */
  ghost predicate Written(before: Audit, id: string, record: SentRecord, disk: Disk, ok: bool, after: Audit) {
    var landed := before[id := record];
    if disk.write.NotWritten? then !ok && after == before
    else
      && after.Keys <= landed.Keys && (forall x | x in after :: after[x] == landed[x])
      && (forall x | x in landed && x !in after :: Crowded(disk, landed.Keys, x) && disk.removable(x))
      && (!disk.write.Durable? || !disk.listed ==> !ok && after == landed)
      && (disk.write.Durable? && disk.listed && (forall x | x in landed :: disk.removable(x)) ==> ok)
      && (ok ==> |after.Keys| <= SENT_RETENTION_LIMIT
                 && forall x, y | x in after && y in landed && y !in after :: !IsNewer(disk, y, x))
  }

  /** What a sender does not control during one send: whether it can look for
      and read an earlier record, and its two writes. */
  datatype Environment = Environment(sighted: bool, readable: bool, first: Disk, last: Disk)

  datatype Sending = Sending(request: Request, machine: string, exchange: Exchange, env: Environment)

  predicate SameContent(record: SentRecord, s: Sending) {
    record.fingerprint == Fingerprint(s.request) && record.machine == s.machine
  }

  /** An earlier record that is unreadable, or binds the ID to other content. */
  predicate Refuses(audit: Audit, s: Sending) {
    && s.env.sighted && s.request.id in audit
    && (!s.env.readable || !SameContent(audit[s.request.id], s))
  }

  /** One send: refused, stopped by its first write, or carried out; a status is
      reported exactly when the request went out. */
  ghost predicate Sends(before: Audit, s: Sending, status: Option<SentStatus>, warned: bool, after: Audit) {
    var id, record := s.request.id, SentRecord(Fingerprint(s.request), s.machine, None);
    if Refuses(before, s) then status.None? && !warned && after == before
    else if status.None? then !warned && Written(before, id, record, s.env.first, false, after)
    else
      && Reports(s.request, s.exchange, status.value)
      && exists between ::
           && Written(before, id, record, s.env.first, true, between)
           && Written(between, id, record.(status := status), s.env.last, !warned, after)
  }

  class Sender {
    var sent: Audit

    constructor ()
      ensures sent == map[]
    {
      sent := map[];
    }

    /** The directory's entries, in whatever order it lists them. */
    method List() returns (ids: seq<string>)
      ensures Distinct(ids) && forall id :: id in ids <==> id in sent
    {
      ids := [];
      var todo := sent.Keys;
      while todo != {}
        invariant todo <= sent.Keys && Distinct(ids)
        invariant forall id :: id in ids <==> id in sent && id !in todo
        decreases todo
      {
        var id :| id in todo;
        todo := todo - {id};
        ids := ids + [id];
      }
    }

    method ListNewestFirst(disk: Disk) returns (order: seq<string>)
      ensures InOrder(disk, order, sent.Keys)
    {
      var ids := List();
      order := StableSort(ids, (a, b) => NewestFirst(disk, a, b));
      SortedIsListing(disk, ids, order);
      assert Elements(ids) == sent.Keys;
    }

    /** `write_sent`. */
    method WriteSent(id: string, record: SentRecord, disk: Disk) returns (ok: bool)
      modifies this
      ensures Written(old(sent), id, record, disk, ok, sent)
    {
      if disk.write.NotWritten? { return false; }
      sent := sent[id := record];
      if !disk.write.Durable? || !disk.listed { return false; }
      ok := CleanUp(disk);
    }

    /** Removes what lies behind the newest records, until a removal fails. */
    method CleanUp(disk: Disk) returns (ok: bool)
      modifies this
      ensures sent.Keys <= old(sent).Keys && forall x | x in sent :: sent[x] == old(sent)[x]
      ensures forall x | x in old(sent) && x !in sent :: Crowded(disk, old(sent).Keys, x) && disk.removable(x)
      ensures (forall x | x in old(sent) :: disk.removable(x)) ==> ok
      ensures ok ==> |sent.Keys| <= SENT_RETENTION_LIMIT
      ensures ok ==> forall x, y | x in sent && y in old(sent) && y !in sent :: !IsNewer(disk, y, x)
    {
      var order := ListNewestFirst(disk);
      var kept := if |order| < SENT_RETENTION_LIMIT then |order| else SENT_RETENTION_LIMIT;
      ghost var ids, stop := sent.Keys, kept;
      ok, stop := RemoveFrom(disk, order, kept);
      BehindTheKept(disk, order, ids, kept, stop, sent.Keys);
      if ok {
        assert order[kept..stop] == order[kept..];
        OnlyTheKept(disk, order, ids, kept, sent.Keys);
      } else {
        assert order[stop] in Elements(order);
      }
    }

    method RemoveFrom(disk: Disk, order: seq<string>, kept: nat) returns (ok: bool, ghost stop: nat)
      requires kept <= |order|
      modifies this
      ensures kept <= stop <= |order| && sent == old(sent) - Elements(order[kept..stop])
      ensures if ok then stop == |order| else stop < |order| && !disk.removable(order[stop])
      ensures forall x | x in order[kept..stop] :: disk.removable(x)
    {
      var i := kept;
      assert old(sent) - Elements(order[kept..kept]) == old(sent);
      while i < |order|
        invariant kept <= i <= |order| && sent == old(sent) - Elements(order[kept..i])
        invariant forall x | x in order[kept..i] :: disk.removable(x)
      {
        if !disk.removable(order[i]) { return false, i; }
        sent := sent - {order[i]};
        ElementsOneMore(order, kept, i);
        assert order[kept..i + 1] == order[kept..i] + [order[i]];
        i := i + 1;
      }
      return true, i;
    }

    /** `send`, once request and route are made. */
    method Send(s: Sending) returns (status: Option<SentStatus>, warned: bool)
      modifies this
      ensures Sends(old(sent), s, status, warned, sent)
    {
      var id, record := s.request.id, SentRecord(Fingerprint(s.request), s.machine, None);
      if s.env.sighted && id in sent {
        if !s.env.readable { return None, false; }
        if sent[id].fingerprint != record.fingerprint || sent[id].machine != s.machine { return None, false; }
      }
      var ok := WriteSent(id, record, s.env.first);
      if !ok { return None, false; }
      ghost var between := sent;
      status := Some(ClassifyOutcome(s.request, s.exchange));
      StatusExactly(s.request, s.exchange, status.value);
      ok := WriteSent(id, record.(status := status), s.env.last);
      warned := !ok;
      assert Written(between, id, record.(status := status), s.env.last, !warned, sent);
    }
  }

  // ---------------------------------------------------------------- cleaning up

  ghost predicate Distinct(ids: seq<string>) { forall i, j | 0 <= i < j < |ids| :: ids[i] != ids[j] }

  function Elements(ids: seq<string>): set<string> { set id | id in ids }

  lemma ElementsOneMore(ids: seq<string>, from: nat, i: nat)
    requires from <= i < |ids|
    ensures Elements(ids[from..i + 1]) == Elements(ids[from..i]) + {ids[i]}
  {
    assert ids[from..i + 1] == ids[from..i] + [ids[i]];
  }

  lemma {:induction false} CountDistinct(ids: seq<string>)
    requires Distinct(ids)
    ensures |Elements(ids)| == |ids|
    decreases |ids|
  {
    if ids != [] {
      var n := |ids| - 1;
      CountDistinct(ids[..n]);
      ElementsOneMore(ids, 0, n);
      assert ids[0..n] == ids[..n] && ids[0..n + 1] == ids;
      assert ids[n] !in Elements(ids[..n]);
    }
  }

  lemma NewestFirstIsTotal(disk: Disk)
    ensures TotalPreorder((a, b) => NewestFirst(disk, a, b))
  {
  }

  lemma DistinctMultiset(ids: seq<string>, order: seq<string>)
    requires Distinct(ids) && multiset(order) == multiset(ids)
    ensures Distinct(order) && forall id :: id in order <==> id in ids
  {
    forall id ensures id in order <==> id in ids { assert id in order <==> id in multiset(order); }
    forall i, j | 0 <= i < j < |order| ensures order[i] != order[j] {
      if order[i] == order[j] {
        assert order == order[..i] + [order[i]] + order[i + 1..j] + [order[j]] + order[j + 1..];
        assert multiset(order)[order[i]] >= 2;
        OnceInDistinct(ids, order[i]);
      }
    }
  }

  lemma {:induction false} OnceInDistinct(ids: seq<string>, id: string)
    requires Distinct(ids)
    ensures multiset(ids)[id] <= 1
    decreases |ids|
  {
    if ids != [] {
      var n := |ids| - 1;
      assert ids == ids[..n] + [ids[n]];
      OnceInDistinct(ids[..n], id);
      if id == ids[n] { assert id !in ids[..n]; }
    }
  }

  /** The listing in cleaning order. */
  ghost predicate InOrder(disk: Disk, order: seq<string>, ids: set<string>) {
    && Distinct(order) && Elements(order) == ids
    && forall i, j | 0 <= i < j < |order| :: !IsNewer(disk, order[j], order[i])
  }

  lemma SortedIsListing(disk: Disk, ids: seq<string>, order: seq<string>)
    requires Distinct(ids) && order == StableSort(ids, (a, b) => NewestFirst(disk, a, b))
    ensures InOrder(disk, order, Elements(ids))
  {
    var compare := (a, b) => NewestFirst(disk, a, b);
    NewestFirstIsTotal(disk);
    StableSortSorts(ids, compare);
    DistinctMultiset(ids, order);
    forall i, j | 0 <= i < j < |order| ensures !IsNewer(disk, order[j], order[i]) {
      assert !compare(order[i], order[j]).Greater?;
    }
  }

  /** Whatever was removed has the newest records before it. */
  lemma BehindTheKept(disk: Disk, order: seq<string>, ids: set<string>, kept: nat, i: nat, left: set<string>)
    requires InOrder(disk, order, ids) && kept <= i <= |order| && left == ids - Elements(order[kept..i])
    requires kept == |order| || kept == SENT_RETENTION_LIMIT
    ensures forall x | x in ids && x !in left :: Crowded(disk, ids, x) && x in order[kept..i]
  {
    forall x | x in ids && x !in left ensures Crowded(disk, ids, x) && x in order[kept..i] {
      var k :| kept <= k < i && order[k] == x;
      FrontIsNotOlder(disk, order, ids, kept, k);
    }
  }

  lemma FrontIsNotOlder(disk: Disk, order: seq<string>, ids: set<string>, kept: nat, k: nat)
    requires InOrder(disk, order, ids) && kept <= k < |order|
    ensures |NotOlder(disk, ids, order[k])| >= kept
  {
    var front := order[..kept];
    CountDistinct(front);
    forall x | x in Elements(front) ensures x in NotOlder(disk, ids, order[k]) {
      var i :| 0 <= i < kept && order[i] == x;
      assert x in order;
    }
    NoMoreThan(Elements(front), NotOlder(disk, ids, order[k]));
  }

  lemma NoMoreThan(a: set<string>, b: set<string>)
    requires a <= b
    ensures |a| <= |b|
  {
    assert b == a + (b - a);
  }

  /** After a complete cleanup only the newest records are left. */
  lemma OnlyTheKept(disk: Disk, order: seq<string>, ids: set<string>, kept: nat, left: set<string>)
    requires InOrder(disk, order, ids) && kept <= |order| && left == ids - Elements(order[kept..])
    requires kept <= SENT_RETENTION_LIMIT
    ensures |left| <= SENT_RETENTION_LIMIT
    ensures forall x, y | x in left && y in ids && y !in left :: !IsNewer(disk, y, x)
  {
    var front := order[..kept];
    CountDistinct(front);
    forall k | kept <= k < |order| ensures order[k] !in left { assert order[k] == order[kept..][k - kept]; }
    forall x | x in left ensures x in Elements(front) {
      var i :| 0 <= i < |order| && order[i] == x;
    }
    NoMoreThan(left, Elements(front));
    forall x, y | x in left && y in ids && y !in left ensures !IsNewer(disk, y, x) {
      var i :| 0 <= i < kept && order[i] == x;
      var j :| kept <= j < |order| && order[j] == y;
    }
  }

  // ---------------------------------------------------------------- one write

  /** A record newer than all others is not forgotten: in particular the one just
      written, as long as the clock has not stepped back. */
  lemma NewestIsKept(before: Audit, id: string, record: SentRecord, disk: Disk, ok: bool, after: Audit, x: string)
    requires Written(before, id, record, disk, ok, after) && !disk.write.NotWritten? && x in before[id := record]
    requires forall other | other in before[id := record] && other != x :: IsNewer(disk, x, other)
    ensures x in after
  {
    assert NotOlder(disk, before[id := record].Keys, x) == {};
  }

  /** After a write that succeeds a record is gone if enough others are newer, and
      only if enough others are not older; where no two times agree that is exact. */
  lemma ForgottenExactly(before: Audit, id: string, record: SentRecord, disk: Disk, after: Audit, x: string)
    requires Written(before, id, record, disk, true, after) && x in before[id := record]
    ensures var ids := before[id := record].Keys;
      && (|Newer(disk, ids, x)| >= SENT_RETENTION_LIMIT ==> x !in after)
      && (x !in after ==> Crowded(disk, ids, x))
      && ((forall y | y in ids && y != x :: disk.modified(y) != disk.modified(x)) ==>
            (x !in after <==> |Newer(disk, ids, x)| >= SENT_RETENTION_LIMIT))
  {
    var ids := before[id := record].Keys;
    if x in after && |Newer(disk, ids, x)| >= SENT_RETENTION_LIMIT {
      forall y | y in Newer(disk, ids, x) ensures y in after && y != x { }
      NoMoreThan(Newer(disk, ids, x) + {x}, after.Keys);
    }
    if forall y | y in ids && y != x :: disk.modified(y) != disk.modified(x) {
      assert NotOlder(disk, ids, x) == Newer(disk, ids, x);
    }
  }

  // ---------------------------------------------------------------- one send

  function Binding(audit: Audit, id: string): Option<(Request, string)> {
    if id in audit then Some((audit[id].fingerprint, audit[id].machine)) else None
  }

  /** What a write leaves bound: as it was, or as written. */
  lemma WrittenBinds(before: Audit, id: string, record: SentRecord, disk: Disk, ok: bool, after: Audit, x: string)
    requires Written(before, id, record, disk, ok, after) && x in after
    ensures Binding(after, x) == if x == id && !disk.write.NotWritten? then Some((record.fingerprint, record.machine))
                                 else Binding(before, x)
  {
  }

  /** A retained binding is replaced exactly by a send of other content that could
      not see it and whose first write landed. */
  lemma ReboundExactly(before: Audit, s: Sending, status: Option<SentStatus>, warned: bool, after: Audit, id: string)
    requires Sends(before, s, status, warned, after) && id in before && id in after
    ensures Binding(after, id) != Binding(before, id) <==>
      id == s.request.id && !SameContent(before[id], s) && !s.env.sighted && !s.env.first.write.NotWritten?
  {
    var record := SentRecord(Fingerprint(s.request), s.machine, None);
    if !Refuses(before, s) {
      if status.None? {
        WrittenBinds(before, s.request.id, record, s.env.first, false, after, id);
      } else {
        var between :| Written(before, s.request.id, record, s.env.first, true, between)
                    && Written(between, s.request.id, record.(status := status), s.env.last, !warned, after);
        WrittenBinds(between, s.request.id, record.(status := status), s.env.last, !warned, after, id);
        if id in between { WrittenBinds(before, s.request.id, record, s.env.first, true, between, id); }
      }
    }
  }

  lemma CrowdedAmongMore(disk: Disk, few: set<string>, many: set<string>, id: string)
    requires few <= many && Crowded(disk, few, id)
    ensures Crowded(disk, many, id)
  {
    NoMoreThan(NotOlder(disk, few, id), NotOlder(disk, many, id));
  }

  /** A binding is lost only when one of the two writes found it crowded out. */
  lemma LostOnlyWhenCrowded(
    before: Audit, s: Sending, status: Option<SentStatus>, warned: bool, after: Audit, id: string)
    requires Sends(before, s, status, warned, after) && id in before && id !in after
    ensures var ids := before.Keys + {s.request.id};
      Crowded(s.env.first, ids, id) || Crowded(s.env.last, ids, id)
  {
    var ids, record := before.Keys + {s.request.id}, SentRecord(Fingerprint(s.request), s.machine, None);
    assert before[s.request.id := record].Keys == ids;
    if status.Some? {
      var between :| Written(before, s.request.id, record, s.env.first, true, between)
                  && Written(between, s.request.id, record.(status := status), s.env.last, !warned, after);
      if id in between {
        CrowdedAmongMore(s.env.last, between[s.request.id := record.(status := status)].Keys, ids, id);
      }
    }
  }

  /** While the audit can be written, a send is refused exactly when the visible
      record of its ID is unreadable or has other content: the same content may be
      sent again. */
  lemma RefusedExactly(before: Audit, s: Sending, status: Option<SentStatus>, warned: bool, after: Audit)
    requires Sends(before, s, status, warned, after) && Works(s.env.first)
    ensures status.None? <==>
      && s.env.sighted && s.request.id in before
      && !(s.env.readable && before[s.request.id].machine == s.machine
           && before[s.request.id].fingerprint == s.request.(allowWorking := false))
    ensures status.None? ==> after == before
  {
  }

  /** Whatever goes out under an ID with a visible record has the recorded content. */
  lemma SentMatchesBinding(before: Audit, s: Sending, status: Option<SentStatus>, warned: bool, after: Audit)
    requires Sends(before, s, status, warned, after) && status.Some? && s.env.sighted
    ensures s.request.id in before ==> Binding(before, s.request.id) == Some((Fingerprint(s.request), s.machine))
  {
  }

  // ---------------------------------------------------------------- runs

  datatype Sent = Sent(sending: Sending, status: Option<SentStatus>, warned: bool)

  ghost predicate IsRun(audits: seq<Audit>, sends: seq<Sent>) {
    && |audits| == |sends| + 1
    && forall i | 0 <= i < |sends| ::
         Sends(audits[i], sends[i].sending, sends[i].status, sends[i].warned, audits[i + 1])
  }

  /** Records of the ID are kept all along, and every send under it can look for them. */
  ghost predicate Retained(audits: seq<Audit>, sends: seq<Sent>, id: string) {
    && (forall i | 0 <= i < |audits| :: id in audits[i])
    && forall i | 0 <= i < |sends| && sends[i].sending.request.id == id :: sends[i].sending.env.sighted
  }

  /** Over any run of sends, as long as its record is retained an ID stays bound to
      one content, and everything sent under it has that content. */
  lemma {:induction false} RetainedBindingIsKept(audits: seq<Audit>, sends: seq<Sent>, id: string)
    requires IsRun(audits, sends) && Retained(audits, sends, id)
    ensures Binding(audits[|sends|], id) == Binding(audits[0], id)
    ensures forall i | 0 <= i < |sends| && sends[i].sending.request.id == id && sends[i].status.Some? ::
      Some((Fingerprint(sends[i].sending.request), sends[i].sending.machine)) == Binding(audits[0], id)
    decreases |sends|
  {
    if sends != [] {
      var n := |sends| - 1;
      var fewer := audits[..n + 1];
      assert forall i | 0 <= i < |fewer| :: fewer[i] == audits[i];
      RetainedBindingIsKept(fewer, sends[..n], id);
      var last := sends[n];
      assert audits[n] == fewer[n];
      ReboundExactly(audits[n], last.sending, last.status, last.warned, audits[n + 1], id);
      if last.sending.request.id == id && last.status.Some? {
        SentMatchesBinding(audits[n], last.sending, last.status, last.warned, audits[n + 1]);
      }
    }
  }

  // ---------------------------------------------------------------- two concrete runs

  /** A disk on which everything works, with these modification times. */
  ghost predicate Works(disk: Disk) {
    disk.write.Durable? && disk.listed && forall id: string :: disk.removable(id)
  }

  function Working(modified: string -> Option<int>): (disk: Disk)
    ensures Works(disk)
  {
    Disk(Durable, true, modified, (_: string) => true)
  }

  lemma NotCrowded(disk: Disk, ids: set<string>, x: string)
    requires |ids| <= SENT_RETENTION_LIMIT && x in ids
    ensures !Crowded(disk, ids, x)
  {
    NoMoreThan(NotOlder(disk, ids, x) + {x}, ids);
  }

  /** A write that works keeps everything while there is room. */
  lemma RoomForAll(before: Audit, id: string, record: SentRecord, disk: Disk, ok: bool, after: Audit)
    requires Written(before, id, record, disk, ok, after) && Works(disk)
    requires |before.Keys + {id}| <= SENT_RETENTION_LIMIT
    ensures ok && after == before[id := record]
  {
    var landed := before[id := record];
    assert landed.Keys == before.Keys + {id};
    forall x | x in landed ensures x in after { NotCrowded(disk, landed.Keys, x); }
    SameAudit(after, landed);
  }

  lemma SameAudit(a: Audit, b: Audit)
    requires a.Keys == b.Keys && forall x | x in a :: a[x] == b[x]
    ensures a == b
  {
  }

  /** A send that works and is not refused goes out and binds its ID. */
  lemma RoomToSend(before: Audit, s: Sending, status: Option<SentStatus>, warned: bool, after: Audit)
    requires Sends(before, s, status, warned, after) && !Refuses(before, s)
    requires Works(s.env.first) && Works(s.env.last) && |before.Keys + {s.request.id}| <= SENT_RETENTION_LIMIT
    ensures status.Some? && after.Keys == before.Keys + {s.request.id}
    ensures Binding(after, s.request.id) == Some((Fingerprint(s.request), s.machine))
  {
    var id, record := s.request.id, SentRecord(Fingerprint(s.request), s.machine, None);
    if status.None? {
      RoomForAll(before, id, record, s.env.first, false, after);
    } else {
      var between :| Written(before, id, record, s.env.first, true, between)
                  && Written(between, id, record.(status := status), s.env.last, !warned, after);
      TwoWrites(before, id, record, record.(status := status), s.env.first, s.env.last, between, warned, after);
    }
  }

  lemma TwoWrites(before: Audit, id: string, record: SentRecord, done: SentRecord, first: Disk, last: Disk,
                  between: Audit, warned: bool, after: Audit)
    requires Written(before, id, record, first, true, between) && Written(between, id, done, last, !warned, after)
    requires Works(first) && Works(last) && |before.Keys + {id}| <= SENT_RETENTION_LIMIT
    ensures after.Keys == before.Keys + {id} && id in after && after[id] == done
  {
    RoomForAll(before, id, record, first, true, between);
    SecondWrite(before, id, record, done, last, between, warned, after);
  }

  lemma SecondWrite(before: Audit, id: string, record: SentRecord, done: SentRecord, last: Disk,
                    between: Audit, warned: bool, after: Audit)
    requires between == before[id := record] && Written(between, id, done, last, !warned, after)
    requires Works(last) && |before.Keys + {id}| <= SENT_RETENTION_LIMIT
    ensures after == before[id := done]
  {
    assert between.Keys + {id} == before.Keys + {id};
    RoomForAll(between, id, done, last, !warned, after);
  }

  /** From the empty audit: an ID is bound, and a send that cannot look for its
      record binds it to other content. */
  method Rebind(
    first: Request, second: Request, machine: string, modified: string -> Option<int>) returns (sender: Sender)
    requires first.id == second.id && Fingerprint(first) != Fingerprint(second)
    ensures Binding(sender.sent, first.id) == Some((Fingerprint(second), machine))
  {
    sender := new Sender();
    var works := Working(modified);
    var s := Sending(first, machine, Broken, Environment(true, true, works, works));
    ghost var empty := sender.sent;
    var status, warned := sender.Send(s);
    assert empty.Keys + {first.id} == {first.id};
    RoomToSend(empty, s, status, warned, sender.sent);
    var t := Sending(second, machine, Broken, Environment(false, true, works, works));
    ghost var bound := sender.sent;
    status, warned := sender.Send(t);
    assert bound.Keys + {first.id} == {first.id};
    RoomToSend(bound, t, status, warned, sender.sent);
  }

  /** From the empty audit: the first of 201 IDs is forgotten after the last of
      them is sent, and may then be bound to other content in plain sight. */
  method SendMany(ids: seq<string>, request: Request, machine: string, modified: string -> Option<int>)
    returns (sender: Sender)
    requires |ids| == 201 && Distinct(ids)
    requires forall i, j | 0 <= i < j < |ids| :: IsNewer(Working(modified), ids[j], ids[i])
    ensures ids[0] !in sender.sent
  {
    sender := new Sender();
    var works := Working(modified);
    for i := 0 to SENT_RETENTION_LIMIT
      invariant sender.sent.Keys == Elements(ids[..i])
    {
      SendOneMore(sender, ids, i, request, machine, works);
    }
    var last := ids[SENT_RETENTION_LIMIT];
    var s := Sending(request.(id := last), machine, Broken, Environment(true, true, works, works));
    ghost var before := sender.sent;
    var status, warned := sender.Send(s);
    FirstIsForgotten(ids, before, s, status, warned, sender.sent);
  }

  method SendOneMore(sender: Sender, ids: seq<string>, i: nat, request: Request, machine: string, works: Disk)
    requires i < SENT_RETENTION_LIMIT < |ids| && Distinct(ids) && Works(works)
    requires sender.sent.Keys == Elements(ids[..i])
    modifies sender
    ensures sender.sent.Keys == Elements(ids[..i + 1])
  {
    var s := Sending(request.(id := ids[i]), machine, Broken, Environment(true, true, works, works));
    ghost var before := sender.sent;
    ElementsOneMore(ids, 0, i);
    assert ids[0..i] == ids[..i] && ids[0..i + 1] == ids[..i + 1];
    CountDistinct(ids[..i + 1]);
    assert ids[i] !in Elements(ids[..i]);
    var status, warned := sender.Send(s);
    RoomToSend(before, s, status, warned, sender.sent);
  }

  lemma FirstIsForgotten(
    ids: seq<string>, before: Audit, s: Sending, status: Option<SentStatus>, warned: bool, after: Audit)
    requires |ids| == SENT_RETENTION_LIMIT + 1 && Distinct(ids) && s.request.id == ids[SENT_RETENTION_LIMIT]
    requires before.Keys == Elements(ids[..SENT_RETENTION_LIMIT])
    requires Sends(before, s, status, warned, after) && Works(s.env.first) && s.env.last == s.env.first
    requires forall i, j | 0 <= i < j < |ids| :: IsNewer(s.env.first, ids[j], ids[i])
    ensures ids[0] !in after
  {
    var id, record, n := s.request.id, SentRecord(Fingerprint(s.request), s.machine, None), SENT_RETENTION_LIMIT;
    assert ids == ids[..n] + [ids[n]];
    assert id !in before;
    var landed := before[id := record];
    assert landed.Keys == Elements(ids);
    AllNewerThanFirst(ids, s.env.first);
    assert ids[0] in ids;
    var between: Audit := after;
    if status.Some? {
      between :| Written(before, id, record, s.env.first, true, between)
              && Written(between, id, record.(status := status), s.env.last, !warned, after);
    }
    assert Written(before, id, record, s.env.first, true, between);
    ForgottenExactly(before, id, record, s.env.first, between, ids[0]);
  }

  lemma AllNewerThanFirst(ids: seq<string>, disk: Disk)
    requires |ids| > 0 && Distinct(ids)
    requires forall i, j | 0 <= i < j < |ids| :: IsNewer(disk, ids[j], ids[i])
    ensures |Newer(disk, Elements(ids), ids[0])| >= |ids| - 1
  {
    CountDistinct(ids[1..]);
    forall x | x in Elements(ids[1..]) ensures x in Newer(disk, Elements(ids), ids[0]) {
      var i :| 0 <= i < |ids| - 1 && ids[1..][i] == x;
      assert ids[i + 1] == x && x in ids;
    }
    NoMoreThan(Elements(ids[1..]), Newer(disk, Elements(ids), ids[0]));
  }
}
